/** What a concept reconciliation gives and when, read off the prior rows (cmd/olw_worker/concept_reconcile.go). */
module ConceptResults {
  import opened Options
  import opened Texts
  import opened ByteStrings
  import opened WikiIndex
  import opened ConceptReconcile
  import opened ConceptTheorems

  // ---- The prior rows ----

  /** The rows are valid; IDs and slugs correspond one to one, and no entity belongs to two IDs. */
  ghost predicate RowsAgree(prior: seq<Row>) {
    && (forall row :: row in prior ==>
          && ValidSourceID(row.conceptID) && SafeConceptSlug(row.slug)
          && (row.entityID != "" ==> ValidSyntoEntityID(row.entityID)))
    && (forall a, b :: a in prior && b in prior ==>
          && (a.slug == b.slug <==> a.conceptID == b.conceptID)
          && (a.entityID == b.entityID != "" ==> a.conceptID == b.conceptID))
  }

  lemma PriorExactly(prior: seq<Row>)
    ensures PriorOk(prior) <==> RowsAgree(prior)
  {
    hide PriorOk, RowFits, ValidSourceID, SafeConceptSlug, ValidSyntoEntityID;
    if PriorOk(prior) {
      forall row | row in prior
        ensures ValidSourceID(row.conceptID) && SafeConceptSlug(row.slug) && (row.entityID != "" ==> ValidSyntoEntityID(row.entityID))
        ensures RowIndexed(prior, row)
      {
        RowsIndexed(prior, row);
      }
    }
    if RowsAgree(prior) {
      forall n | 0 <= n < |prior| ensures RowFits(prior[..n], prior[n]) {
        AgreeingRowFits(prior, n);
      }
      AllFit(prior);
    }
  }

  lemma AllFit(prior: seq<Row>)
    requires forall n :: 0 <= n < |prior| ==> RowFits(prior[..n], prior[n])
    ensures PriorOk(prior)
  {
    hide RowFits;
  }

  lemma AgreeingRowFits(prior: seq<Row>, n: nat)
    requires RowsAgree(prior) && n < |prior|
    ensures RowFits(prior[..n], prior[n])
  {
    hide ValidSourceID, SafeConceptSlug, ValidSyntoEntityID, SlugIndex, IDIndex, EntityIndex;
    var before, row := prior[..n], prior[n];
    assert row in prior && forall r :: r in before ==> r in prior;
    if row.slug in SlugIndex(before) {
      IndexedSlug(before, row.slug);
    }
    if row.conceptID in IDIndex(before) {
      IndexedID(before, row.conceptID);
    }
    if row.entityID in EntityIndex(before) {
      IndexedEntity(before, row.entityID);
    }
  }

  // ---- Which ID and which entity a concept gets ----

  ghost predicate KnownEntity(prior: seq<Row>, entity: string) {
    entity != "" && exists row :: row in prior && row.entityID == entity
  }

  ghost predicate KnownSlug(prior: seq<Row>, slug: string) {
    exists row :: row in prior && row.slug == slug
  }

  lemma EntityIndexed(prior: seq<Row>, entity: string)
    requires PriorOk(prior)
    ensures entity in EntityIndex(prior) <==> KnownEntity(prior, entity)
    ensures forall row :: row in prior && row.entityID == entity != "" ==> EntityIndex(prior)[entity] == row.conceptID
  {
    hide PriorOk, EntityIndex;
    if entity in EntityIndex(prior) {
      IndexedEntity(prior, entity);
    }
    forall row | row in prior && row.entityID == entity != ""
      ensures entity in EntityIndex(prior) && EntityIndex(prior)[entity] == row.conceptID
    {
      RowsIndexed(prior, row);
    }
  }

  lemma SlugIndexed(prior: seq<Row>, slug: string)
    requires PriorOk(prior)
    ensures slug in SlugIndex(prior) <==> KnownSlug(prior, slug)
    ensures forall row :: row in prior && row.slug == slug ==> SlugIndex(prior)[slug] == row.conceptID
  {
    hide PriorOk, SlugIndex;
    if slug in SlugIndex(prior) {
      IndexedSlug(prior, slug);
    }
    forall row | row in prior && row.slug == slug ensures slug in SlugIndex(prior) && SlugIndex(prior)[slug] == row.conceptID {
      RowsIndexed(prior, row);
    }
  }

  lemma StableIs(ids: IDMap, prior: seq<Row>, c: string)
    requires PriorOk(prior) && EntityMapOk(ids) && c in ids.concept
    ensures var entity, stable := Get(ids.conceptEntityID, c), StableID(prior, ids, c);
            && (forall row :: row in prior && row.entityID == entity != "" ==> stable == row.conceptID)
            && (!KnownEntity(prior, entity) ==> forall row :: row in prior && row.slug == ids.concept[c] ==> stable == row.conceptID)
            && (!KnownEntity(prior, entity) && !KnownSlug(prior, ids.concept[c]) ==> stable == c)
  {
    hide PriorOk, EntityMapOk, EntityIndex, SlugIndex, EntityOf;
    EntityIsPlain(ids, c);
    EntityIndexed(prior, Get(ids.conceptEntityID, c));
    SlugIndexed(prior, ids.concept[c]);
  }

  /**
   * A generated concept gets the ID that its entity had; if no prior row has its entity, the one that its slug
   * had; and its own if no prior row has its slug either.
   */
  lemma StableIDExactly(ids: IDMap, prior: seq<Row>, requireEntity: bool, out: Reconciliation, c: string)
    requires Succeeds(ids, prior, requireEntity, out) && c in ids.concept
    ensures out.translated.Keys == ids.concept.Keys
    ensures out.translated[c] in out.ids.concept && out.ids.concept[out.translated[c]] == ids.concept[c]
    ensures var entity := Get(ids.conceptEntityID, c);
            && (forall row :: row in prior && row.entityID == entity != "" ==> out.translated[c] == row.conceptID)
            && (!KnownEntity(prior, entity) ==>
                  forall row :: row in prior && row.slug == ids.concept[c] ==> out.translated[c] == row.conceptID)
            && (!KnownEntity(prior, entity) && !KnownSlug(prior, ids.concept[c]) ==> out.translated[c] == c)
  {
    hide PriorOk, EntityMapOk, Translatable, RedirectsFit, Rekeyed, Flat, StableID, KnownEntity, KnownSlug, NextEntity;
    StableIs(ids, prior, c);
    assert out.translated[c] == StableID(prior, ids, c);
  }

  /** The last prior row of a slug that is bound to an entity. */
  ghost predicate LastBound(prior: seq<Row>, n: nat, slug: string) {
    && n < |prior| && prior[n].slug == slug && prior[n].entityID != ""
    && forall k :: n < k < |prior| && prior[k].slug == slug ==> prior[k].entityID == ""
  }

  lemma {:induction false} BoundBySlug(prior: seq<Row>, n: nat, slug: string)
    ensures LastBound(prior, n, slug) ==> Get(EntityBySlug(prior), slug) == prior[n].entityID
    ensures (forall k :: 0 <= k < |prior| && prior[k].slug == slug ==> prior[k].entityID == "") ==> slug !in EntityBySlug(prior)
    decreases |prior|
  {
    if prior != [] && !(prior[|prior| - 1].slug == slug && prior[|prior| - 1].entityID != "") {
      var init := prior[..|prior| - 1];
      BoundBySlug(init, n, slug);
    }
  }

  /**
   * The entity that a concept ends up with is the generated one; without one, that of the last prior row with its
   * slug that has any; and if there is no such row, it is left out of the entity map.
   */
  lemma EntityExactly(ids: IDMap, prior: seq<Row>, requireEntity: bool, out: Reconciliation, c: string)
    requires Succeeds(ids, prior, requireEntity, out) && c in ids.concept
    ensures out.translated.Keys == ids.concept.Keys
    ensures var s, entity := out.translated[c], out.ids.conceptEntityID;
            && (c in ids.conceptEntityID && ids.conceptEntityID[c] != "" ==> s in entity && entity[s] == ids.conceptEntityID[c])
            && (c !in ids.conceptEntityID || ids.conceptEntityID[c] == "" ==>
                 && (forall n: nat :: LastBound(prior, n, ids.concept[c]) ==> s in entity && entity[s] == prior[n].entityID)
                 && ((forall row :: row in prior && row.slug == ids.concept[c] ==> row.entityID == "") ==> s !in entity))
    ensures forall s :: s in out.ids.conceptEntityID ==> exists d :: d in ids.concept && out.translated[d] == s
  {
    hide PriorOk, EntityMapOk, Translatable, RedirectsFit, Rekeyed, Flat, StableID, LastBound, EntityBySlug;
    var s := out.translated[c];
    assert s == StableID(prior, ids, c);
    if c !in ids.conceptEntityID || ids.conceptEntityID[c] == "" {
      BoundBySlug(prior, 0, ids.concept[c]);
      forall n: nat | LastBound(prior, n, ids.concept[c])
        ensures n < |prior| && Get(EntityBySlug(prior), ids.concept[c]) == prior[n].entityID != ""
      {
        BoundBySlug(prior, n, ids.concept[c]);
        BoundIsBound(prior, n, ids.concept[c]);
      }
    }
    forall t | t in out.ids.conceptEntityID ensures exists d :: d in ids.concept && out.translated[d] == t {
      var d :| d in ids.concept && StableID(prior, ids, d) == t;
      assert out.translated[d] == t;
    }
  }

  lemma BoundIsBound(prior: seq<Row>, n: nat, slug: string)
    requires LastBound(prior, n, slug)
    ensures n < |prior| && prior[n].entityID != ""
  {
  }

  // ---- When concepts can be reconciled ----

  /** The first prior row of a slug. */
  ghost predicate FirstWith(prior: seq<Row>, n: nat, slug: string) {
    n < |prior| && prior[n].slug == slug && forall k :: 0 <= k < n ==> prior[k].slug != slug
  }

  /** A generated concept is valid, and neither takes the slug of another entity's concept nor a prior ID. */
  ghost predicate Admissible(ids: IDMap, prior: seq<Row>, requireEntity: bool, c: string)
    requires c in ids.concept
  {
    var entity, slug := Get(ids.conceptEntityID, c), ids.concept[c];
    && ValidSourceID(c) && SafeConceptSlug(slug) && (requireEntity ==> entity != "")
    && (!KnownEntity(prior, entity) ==>
          && (requireEntity ==> forall n: nat :: FirstWith(prior, n, slug) ==> prior[n].entityID == "")
          && (!KnownSlug(prior, slug) ==> forall row :: row in prior ==> row.conceptID != c))
  }

  /** The prior row that a generated concept goes back to. */
  ghost predicate LeadsTo(ids: IDMap, prior: seq<Row>, c: string, row: Row)
    requires c in ids.concept
  {
    && row in prior
    && if KnownEntity(prior, Get(ids.conceptEntityID, c)) then row.entityID == Get(ids.conceptEntityID, c) else row.slug == ids.concept[c]
  }

  /** Two concepts go back to the same prior one. */
  ghost predicate Crowded(ids: IDMap, prior: seq<Row>, c: string, d: string)
    requires c in ids.concept && d in ids.concept
  {
    exists a, b :: LeadsTo(ids, prior, c, a) && LeadsTo(ids, prior, d, b) && a.slug == b.slug
  }

  /** Exactly when stable IDs can be given: in terms of the rows, one by one and two by two. */
  lemma TranslatesExactly(ids: IDMap, prior: seq<Row>, requireEntity: bool)
    requires EntityMapOk(ids)
    ensures PriorOk(prior) && Translatable(prior, ids, requireEntity) <==>
              && RowsAgree(prior)
              && (forall c :: c in ids.concept ==> Admissible(ids, prior, requireEntity, c))
              && (forall c, d :: c in ids.concept && d in ids.concept && ids.concept[c] == ids.concept[d] ==> c == d)
              && (forall c, d :: c in ids.concept && d in ids.concept && c != d ==> !Crowded(ids, prior, c, d))
  {
    hide PriorOk, EntityMapOk, RowsAgree, Admissible, ConceptFits, StableID, Crowded;
    PriorExactly(prior);
    if PriorOk(prior) {
      forall c | c in ids.concept ensures ConceptFits(prior, ids, requireEntity, c) <==> Admissible(ids, prior, requireEntity, c) {
        FitsExactly(ids, prior, requireEntity, c);
      }
      if (forall c :: c in ids.concept ==> Admissible(ids, prior, requireEntity, c))
         && forall c, d :: c in ids.concept && d in ids.concept && ids.concept[c] == ids.concept[d] ==> c == d {
        forall c, d | c in ids.concept && d in ids.concept && c != d
          ensures StableID(prior, ids, c) == StableID(prior, ids, d) <==> Crowded(ids, prior, c, d)
        {
          CollideExactly(ids, prior, requireEntity, c, d);
        }
      }
    }
  }

  lemma {:induction false} FirstIsFirst(prior: seq<Row>, n: nat, id: string, slug: string)
    requires FirstWith(prior, n, slug) && prior[n].conceptID == id
    requires forall row :: row in prior ==> (row.slug == slug <==> row.conceptID == id)
    ensures EntityOfID(prior, id) == prior[n].entityID
    decreases n
  {
    assert prior[0] in prior;
    if n > 0 {
      assert forall k :: 0 <= k < n - 1 ==> prior[1..][k] == prior[k + 1];
      FirstIsFirst(prior[1..], n - 1, id, slug);
    }
  }

  lemma {:induction false} SomeFirst(prior: seq<Row>, slug: string) returns (n: nat)
    requires KnownSlug(prior, slug)
    ensures FirstWith(prior, n, slug)
  {
    if prior[0].slug == slug {
      n := 0;
    } else {
      var m := SomeFirst(prior[1..], slug);
      n := m + 1;
    }
  }

  lemma FitsExactly(ids: IDMap, prior: seq<Row>, requireEntity: bool, c: string)
    requires PriorOk(prior) && EntityMapOk(ids) && c in ids.concept
    ensures ConceptFits(prior, ids, requireEntity, c) <==> Admissible(ids, prior, requireEntity, c)
  {
    hide PriorOk, EntityMapOk, KnownEntity, KnownSlug, EntityOf, EntityIndex, SlugIndex, IDIndex, EntityOfID, FirstWith, StableID,
         ValidSourceID, SafeConceptSlug, ValidSyntoEntityID;
    var entity, slug := Get(ids.conceptEntityID, c), ids.concept[c];
    EntityIsPlain(ids, c);
    EntityIsValid(ids, c);
    EntityIndexed(prior, entity);
    SlugIndexed(prior, slug);
    PlaceIsFree(ids, prior, c);
    if !KnownEntity(prior, entity) {
      if KnownSlug(prior, slug) {
        SlugHeir(ids, prior, c);
      } else {
        NoneFirst(prior, slug);
      }
    }
  }

  lemma NoneFirst(prior: seq<Row>, slug: string)
    requires !KnownSlug(prior, slug)
    ensures forall n: nat :: !FirstWith(prior, n, slug)
  {
  }

  lemma EntityIsValid(ids: IDMap, c: string)
    requires EntityMapOk(ids)
    ensures Get(ids.conceptEntityID, c) != "" ==> ValidSyntoEntityID(Get(ids.conceptEntityID, c))
  {
  }

  /** The first row of a known slug is the one that is asked for its entity. */
  lemma SlugHeir(ids: IDMap, prior: seq<Row>, c: string)
    requires PriorOk(prior) && c in ids.concept && KnownSlug(prior, ids.concept[c])
    requires !KnownEntity(prior, Get(ids.conceptEntityID, c))
    ensures ids.concept[c] in SlugIndex(prior)
    ensures var was := EntityOfID(prior, SlugIndex(prior)[ids.concept[c]]);
            && (forall n: nat :: FirstWith(prior, n, ids.concept[c]) ==> prior[n].entityID == was)
            && (exists n: nat :: FirstWith(prior, n, ids.concept[c]))
            && (was in ["", Get(ids.conceptEntityID, c)] <==> was == "")
  {
    hide PriorOk, SlugIndex, EntityOfID;
    var slug := ids.concept[c];
    PriorExactly(prior);
    SlugIndexed(prior, slug);
    var n := SomeFirst(prior, slug);
    assert prior[n] in prior;
    forall m: nat | FirstWith(prior, m, slug) ensures prior[m].entityID == EntityOfID(prior, SlugIndex(prior)[slug]) {
      assert prior[m] in prior;
      FirstIsFirst(prior, m, SlugIndex(prior)[slug], slug);
    }
  }

  /** Whether the ID that a concept would get is valid, and not another's. */
  lemma PlaceIsFree(ids: IDMap, prior: seq<Row>, c: string)
    requires PriorOk(prior) && EntityMapOk(ids) && c in ids.concept
    ensures var entity, slug, stable := Get(ids.conceptEntityID, c), ids.concept[c], StableID(prior, ids, c);
            && (ValidSourceID(c) ==> ValidSourceID(stable))
            && ((stable in IDIndex(prior) && IDIndex(prior)[stable] != slug ==> Get(EntityIndex(prior), entity) == stable)
                <==> (!KnownEntity(prior, entity) && !KnownSlug(prior, slug) ==> forall row :: row in prior ==> row.conceptID != c))
  {
    hide PriorOk, EntityMapOk, StableID, EntityIndex, IDIndex, ValidSourceID, SafeConceptSlug, ValidSyntoEntityID;
    var entity, slug, stable := Get(ids.conceptEntityID, c), ids.concept[c], StableID(prior, ids, c);
    StableIs(ids, prior, c);
    EntityIndexed(prior, entity);
    forall row | row in prior
      ensures ValidSourceID(row.conceptID) && row.conceptID in IDIndex(prior) && IDIndex(prior)[row.conceptID] == row.slug
    {
      RowsIndexed(prior, row);
    }
    if stable in IDIndex(prior) {
      IndexedID(prior, stable);
      NoEmptyID();
      if stable == c && !KnownEntity(prior, entity) && !KnownSlug(prior, slug) {
        assert Get(EntityIndex(prior), entity) == "" != stable;
      }
    }
  }

  lemma NoEmptyID()
    ensures !ValidSourceID("")
  {
  }

  lemma CollideExactly(ids: IDMap, prior: seq<Row>, requireEntity: bool, c: string, d: string)
    requires PriorOk(prior) && EntityMapOk(ids) && c in ids.concept && d in ids.concept && c != d
    requires Admissible(ids, prior, requireEntity, c) && Admissible(ids, prior, requireEntity, d)
    requires ids.concept[c] != ids.concept[d]
    ensures StableID(prior, ids, c) == StableID(prior, ids, d) <==> Crowded(ids, prior, c, d)
  {
    hide PriorOk, EntityMapOk, StableID, LeadsTo, KnownEntity, KnownSlug, ValidSourceID, SafeConceptSlug, ValidSyntoEntityID, FirstWith;
    PriorExactly(prior);
    StableLeads(ids, prior, c);
    StableLeads(ids, prior, d);
    if StableID(prior, ids, c) == StableID(prior, ids, d) {
      if a :| LeadsTo(ids, prior, c, a) {
        if b :| LeadsTo(ids, prior, d, b) {
          assert a.slug == b.slug;
        }
      }
    }
  }

  lemma StableLeads(ids: IDMap, prior: seq<Row>, c: string)
    requires PriorOk(prior) && EntityMapOk(ids) && c in ids.concept
    ensures forall row :: LeadsTo(ids, prior, c, row) ==> row in prior && StableID(prior, ids, c) == row.conceptID
    ensures (forall row :: !LeadsTo(ids, prior, c, row)) ==>
              StableID(prior, ids, c) == c && !KnownEntity(prior, Get(ids.conceptEntityID, c)) && !KnownSlug(prior, ids.concept[c])
  {
    hide PriorOk, EntityMapOk, StableID;
    StableIs(ids, prior, c);
    var entity, slug := Get(ids.conceptEntityID, c), ids.concept[c];
    if KnownEntity(prior, entity) {
      var row :| row in prior && row.entityID == entity;
      assert LeadsTo(ids, prior, c, row);
    } else if KnownSlug(prior, slug) {
      var row :| row in prior && row.slug == slug;
      assert LeadsTo(ids, prior, c, row);
    }
  }
}

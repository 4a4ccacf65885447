/** What a lifecycle plan is, read off its inputs (cmd/olw_worker/concept_reconcile.go). */
module LifecyclePlans {
  import opened Options
  import opened Texts
  import opened ByteStrings
  import opened WikiIndex
  import opened ConceptReconcile
  import opened ConceptTheorems
  import opened ConceptLifecycle
  import opened LifecycleTheorems

  /** The concept is bound to an entity that is active. */
  predicate Supported(ids: IDMap, active: set<string>, id: string) {
    id in ids.conceptEntityID && ids.conceptEntityID[id] != "" && ids.conceptEntityID[id] in active
  }

  /** Neither the ID of a prior concept nor its slug is among the reconciled ones. */
  predicate Vanished(ids: IDMap, row: Row) {
    row.conceptID !in ids.concept && row.slug !in ids.concept.Values
  }

  lemma VanishedIsGone(ids: IDMap, concepts: seq<Concept>, row: Row)
    requires Lists(concepts, ids)
    ensures Vanished(ids, row) <==> Gone(concepts, row)
    ensures Moved(concepts, row) <==> row.conceptID in ids.concept && row.slug !in ids.concept.Values
  {
    ListedNames(concepts, ids);
  }

  lemma SinksAre(ids: IDMap, active: set<string>, concepts: seq<Concept>, prior: seq<Row>, id: string)
    requires Lists(concepts, ids)
    ensures id in DormantIDs(ids, active, concepts, prior) <==>
              || (id in ids.concept && !Supported(ids, active, id))
              || (exists row :: row in prior && Vanished(ids, row) && row.conceptID == id)
  {
    hide Gone, Vanished;
    ListedNames(concepts, ids);
    GoneAre(concepts, prior, id);
    forall row | row in prior ensures Gone(concepts, row) <==> Vanished(ids, row) {
      VanishedIsGone(ids, concepts, row);
    }
    if id in ids.concept {
      assert id in StableIDs(concepts);
    }
  }

  /**
   * A concept stays active exactly while it is bound to an entity that is active. Otherwise it falls
   * dormant: its page is kept among the dormant ones and goes from the wiki.
   */
  lemma ActiveExactly(ids: IDMap, active: set<string>, concepts: seq<Concept>, prior: seq<Row>, pages: map<string, Bytes>,
                      plan: Plan, id: string)
    requires Lists(concepts, ids) && IsPlan(ids, active, concepts, prior, pages, plan)
    ensures id in plan.ids.concept <==>
              && id in ids.concept && id in ids.conceptEntityID
              && ids.conceptEntityID[id] != "" && ids.conceptEntityID[id] in active
    ensures id in plan.ids.concept ==>
              plan.ids.concept[id] == ids.concept[id] && id !in plan.dormant && id !in plan.ids.dormantConcept
    ensures id in ids.concept && id !in plan.ids.concept ==>
              && id in plan.dormant
              && id in plan.ids.dormantConcept && plan.ids.dormantConcept[id] == ids.concept[id]
              && (exists w :: w in plan.writes && w.path == DormantPage(ids.concept[id]))
              && Page(ids.concept[id]) in plan.removals
  {
    hide WithGoneEntities, GoneSlugs, HasPage, PageOf, MovedAway, Revived, DormantIDs, WritesOf;
    SinksAre(ids, active, concepts, prior, id);
    if id in ids.concept && id !in plan.ids.concept {
      SinksKeepTheirPage(ids, active, concepts, prior, pages, plan, id);
    }
  }

  lemma SinksKeepTheirPage(ids: IDMap, active: set<string>, concepts: seq<Concept>, prior: seq<Row>, pages: map<string, Bytes>,
                           plan: Plan, id: string)
    requires IsPlan(ids, active, concepts, prior, pages, plan) && id in plan.ids.dormantConcept
    ensures exists w :: w in plan.writes && w.path == DormantPage(plan.ids.dormantConcept[id])
    ensures Page(plan.ids.dormantConcept[id]) in plan.removals
  {
    hide NextIDs, HasPage, PageOf, MovedAway, Revived, DormantIDs, WritesOf;
    var slug := plan.ids.dormantConcept[id];
    assert HasPage(prior, pages, slug);
    assert Write(DormantPage(slug), PageOf(prior, pages, slug)) in plan.writes;
  }

  /** The last prior row of a slug. */
  ghost predicate LastWith(prior: seq<Row>, n: nat, slug: string) {
    n < |prior| && prior[n].slug == slug && forall k :: n < k < |prior| ==> prior[k].slug != slug
  }

  /** Of the prior rows that have vanished under an ID, the last one. */
  ghost predicate LastVanished(ids: IDMap, prior: seq<Row>, n: nat, id: string) {
    && n < |prior| && prior[n].conceptID == id && Vanished(ids, prior[n])
    && forall k :: n < k < |prior| && prior[k].conceptID == id ==> !Vanished(ids, prior[k])
  }

  lemma {:induction false} LastGone(ids: IDMap, concepts: seq<Concept>, prior: seq<Row>, n: nat, id: string)
    requires Lists(concepts, ids) && LastVanished(ids, prior, n, id)
    ensures id in GoneSlugs(concepts, prior) && GoneSlugs(concepts, prior)[id] == prior[n].slug
    decreases |prior|
  {
    hide Gone, Vanished, Lists;
    var init, last := prior[..|prior| - 1], prior[|prior| - 1];
    VanishedIsGone(ids, concepts, last);
    if n < |init| {
      LastGone(ids, concepts, init, n, id);
    }
  }

  /**
   * A concept that is not active afterwards is dormant if it was listed, or vanished, or was dormant before;
   * with its new slug, the one it vanished with, or the one it had, in this order.
   */
  lemma DormantExactly(ids: IDMap, active: set<string>, concepts: seq<Concept>, prior: seq<Row>, pages: map<string, Bytes>,
                       plan: Plan, id: string)
    requires Lists(concepts, ids) && IsPlan(ids, active, concepts, prior, pages, plan)
    ensures id in plan.ids.dormantConcept <==>
              && id !in plan.ids.concept
              && (id in ids.concept || id in ids.dormantConcept || exists n: nat :: LastVanished(ids, prior, n, id))
    ensures id in plan.ids.dormantConcept && id in ids.concept ==> plan.ids.dormantConcept[id] == ids.concept[id]
    ensures forall n: nat :: LastVanished(ids, prior, n, id) ==> plan.ids.dormantConcept[id] == prior[n].slug
    ensures id in plan.ids.dormantConcept && id !in ids.concept && (forall row :: row in prior && row.conceptID == id ==> !Vanished(ids, row)) ==>
              plan.ids.dormantConcept[id] == ids.dormantConcept[id]
  {
    hide WithGoneEntities, HasPage, PageOf, MovedAway, Revived, GoneSlugs, Gone, Unsupported, Lists;
    GoneAre(concepts, prior, id);
    forall row | row in prior ensures Gone(concepts, row) <==> Vanished(ids, row) {
      VanishedIsGone(ids, concepts, row);
    }
    forall n: nat | LastVanished(ids, prior, n, id)
      ensures id in GoneSlugs(concepts, prior) && GoneSlugs(concepts, prior)[id] == prior[n].slug && id !in ids.concept
    {
      LastGone(ids, concepts, prior, n, id);
    }
    if row :| row in prior && Vanished(ids, row) && row.conceptID == id {
      SomeLastVanished(ids, prior, id);
    }
  }

  lemma {:induction false} SomeLastVanished(ids: IDMap, prior: seq<Row>, id: string)
    requires exists row :: row in prior && Vanished(ids, row) && row.conceptID == id
    ensures exists n: nat :: LastVanished(ids, prior, n, id)
  {
    hide Vanished;
    var init, last := prior[..|prior| - 1], prior[|prior| - 1];
    if Vanished(ids, last) && last.conceptID == id {
      assert LastVanished(ids, prior, |init|, id);
    } else {
      assert prior == init + [last];
      SomeLastVanished(ids, init, id);
      var n: nat :| LastVanished(ids, init, n, id);
      assert LastVanished(ids, prior, n, id);
    }
  }

  /** A vanished concept takes its entity along; all other bindings, and the rest of the map, stay as they are. */
  lemma BindingsExactly(ids: IDMap, active: set<string>, concepts: seq<Concept>, prior: seq<Row>, pages: map<string, Bytes>,
                        plan: Plan, id: string)
    requires Lists(concepts, ids) && IsPlan(ids, active, concepts, prior, pages, plan)
    ensures (forall row :: row in prior && row.conceptID == id && row.entityID != "" ==> !Vanished(ids, row)) ==>
              (id in plan.ids.conceptEntityID <==> id in ids.conceptEntityID)
              && Get(plan.ids.conceptEntityID, id) == Get(ids.conceptEntityID, id)
    ensures forall row :: row in prior && row.conceptID == id && row.entityID != "" && Vanished(ids, row)
                          && (forall other :: other in prior && other.conceptID == id ==> other == row) ==>
              Get(plan.ids.conceptEntityID, id) == row.entityID
    ensures plan.ids == ids.(concept := plan.ids.concept, dormantConcept := plan.ids.dormantConcept,
                             conceptEntityID := plan.ids.conceptEntityID)
  {
    hide Lists, Vanished, Gone, DormantIDs, StillActive, Sunk, GoneSlugs, WithGoneEntities, HasPage, PageOf, MovedAway, Revived;
    forall row | row in prior ensures Gone(concepts, row) <==> Vanished(ids, row) {
      VanishedIsGone(ids, concepts, row);
    }
    GoneEntitiesAre(ids.conceptEntityID, concepts, prior, id);
    if forall row :: row in prior && row.conceptID == id && row.entityID != "" ==> !Vanished(ids, row) {
      GoneEntitiesOnly(ids.conceptEntityID, concepts, prior, id);
    }
  }

  lemma {:induction false} GoneEntitiesOnly(entity: map<string, string>, concepts: seq<Concept>, prior: seq<Row>, id: string)
    requires forall row :: row in prior && row.conceptID == id && row.entityID != "" ==> !Gone(concepts, row)
    ensures var after := WithGoneEntities(entity, concepts, prior);
            (id in after <==> id in entity) && Get(after, id) == Get(entity, id)
  {
    hide Gone;
    if prior != [] {
      var init, last := prior[..|prior| - 1], prior[|prior| - 1];
      assert prior == init + [last];
      GoneEntitiesOnly(entity, concepts, init, id);
    }
  }

  lemma {:induction false} PriorPageIs(prior: seq<Row>, n: nat, slug: string)
    ensures LastWith(prior, n, slug) ==> PriorPage(prior, slug) == prior[n].page
    ensures (forall k :: 0 <= k < |prior| ==> prior[k].slug != slug) ==> PriorPage(prior, slug) == []
    decreases |prior|
  {
    if prior != [] && prior[|prior| - 1].slug != slug {
      PriorPageIs(prior[..|prior| - 1], n, slug);
    }
  }

  /**
   * What is written are the pages of the dormant concepts, and nothing else: the page of the last prior concept
   * with that slug, if it had one, and otherwise the one in the wiki.
   */
  lemma WritesExactly(ids: IDMap, active: set<string>, concepts: seq<Concept>, prior: seq<Row>, pages: map<string, Bytes>,
                      plan: Plan, slug: string, data: Bytes)
    requires IsPlan(ids, active, concepts, prior, pages, plan)
    ensures forall w :: w in plan.writes ==> w.path.DormantPage?
    ensures Write(DormantPage(slug), data) in plan.writes <==>
              && slug in plan.ids.dormantConcept.Values
              && (|| (exists n: nat :: LastWith(prior, n, slug) && prior[n].page == data != [])
                  || ((forall n: nat :: LastWith(prior, n, slug) ==> prior[n].page == []) && slug in pages && pages[slug] == data))
  {
    hide NextIDs, DormantIDs, MovedAway, Revived, PriorPage;
    forall n: nat | LastWith(prior, n, slug) ensures PriorPage(prior, slug) == prior[n].page {
      PriorPageIs(prior, n, slug);
    }
    PriorPageIs(prior, 0, slug);
    if k :| 0 <= k < |prior| && prior[k].slug == slug {
      SomeLast(prior, slug);
    }
    if slug in plan.ids.dormantConcept.Values {
      var id :| id in plan.ids.dormantConcept && plan.ids.dormantConcept[id] == slug;
      assert HasPage(prior, pages, slug) && Write(DormantPage(slug), PageOf(prior, pages, slug)) in plan.writes;
    }
    if Write(DormantPage(slug), data) in plan.writes {
      assert WritesOf(plan.ids.dormantConcept, prior, pages, Write(DormantPage(slug), data));
    }
  }

  /** A page is missing, and the plan refused, exactly when the last prior concept with the slug has none and the wiki neither. */
  lemma MissingExactly(prior: seq<Row>, pages: map<string, Bytes>, slug: string)
    ensures !HasPage(prior, pages, slug) <==>
              (forall n: nat :: LastWith(prior, n, slug) ==> prior[n].page == []) && slug !in pages
  {
    hide PriorPage;
    forall n: nat | LastWith(prior, n, slug) ensures PriorPage(prior, slug) == prior[n].page {
      PriorPageIs(prior, n, slug);
    }
    PriorPageIs(prior, 0, slug);
    if k :| 0 <= k < |prior| && prior[k].slug == slug {
      SomeLast(prior, slug);
    }
  }

  lemma {:induction false} SomeLast(prior: seq<Row>, slug: string)
    requires exists k :: 0 <= k < |prior| && prior[k].slug == slug
    ensures exists n: nat :: LastWith(prior, n, slug)
  {
    var init, last := prior[..|prior| - 1], prior[|prior| - 1];
    if last.slug == slug {
      assert LastWith(prior, |init|, slug);
    } else {
      var k :| 0 <= k < |prior| && prior[k].slug == slug;
      assert init[k].slug == slug;
      SomeLast(init, slug);
      var n: nat :| LastWith(init, n, slug);
      assert LastWith(prior, n, slug);
    }
  }

  /**
   * Removed are the wiki pages of the dormant concepts, those left behind under a slug that no concept has any
   * more, and the dormant pages of concepts that are dormant no longer.
   */
  lemma RemovalsExactly(ids: IDMap, active: set<string>, concepts: seq<Concept>, prior: seq<Row>, pages: map<string, Bytes>,
                        plan: Plan, slug: string)
    requires Lists(concepts, ids) && IsPlan(ids, active, concepts, prior, pages, plan)
    ensures Page(slug) in plan.removals <==>
              || slug in plan.ids.dormantConcept.Values
              || (slug !in ids.concept.Values && exists row :: row in prior && row.slug == slug && row.conceptID in ids.concept)
    ensures DormantPage(slug) in plan.removals <==>
              exists row :: row in prior && row.dormant && row.slug == slug && row.conceptID !in plan.ids.dormantConcept
  {
    hide NextIDs, DormantIDs, HasPage, PageOf, WritesOf;
    LeftBehindExactly(ids, active, concepts, prior, pages, plan, slug);
    if n :| 0 <= n < |prior| && prior[n].dormant && prior[n].conceptID !in plan.ids.dormantConcept && prior[n].slug == slug {
      assert prior[n] in prior;
    }
    if row :| row in prior && row.dormant && row.slug == slug && row.conceptID !in plan.ids.dormantConcept {
      var n :| 0 <= n < |prior| && prior[n] == row;
      assert Revived(plan.ids.dormantConcept, prior, DormantPage(slug));
    }
  }

  lemma LeftBehindExactly(ids: IDMap, active: set<string>, concepts: seq<Concept>, prior: seq<Row>, pages: map<string, Bytes>,
                          plan: Plan, slug: string)
    requires Lists(concepts, ids) && IsPlan(ids, active, concepts, prior, pages, plan)
    ensures !MovedAway(ids, active, concepts, prior, DormantPage(slug))
    ensures MovedAway(ids, active, concepts, prior, Page(slug)) ==>
              || slug in plan.ids.dormantConcept.Values
              || (slug !in ids.concept.Values && exists row :: row in prior && row.slug == slug && row.conceptID in ids.concept)
    ensures slug !in ids.concept.Values && (exists row :: row in prior && row.slug == slug && row.conceptID in ids.concept) ==>
              MovedAway(ids, active, concepts, prior, Page(slug))
  {
    hide IsPlan, Inactive, Lists, Moved, Vanished;
    forall row | row in prior ensures Moved(concepts, row) <==> row.conceptID in ids.concept && row.slug !in ids.concept.Values {
      VanishedIsGone(ids, concepts, row);
    }
    if n :| 0 <= n < |prior| && LeftBehind(ids, active, concepts, prior[n], Page(slug)) {
      if slug != prior[n].slug {
        var i :| 0 <= i < |concepts| && Inactive(ids, active, concepts[i].stableID) && slug == concepts[i].slug;
        InactiveSlugSinks(ids, active, concepts, prior, pages, plan, i);
      }
    }
    if row :| row in prior && row.slug == slug && row.conceptID in ids.concept && slug !in ids.concept.Values {
      var n :| 0 <= n < |prior| && prior[n] == row;
      assert LeftBehind(ids, active, concepts, prior[n], Page(slug));
    }
  }

  lemma InactiveSlugSinks(ids: IDMap, active: set<string>, concepts: seq<Concept>, prior: seq<Row>, pages: map<string, Bytes>,
                          plan: Plan, i: nat)
    requires Lists(concepts, ids) && IsPlan(ids, active, concepts, prior, pages, plan)
    requires i < |concepts| && Inactive(ids, active, concepts[i].stableID)
    ensures concepts[i].slug in plan.ids.dormantConcept.Values
  {
    hide IsPlan;
    ActiveExactly(ids, active, concepts, prior, pages, plan, concepts[i].stableID);
  }

  /**
   * When every concept's entity is active and no prior slug is missing, nothing falls dormant, every slug
   * keeps its concept, and no live page goes.
   */
  lemma NothingSinks(ids: IDMap, active: set<string>, concepts: seq<Concept>, prior: seq<Row>, pages: map<string, Bytes>, plan: Plan)
    requires Lists(concepts, ids) && IsPlan(ids, active, concepts, prior, pages, plan)
    requires forall id :: id in ids.concept ==>
               id in ids.conceptEntityID && ids.conceptEntityID[id] != "" && ids.conceptEntityID[id] in active
    requires forall row :: row in prior ==> row.slug in ids.concept.Values
    ensures plan.dormant == {} && plan.ids.concept == ids.concept
    ensures plan.ids.dormantConcept == ids.dormantConcept - ids.concept.Keys
    ensures PriorOk(prior) && Carried(ids, prior) && SlugsStay(ids, prior) ==>
              plan.ids.dormantConcept == map[] && plan.writes == {} && forall path :: path in plan.removals ==> path.DormantPage?
  {
    hide IsPlan, Lists, PriorOk;
    forall id ensures id in plan.ids.concept <==> id in ids.concept {
      ActiveExactly(ids, active, concepts, prior, pages, plan, id);
    }
    forall id | id in ids.concept ensures id in plan.ids.concept && plan.ids.concept[id] == ids.concept[id] {
      ActiveExactly(ids, active, concepts, prior, pages, plan, id);
    }
    forall id ensures id in plan.ids.dormantConcept <==> id in ids.dormantConcept && id !in ids.concept
              ensures id in plan.ids.dormantConcept ==> plan.ids.dormantConcept[id] == ids.dormantConcept[id]
              ensures id !in plan.dormant
    {
      DormantExactly(ids, active, concepts, prior, pages, plan, id);
      NoneDormant(ids, active, concepts, prior, pages, plan, id);
    }
    if PriorOk(prior) && Carried(ids, prior) && SlugsStay(ids, prior) {
      assert plan.ids.dormantConcept == map[];
      forall w ensures w !in plan.writes {
        WritesExactly(ids, active, concepts, prior, pages, plan, w.path.slug, w.data);
      }
      forall path | path in plan.removals ensures path.DormantPage? {
        RemovalsExactly(ids, active, concepts, prior, pages, plan, path.slug);
      }
    }
  }

  lemma NoneDormant(ids: IDMap, active: set<string>, concepts: seq<Concept>, prior: seq<Row>, pages: map<string, Bytes>,
                    plan: Plan, id: string)
    requires Lists(concepts, ids) && IsPlan(ids, active, concepts, prior, pages, plan)
    requires forall c :: c in ids.concept ==> Supported(ids, active, c)
    requires forall row :: row in prior ==> row.slug in ids.concept.Values
    ensures id !in plan.dormant
  {
    hide NextIDs, DormantIDs, HasPage, PageOf, MovedAway, Revived, Lists;
    SinksAre(ids, active, concepts, prior, id);
  }
}

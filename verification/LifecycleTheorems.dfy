/** What a reconciliation and its lifecycle plan do to the identities of a project, run after run. */
module LifecycleTheorems {
  import opened Texts
  import opened ByteStrings
  import opened WikiIndex
  import opened ConceptReconcile
  import opened ConceptTheorems
  import opened ConceptLifecycle

  /** `concepts` lists the concepts of a reconciled map. */
  ghost predicate Lists(concepts: seq<Concept>, ids: IDMap) {
    && DistinctIDs(concepts)
    && (forall i :: 0 <= i < |concepts| ==>
          concepts[i].stableID in ids.concept && ids.concept[concepts[i].stableID] == concepts[i].slug)
    && (forall id :: id in ids.concept ==> id in StableIDs(concepts))
    && Injective(ids.concept)
  }

  method ListConcepts(ids: IDMap, prior: seq<Row>, requireEntity: bool, out: Reconciliation) returns (concepts: seq<Concept>)
    requires Succeeds(ids, prior, requireEntity, out)
    ensures Lists(concepts, out.ids)
  {
    hide Succeeds, Listing, Lists, Injective;
    SlugsAndIDsCorrespond(ids, prior, requireEntity, out);
    NamesOf(ids, prior, requireEntity, out);
    concepts := [];
    var todo := out.translated.Keys;
    ListingStart(out);
    while todo != {}
      invariant todo <= out.translated.Keys && Listing(out, todo, concepts)
    {
      var c :| c in todo;
      ListingStep(out, todo, concepts, c);
      concepts := concepts + [Concept(c, out.translated[c], out.ids.concept[out.translated[c]])];
      todo := todo - {c};
    }
    ListingDone(out, concepts);
  }

  ghost predicate Listing(out: Reconciliation, todo: set<string>, concepts: seq<Concept>) {
    && (forall c :: c in out.translated ==> out.translated[c] in out.ids.concept)
    && (forall i :: 0 <= i < |concepts| ==>
          && concepts[i].currentID in out.translated && concepts[i].currentID !in todo
          && concepts[i].stableID == out.translated[concepts[i].currentID]
          && out.ids.concept[concepts[i].stableID] == concepts[i].slug)
    && DistinctIDs(concepts)
    && (forall c :: c in out.translated && c !in todo ==> out.translated[c] in StableIDs(concepts))
  }

  lemma ListingStart(out: Reconciliation)
    requires forall c :: c in out.translated ==> out.translated[c] in out.ids.concept
    ensures Listing(out, out.translated.Keys, [])
  {
  }

  lemma ListingStep(out: Reconciliation, todo: set<string>, concepts: seq<Concept>, c: string)
    requires Listing(out, todo, concepts) && Injective(out.translated) && c in todo && todo <= out.translated.Keys
    ensures Listing(out, todo - {c}, concepts + [Concept(c, out.translated[c], out.ids.concept[out.translated[c]])])
  {
    var last := Concept(c, out.translated[c], out.ids.concept[out.translated[c]]);
    var all := concepts + [last];
    assert StableIDs(all) == StableIDs(concepts) + {last.stableID} by {
      assert all[|concepts|] == last;
      assert forall i :: 0 <= i < |concepts| ==> all[i] == concepts[i];
    }
    forall i, j | 0 <= i < j < |all| ensures all[i].stableID != all[j].stableID {
    }
  }

  lemma ListingDone(out: Reconciliation, concepts: seq<Concept>)
    requires Listing(out, {}, concepts) && Injective(out.ids.concept)
    requires forall s :: s in out.ids.concept ==> s in out.translated.Values
    ensures Lists(concepts, out.ids)
  {
  }

  lemma NamesOf(ids: IDMap, prior: seq<Row>, requireEntity: bool, out: Reconciliation)
    requires Succeeds(ids, prior, requireEntity, out)
    ensures out.translated.Keys == ids.concept.Keys && Injective(out.translated)
    ensures forall c :: c in out.translated ==> out.translated[c] in out.ids.concept
    ensures forall s :: s in out.ids.concept ==> s in out.translated.Values
  {
    hide StableID, ConceptFits, PriorOk, EntityMapOk, RedirectsFit, Rekeyed, Flat, NextEntity;
    forall s | s in out.ids.concept ensures s in out.translated.Values {
      var c :| c in ids.concept && StableID(prior, ids, c) == s;
      assert out.translated[c] == s;
    }
  }

  lemma ListedNames(concepts: seq<Concept>, ids: IDMap)
    requires Lists(concepts, ids)
    ensures StableIDs(concepts) == ids.concept.Keys
    ensures Slugs(concepts) == ids.concept.Values
  {
    forall s | s in ids.concept.Values ensures s in Slugs(concepts) {
      var id :| id in ids.concept && ids.concept[id] == s;
      var i :| 0 <= i < |concepts| && concepts[i].stableID == id;
    }
  }

  // ---- Gone concepts ----

  lemma {:induction false} GoneAre(concepts: seq<Concept>, prior: seq<Row>, id: string)
    ensures id in GoneSlugs(concepts, prior) ==>
              exists row :: row in prior && Gone(concepts, row) && row.conceptID == id && row.slug == GoneSlugs(concepts, prior)[id]
    ensures (exists row :: row in prior && Gone(concepts, row) && row.conceptID == id) ==> id in GoneSlugs(concepts, prior)
  {
    hide Gone;
    if prior != [] {
      var init, last := prior[..|prior| - 1], prior[|prior| - 1];
      GoneAre(concepts, init, id);
      assert prior == init + [last];
    }
  }

  lemma {:induction false} GoneEntitiesAre(entity: map<string, string>, concepts: seq<Concept>, prior: seq<Row>, id: string)
    ensures var after := WithGoneEntities(entity, concepts, prior);
            || Get(after, id) == Get(entity, id)
            || exists row :: row in prior && Gone(concepts, row) && row.conceptID == id && row.entityID == Get(after, id)
    ensures forall row :: row in prior && Gone(concepts, row) && row.conceptID == id && row.entityID != "" ==>
              id in WithGoneEntities(entity, concepts, prior)
              && exists r :: r in prior && r.conceptID == id && r.entityID == WithGoneEntities(entity, concepts, prior)[id]
  {
    hide Gone;
    if prior != [] {
      var init, last := prior[..|prior| - 1], prior[|prior| - 1];
      GoneEntitiesAre(entity, concepts, init, id);
      assert prior == init + [last];
    }
  }

  // ---- One plan ----

  /** No concept is both active and dormant, and none of the prior ones is forgotten unless its slug went to another. */
  lemma NobodyIsForgotten(ids: IDMap, active: set<string>, concepts: seq<Concept>, prior: seq<Row>, row: Row)
    requires Lists(concepts, ids) && row in prior
    ensures var next := NextIDs(ids, active, concepts, prior);
            && next.concept.Keys !! next.dormantConcept.Keys
            && (|| row.conceptID in next.concept || row.conceptID in next.dormantConcept
                || exists id :: id in ids.concept && ids.concept[id] == row.slug && id != row.conceptID)
  {
    ListedNames(concepts, ids);
    GoneAre(concepts, prior, row.conceptID);
    if row.conceptID !in ids.concept && row.slug in ids.concept.Values {
      var id :| id in ids.concept && ids.concept[id] == row.slug;
    }
  }

  /** No slug passes from a prior concept to another identity. */
  ghost predicate SlugsStay(ids: IDMap, prior: seq<Row>) {
    forall row, id :: row in prior && id in ids.concept && ids.concept[id] == row.slug ==> id == row.conceptID
  }

  /** The dormant concepts in the generated map are carried over from before. */
  ghost predicate Carried(ids: IDMap, prior: seq<Row>) {
    forall id :: id in ids.dormantConcept ==>
      exists row :: row in prior && row.conceptID == id && row.slug == ids.dormantConcept[id]
  }

  /** Where a dormant slug comes from. */
  lemma DormantSlug(ids: IDMap, active: set<string>, concepts: seq<Concept>, prior: seq<Row>, id: string)
    requires PriorOk(prior) && Lists(concepts, ids) && Carried(ids, prior)
    requires id in NextIDs(ids, active, concepts, prior).dormantConcept
    ensures var next := NextIDs(ids, active, concepts, prior);
            var slug := next.dormantConcept[id];
            && id !in next.concept
            && (|| (id in ids.concept && ids.concept[id] == slug && id !in next.concept)
                || (id !in ids.concept && exists row :: row in prior && row.conceptID == id && row.slug == slug))
  {
    hide PriorOk, Gone;
    GoneAre(concepts, prior, id);
  }

  /** While no slug changes identity, what is removed is neither a live concept's page nor a dormant page just written. */
  lemma RemovalsHitNothingLive(ids: IDMap, active: set<string>, concepts: seq<Concept>, prior: seq<Row>, pages: map<string, Bytes>,
                               plan: Plan, path: Path)
    requires PriorOk(prior) && Lists(concepts, ids) && Carried(ids, prior) && SlugsStay(ids, prior)
    requires IsPlan(ids, active, concepts, prior, pages, plan) && path in plan.removals
    ensures path.Page? ==> path.slug !in plan.ids.concept.Values
    ensures path.DormantPage? ==> forall w :: w in plan.writes ==> w.path != path
  {
    hide PriorOk, Gone, NextIDs, Carried, HasPage, PageOf;
    var dormant := plan.ids.dormantConcept;
    if path.Page? && path.slug in dormant.Values {
      var id :| id in dormant && dormant[id] == path.slug;
      LiveOrDormant(ids, active, concepts, prior, id, path.slug);
    } else if Revived(dormant, prior, path) {
      var n :| 0 <= n < |prior| && prior[n].conceptID !in dormant && path == DormantPage(prior[n].slug);
      if path.slug in dormant.Values {
        var id :| id in dormant && dormant[id] == path.slug;
        RevivedOrDormant(ids, active, concepts, prior, id, prior[n]);
      }
    } else {
      var n :| 0 <= n < |prior| && LeftBehind(ids, active, concepts, prior[n], path);
      LeftIsNotLive(ids, active, concepts, prior, prior[n], path);
    }
  }

  lemma LiveOrDormant(ids: IDMap, active: set<string>, concepts: seq<Concept>, prior: seq<Row>, id: string, slug: string)
    requires PriorOk(prior) && Lists(concepts, ids) && Carried(ids, prior) && SlugsStay(ids, prior)
    requires var next := NextIDs(ids, active, concepts, prior); id in next.dormantConcept && next.dormantConcept[id] == slug
    ensures slug !in NextIDs(ids, active, concepts, prior).concept.Values
  {
    hide PriorOk, Carried, GoneSlugs, Unsupported, Sunk, WithGoneEntities;
    DormantSlug(ids, active, concepts, prior, id);
  }

  lemma RevivedOrDormant(ids: IDMap, active: set<string>, concepts: seq<Concept>, prior: seq<Row>, id: string, row: Row)
    requires PriorOk(prior) && Lists(concepts, ids) && Carried(ids, prior) && SlugsStay(ids, prior) && row in prior
    requires var next := NextIDs(ids, active, concepts, prior); id in next.dormantConcept && next.dormantConcept[id] == row.slug
    ensures id == row.conceptID
  {
    hide PriorOk, Carried, GoneSlugs, Unsupported, Sunk, WithGoneEntities, StillActive, SlugIndex, IDIndex, EntityIndex;
    DormantSlug(ids, active, concepts, prior, id);
    RowsIndexed(prior, row);
    if id !in ids.concept {
      var r :| r in prior && r.conceptID == id && r.slug == row.slug;
      RowsIndexed(prior, r);
    }
  }

  lemma LeftIsNotLive(ids: IDMap, active: set<string>, concepts: seq<Concept>, prior: seq<Row>, row: Row, path: Path)
    requires Lists(concepts, ids) && LeftBehind(ids, active, concepts, row, path)
    ensures path.Page? && path.slug !in NextIDs(ids, active, concepts, prior).concept.Values
  {
    hide GoneSlugs, Sunk, WithGoneEntities;
    ListedNames(concepts, ids);
    if path != Page(row.slug) {
      var i :| 0 <= i < |concepts| && Inactive(ids, active, concepts[i].stableID) && path == Page(concepts[i].slug);
      assert concepts[i].stableID in Unsupported(ids, active, concepts);
    }
  }

  // ---- One run ----

  ghost predicate DistinctRows(prior: seq<Row>) {
    forall i, j :: 0 <= i < j < |prior| ==> prior[i].conceptID != prior[j].conceptID
  }

  lemma SameRow(prior: seq<Row>, a: Row, b: Row)
    requires DistinctRows(prior) && a in prior && b in prior && a.conceptID == b.conceptID
    ensures a == b
  {
  }

  /** The generated map gives the entity to none of its concepts. */
  ghost predicate Absent(gen: IDMap, entity: string) {
    forall c :: c in gen.concept ==> EntityOf(gen, c) != entity
  }

  /** The entity vanishes while its concept's slug goes to another. */
  ghost predicate Usurped(gen: IDMap, row: Row) {
    Absent(gen, row.entityID) && row.slug in gen.concept.Values
  }

  /** One entity-bound run, from the prior rows to the next identity map. */
  ghost predicate Runs(gen: IDMap, prior: seq<Row>, active: set<string>, out: Reconciliation, concepts: seq<Concept>, next: IDMap) {
    && Succeeds(gen, prior, true, out)
    && Lists(concepts, out.ids)
    && next == NextIDs(out.ids, active, concepts, prior)
  }

  lemma PresentKeepsID(gen: IDMap, prior: seq<Row>, out: Reconciliation, row: Row)
    requires Succeeds(gen, prior, true, out) && row in prior && row.entityID != "" && !Absent(gen, row.entityID)
    ensures row.conceptID in out.ids.concept && Get(out.ids.conceptEntityID, row.conceptID) == row.entityID
  {
    hide StableID, ConceptFits, EntityMapOk, RedirectsFit, Rekeyed, Flat, PriorOk, TrimSpace, EntityIndex;
    var c :| c in gen.concept && EntityOf(gen, c) == row.entityID;
    RowsIndexed(prior, row);
    EntityIsPlain(gen, c);
    EntityKeepsID(gen, prior, true, c);
    assert StableID(prior, gen, c) == row.conceptID;
  }

  lemma AbsentLosesID(gen: IDMap, prior: seq<Row>, out: Reconciliation, row: Row)
    requires Succeeds(gen, prior, true, out) && DistinctRows(prior)
    requires row in prior && row.entityID != "" && Absent(gen, row.entityID)
    ensures row.conceptID !in out.ids.concept && row.conceptID !in out.ids.conceptEntityID
  {
    hide StableID, ConceptFits, EntityMapOk, RedirectsFit, Rekeyed, Flat, PriorOk, EntityOf, NextEntity;
    if row.conceptID in out.ids.concept {
      var c := OwnerOf(gen, prior, true, out, row.conceptID);
      ReuseIsEarned(gen, prior, c, row);
      var r :| r in prior && r.conceptID == row.conceptID && (r.entityID == EntityOf(gen, c) || r.entityID == "");
      SameRow(prior, r, row);
    }
  }

  lemma SlugsKept(gen: IDMap, prior: seq<Row>, out: Reconciliation)
    requires Succeeds(gen, prior, true, out)
    ensures out.ids.concept.Values == gen.concept.Values
  {
    SlugsAndIDsCorrespond(gen, prior, true, out);
  }

  /** A bound entity keeps its ID through a run, active or dormant, exactly unless its slug is usurped. */
  lemma BindingSurvives(gen: IDMap, prior: seq<Row>, active: set<string>, out: Reconciliation, concepts: seq<Concept>, next: IDMap, row: Row)
    requires Runs(gen, prior, active, out, concepts, next) && DistinctRows(prior)
    requires row in prior && row.entityID != ""
    ensures Get(next.conceptEntityID, row.conceptID) == row.entityID <==> !Usurped(gen, row)
    ensures !Usurped(gen, row) ==> row.conceptID in next.concept || row.conceptID in next.dormantConcept
  {
    hide Succeeds, Absent, GoneSlugs, WithGoneEntities, Unsupported;
    var id := row.conceptID;
    GoneEntitiesAre(out.ids.conceptEntityID, concepts, prior, id);
    GoneAre(concepts, prior, id);
    ListedNames(concepts, out.ids);
    SlugsKept(gen, prior, out);
    if !Absent(gen, row.entityID) {
      PresentKeepsID(gen, prior, out, row);
    } else {
      AbsentLosesID(gen, prior, out, row);
      forall r | r in prior && r.conceptID == id ensures r == row {
        SameRow(prior, r, row);
      }
    }
  }

  // ---- Run after run ----

  /** What snapshotConcepts asks of an identity map before it returns its rows. */
  ghost predicate Readable(ids: IDMap) {
    && EntityMapOk(ids)
    && ids.concept.Keys !! ids.dormantConcept.Keys
    && (forall id :: id in ids.concept ==> ValidSourceID(id) && SafeConceptSlug(ids.concept[id]))
    && (forall id :: id in ids.dormantConcept ==> ValidSourceID(id) && SafeConceptSlug(ids.dormantConcept[id]))
    && Injective(ids.concept) && Injective(ids.dormantConcept)
    && ids.concept.Values !! ids.dormantConcept.Values
  }

  /** The row of an identity map for one of its concepts. */
  predicate RowOf(ids: IDMap, row: Row) {
    && row.entityID == Get(ids.conceptEntityID, row.conceptID)
    && (|| (row.conceptID in ids.concept && !row.dormant && row.slug == ids.concept[row.conceptID])
        || (row.conceptID in ids.dormantConcept && row.dormant && row.slug == ids.dormantConcept[row.conceptID]))
  }

  ghost predicate Snapshot(ids: IDMap, rows: seq<Row>) {
    && Readable(ids) && DistinctRows(rows)
    && (forall row :: row in rows ==> RowOf(ids, row))
    && (forall id :: id in ids.concept || id in ids.dormantConcept ==> exists row :: row in rows && row.conceptID == id)
  }

  /** Legacy rows may have been given an entity; nothing else is touched. */
  ghost predicate Augmented(rows: seq<Row>, rows': seq<Row>) {
    && |rows'| == |rows|
    && forall i :: 0 <= i < |rows| ==> rows'[i] == rows[i] || (rows[i].entityID == "" && rows'[i] == rows[i].(entityID := rows'[i].entityID))
  }

  /** The inputs and intermediate results of one run in a history. */
  datatype Turn = Turn(gen: IDMap, rows: seq<Row>, prior: seq<Row>, active: set<string>, out: Reconciliation, concepts: seq<Concept>)

  /** Each map is what the run before it made of its predecessor. */
  ghost predicate History(maps: seq<IDMap>, turns: seq<Turn>) {
    && |maps| == |turns| + 1
    && forall k :: 0 <= k < |turns| ==>
         && Snapshot(maps[k], turns[k].rows) && Augmented(turns[k].rows, turns[k].prior)
         && Runs(turns[k].gen, turns[k].prior, turns[k].active, turns[k].out, turns[k].concepts, maps[k + 1])
  }

  ghost predicate Bound(ids: IDMap, entity: string, id: string) {
    Get(ids.conceptEntityID, id) == entity && (id in ids.concept || id in ids.dormantConcept)
  }

  ghost predicate UsurpedIn(turn: Turn, id: string) {
    exists row :: row in turn.rows && row.conceptID == id && Usurped(turn.gen, row)
  }

  lemma TurnKeepsBinding(maps: seq<IDMap>, turns: seq<Turn>, k: nat, entity: string, id: string)
    requires History(maps, turns) && k < |turns| && entity != "" && Bound(maps[k], entity, id)
    ensures Bound(maps[k + 1], entity, id) <==> !UsurpedIn(turns[k], id)
  {
    hide Runs, Readable, Usurped;
    var turn := turns[k];
    var row :| row in turn.rows && row.conceptID == id;
    var i :| 0 <= i < |turn.rows| && turn.rows[i] == row;
    assert turn.prior[i] == row;
    forall a, b | 0 <= a < b < |turn.prior| ensures turn.prior[a].conceptID != turn.prior[b].conceptID {
      assert turn.rows[a].conceptID != turn.rows[b].conceptID;
    }
    BindingSurvives(turn.gen, turn.prior, turn.active, turn.out, turn.concepts, maps[k + 1], row);
    forall r | r in turn.rows && r.conceptID == id ensures r == row {
      SameRow(turn.rows, r, row);
    }
  }

  /** Over any number of runs: once bound, an entity stays bound to its ID for as long as its slug is not usurped. */
  lemma {:induction false} EntitiesKeepTheirIDs(maps: seq<IDMap>, turns: seq<Turn>, k: nat, n: nat, entity: string, id: string)
    requires History(maps, turns) && k <= n < |maps| && entity != "" && Bound(maps[k], entity, id)
    requires forall j :: k <= j < n ==> !UsurpedIn(turns[j], id)
    ensures Bound(maps[n], entity, id)
  {
    hide History, Bound, UsurpedIn;
    if k < n {
      EntitiesKeepTheirIDs(maps, turns, k, n - 1, entity, id);
      HistoryLength(maps, turns);
      TurnKeepsBinding(maps, turns, n - 1, entity, id);
    }
  }

  lemma HistoryLength(maps: seq<IDMap>, turns: seq<Turn>)
    requires History(maps, turns)
    ensures |maps| == |turns| + 1
  {
  }

  /** An index rebuild takes the dormant concepts over from the map before; the prior rows then have them. */
  lemma RebuiltMapsCarry(ids: IDMap, rows: seq<Row>, prior: seq<Row>, gen: IDMap)
    requires Snapshot(ids, rows) && Augmented(rows, prior) && gen.dormantConcept == ids.dormantConcept
    ensures Carried(gen, prior)
  {
    hide Readable;
    forall id | id in gen.dormantConcept
      ensures exists row :: row in prior && row.conceptID == id && row.slug == gen.dormantConcept[id]
    {
      var row :| row in rows && row.conceptID == id;
      var i :| 0 <= i < |rows| && rows[i] == row;
      DormantRow(ids, row);
      assert prior[i] in prior && prior[i].conceptID == id && prior[i].slug == row.slug;
    }
  }

  lemma DormantRow(ids: IDMap, row: Row)
    requires Readable(ids) && RowOf(ids, row) && row.conceptID in ids.dormantConcept
    ensures row.slug == ids.dormantConcept[row.conceptID]
  {
  }

  // ---- The next run can read what this one leaves ----

  lemma StableNamesAreSafe(gen: IDMap, prior: seq<Row>, out: Reconciliation, id: string)
    requires Succeeds(gen, prior, true, out) && id in out.ids.concept
    ensures ValidSourceID(id) && SafeConceptSlug(out.ids.concept[id])
  {
    hide Succeeds, ValidSourceID, SafeConceptSlug, StableID, EntityOf;
    var c := OwnerOf(gen, prior, true, out, id);
  }

  /** Whose entity an entry of the new entity map is. */
  lemma EntityOrigin(gen: IDMap, prior: seq<Row>, active: set<string>, out: Reconciliation, concepts: seq<Concept>, next: IDMap, id: string)
    requires Runs(gen, prior, active, out, concepts, next) && id in next.conceptEntityID
    ensures || (id in out.ids.concept && id in out.ids.conceptEntityID && next.conceptEntityID[id] == out.ids.conceptEntityID[id])
            || (id !in out.ids.concept && id in next.dormantConcept
                && exists row :: row in prior && row.conceptID == id && row.entityID == next.conceptEntityID[id] != "")
  {
    hide Succeeds, GoneSlugs, WithGoneEntities, Unsupported;
    ListedNames(concepts, out.ids);
    WithGoneEntitiesFrom(out.ids.conceptEntityID, concepts, prior, id);
    GoneAre(concepts, prior, id);
    if id in out.ids.conceptEntityID {
      BoundAreConcepts(gen, prior, true, out, id);
    }
  }

  lemma {:induction false} WithGoneEntitiesFrom(entity: map<string, string>, concepts: seq<Concept>, prior: seq<Row>, id: string)
    requires id in WithGoneEntities(entity, concepts, prior)
    ensures var after := WithGoneEntities(entity, concepts, prior);
            || (id in entity && after[id] == entity[id])
            || exists row :: row in prior && Gone(concepts, row) && row.conceptID == id && row.entityID == after[id] != ""
  {
    hide Gone;
    if prior != [] {
      var init, last := prior[..|prior| - 1], prior[|prior| - 1];
      assert prior == init + [last];
      if !(Gone(concepts, last) && last.entityID != "" && last.conceptID == id) {
        WithGoneEntitiesFrom(entity, concepts, init, id);
      }
    }
  }

  lemma EntityOwner(gen: IDMap, prior: seq<Row>, active: set<string>, out: Reconciliation, concepts: seq<Concept>, next: IDMap, id: string)
    requires Runs(gen, prior, active, out, concepts, next) && id in next.conceptEntityID
    ensures var e := next.conceptEntityID[id];
            && ValidSourceID(id) && ValidSyntoEntityID(e)
            && (id in out.ids.concept ==> id in out.ids.conceptEntityID && out.ids.conceptEntityID[id] == e)
            && (e in EntityIndex(prior) ==> EntityIndex(prior)[e] == id)
            && (id !in out.ids.concept ==> e in EntityIndex(prior) && id in next.dormantConcept)
  {
    hide Succeeds, ValidSourceID, ValidSyntoEntityID, EntityIndex, StableID, NextEntity, ConceptFits;
    EntityOrigin(gen, prior, active, out, concepts, next, id);
    SucceedsParts(gen, prior, true, out);
    if id in out.ids.concept {
      var c := OwnerOf(gen, prior, true, out, id);
      EntityMapStaysValid(gen, prior, true, out);
      if next.conceptEntityID[id] in EntityIndex(prior) {
        EntityKeepsID(gen, prior, true, c);
      }
    } else {
      var row :| row in prior && row.conceptID == id && row.entityID == next.conceptEntityID[id];
      RowsIndexed(prior, row);
    }
  }

  lemma NextEntityMapOk(gen: IDMap, prior: seq<Row>, active: set<string>, out: Reconciliation, concepts: seq<Concept>, next: IDMap)
    requires Runs(gen, prior, active, out, concepts, next)
    ensures EntityMapOk(next)
  {
    hide Runs, ValidSourceID, ValidSyntoEntityID, EntityIndex;
    NextCovers(gen, prior, active, out, concepts, next);
    forall id | id in next.conceptEntityID
      ensures ValidSourceID(id) && ValidSyntoEntityID(next.conceptEntityID[id]) && (id in next.concept || id in next.dormantConcept)
    {
      EntityOwner(gen, prior, active, out, concepts, next, id);
    }
    forall a, b | a in next.conceptEntityID && b in next.conceptEntityID && next.conceptEntityID[a] == next.conceptEntityID[b]
      ensures a == b
    {
      EntityOwner(gen, prior, active, out, concepts, next, a);
      EntityOwner(gen, prior, active, out, concepts, next, b);
      RunEntitiesApart(gen, prior, active, out, concepts, next);
    }
  }

  lemma NextCovers(gen: IDMap, prior: seq<Row>, active: set<string>, out: Reconciliation, concepts: seq<Concept>, next: IDMap)
    requires Runs(gen, prior, active, out, concepts, next)
    ensures forall id :: id in out.ids.concept ==> id in next.concept || id in next.dormantConcept
  {
    hide Succeeds, GoneSlugs, WithGoneEntities, Unsupported;
  }

  lemma RunEntitiesApart(gen: IDMap, prior: seq<Row>, active: set<string>, out: Reconciliation, concepts: seq<Concept>, next: IDMap)
    requires Runs(gen, prior, active, out, concepts, next)
    ensures Injective(out.ids.conceptEntityID)
  {
    hide Succeeds;
    EntityMapStaysValid(gen, prior, true, out);
  }

  /**
   * When no slug changes identity and dormant concepts are only carried over, the map that a run leaves is one that the
   * next run's snapshot accepts.
   */
  lemma NextMapIsReadable(gen: IDMap, prior: seq<Row>, active: set<string>, out: Reconciliation, concepts: seq<Concept>, next: IDMap)
    requires Runs(gen, prior, active, out, concepts, next)
    requires Carried(out.ids, prior) && SlugsStay(out.ids, prior)
    ensures Readable(next)
  {
    hide Succeeds, ValidSourceID, SafeConceptSlug, EntityMapOk, GoneSlugs, Unsupported, Sunk, WithGoneEntities, Lists, Carried,
         SlugsStay, PriorOk;
    NextEntityMapOk(gen, prior, active, out, concepts, next);
    RunPriorOk(gen, prior, active, out, concepts, next);
    forall id | id in next.concept ensures ValidSourceID(id) && SafeConceptSlug(next.concept[id]) {
      StableNamesAreSafe(gen, prior, out, id);
    }
    forall id | id in next.dormantConcept ensures ValidSourceID(id) && SafeConceptSlug(next.dormantConcept[id]) && id !in next.concept {
      DormantSlug(out.ids, active, concepts, prior, id);
      if id in out.ids.concept {
        StableNamesAreSafe(gen, prior, out, id);
      } else {
        var row :| row in prior && row.conceptID == id && row.slug == next.dormantConcept[id];
        RowsIndexed(prior, row);
      }
    }
    forall a, b | a in next.dormantConcept && b in next.dormantConcept && next.dormantConcept[a] == next.dormantConcept[b]
      ensures a == b
    {
      OneDormantEach(out.ids, active, concepts, prior, a, b);
    }
    forall slug | slug in next.dormantConcept.Values ensures slug !in next.concept.Values {
      var id :| id in next.dormantConcept && next.dormantConcept[id] == slug;
      LiveOrDormant(out.ids, active, concepts, prior, id, slug);
    }
    RunInjective(gen, prior, active, out, concepts, next);
  }

  lemma RunPriorOk(gen: IDMap, prior: seq<Row>, active: set<string>, out: Reconciliation, concepts: seq<Concept>, next: IDMap)
    requires Runs(gen, prior, active, out, concepts, next)
    ensures PriorOk(prior)
  {
    hide PriorOk, EntityMapOk, Translatable, RedirectsFit, IsReconciled, Flat, NextIDs, Lists;
  }

  lemma RunInjective(gen: IDMap, prior: seq<Row>, active: set<string>, out: Reconciliation, concepts: seq<Concept>, next: IDMap)
    requires Runs(gen, prior, active, out, concepts, next)
    ensures Injective(next.concept)
  {
    hide Succeeds, Unsupported, GoneSlugs;
  }

  lemma OneDormantEach(ids: IDMap, active: set<string>, concepts: seq<Concept>, prior: seq<Row>, a: string, b: string)
    requires PriorOk(prior) && Lists(concepts, ids) && Carried(ids, prior) && SlugsStay(ids, prior)
    requires var next := NextIDs(ids, active, concepts, prior);
             a in next.dormantConcept && b in next.dormantConcept && next.dormantConcept[a] == next.dormantConcept[b]
    ensures a == b
  {
    hide PriorOk, Carried, GoneSlugs, Unsupported, Sunk, WithGoneEntities, StillActive, NextIDs;
    var slug := NextIDs(ids, active, concepts, prior).dormantConcept[a];
    DormantSlug(ids, active, concepts, prior, a);
    DormantSlug(ids, active, concepts, prior, b);
    if b !in ids.concept {
      var row :| row in prior && row.conceptID == b && row.slug == slug;
      RevivedOrDormant(ids, active, concepts, prior, a, row);
    }
  }

  // ---- A slug that is usurped ----

  const FIRST: string := seq(26, i => '0')
  const SECOND: string := seq(26, i => '1')
  const LOST := Row("a", "s", FIRST, false, [], {}, map[])
  const SURVIVOR := Row("b", "t", SECOND, false, [], {}, map[])
  const TWO := [LOST, SURVIVOR]

  /** Only the second entity is generated again, under the slug of the first. */
  const TAKEN := IDMap(map["c" := "s"], map[], map["c" := SECOND], map[], map[], map[], map[])
  const TAKEN_OUT := Reconciliation(IDMap(map["b" := "s"], map[], map["b" := SECOND], map[], map[], map[], map[]), map["c" := "b"])

  lemma TakenNames()
    ensures ValidSyntoEntityID(FIRST) && ValidSyntoEntityID(SECOND) && FIRST != SECOND
    ensures SafeConceptSlug("s") && SafeConceptSlug("t")
  {
    assert FIRST[0] != SECOND[0];
  }

  lemma TakenLookups()
    ensures PriorOk(TWO)
    ensures SlugIndex(TWO) == map["s" := "a", "t" := "b"] && IDIndex(TWO) == map["a" := "s", "b" := "t"]
    ensures EntityIndex(TWO) == map[FIRST := "a", SECOND := "b"]
    ensures EntityBySlug(TWO) == map["s" := FIRST, "t" := SECOND]
  {
    hide ValidSyntoEntityID, SafeConceptSlug;
    TakenNames();
    LostLookups();
    assert TWO[..1] == [LOST] && TWO[..0] == [];
    assert RowFits([], LOST) && RowFits([LOST], SURVIVOR);
  }

  lemma LostLookups()
    ensures SlugIndex([LOST]) == map["s" := "a"] && IDIndex([LOST]) == map["a" := "s"]
    ensures EntityIndex([LOST]) == map[FIRST := "a"] && EntityBySlug([LOST]) == map["s" := FIRST]
  {
    var none: seq<Row> := [];
    assert [LOST][..0] == none;
    assert SlugIndex(none) == map[] && IDIndex(none) == map[] && EntityIndex(none) == map[] && EntityBySlug(none) == map[];
    assert FIRST != "" by {
      assert |FIRST| == 26;
    }
  }

  lemma TakenFits()
    ensures EntityMapOk(TAKEN) && EntityOf(TAKEN, "c") == SECOND && StableID(TWO, TAKEN, "c") == "b"
    ensures Translatable(TWO, TAKEN, true) && Translation(TWO, TAKEN) == map["c" := "b"]
    ensures Renamed(TWO, TAKEN, TAKEN_OUT.ids.concept, TAKEN_OUT.ids.conceptEntityID)
  {
    hide ValidSyntoEntityID, SafeConceptSlug, SlugIndex, IDIndex, EntityIndex, EntityBySlug, PriorOk, TrimSpace;
    TakenNames();
    TakenLookups();
    EntityIDIsPlain(SECOND);
    assert StableID(TWO, TAKEN, "c") == "b";
  }

  lemma TakenRedirects(translated: map<string, string>)
    ensures RedirectsFit(TAKEN, translated)
    ensures Rekeyed(IDTargets(TAKEN, translated), translated, map[]) && Rekeyed(TAKEN.redirects, translated, map[])
  {
  }

  lemma TakenSucceeds()
    ensures Succeeds(TAKEN, TWO, true, TAKEN_OUT)
  {
    hide PriorOk, EntityMapOk, Translatable, Translation, Renamed, EntityOf, ValidSyntoEntityID, RedirectsFit, Rekeyed, IDTargets;
    TakenLookups();
    TakenFits();
    TakenRedirects(TAKEN_OUT.translated);
  }

  lemma TakenListed(concepts: seq<Concept>)
    requires concepts == [Concept("c", "b", "s")]
    ensures Lists(concepts, TAKEN_OUT.ids)
  {
    assert concepts[0].stableID in StableIDs(concepts);
  }

  /** There is a run in which a surviving concept takes over a vanished concept's slug: its entity is then forgotten. */
  lemma UsurpedEntityIsForgotten(active: set<string>, concepts: seq<Concept>)
    requires concepts == [Concept("c", "b", "s")]
    ensures Runs(TAKEN, TWO, active, TAKEN_OUT, concepts, NextIDs(TAKEN_OUT.ids, active, concepts, TWO))
    ensures Usurped(TAKEN, LOST)
    ensures Get(NextIDs(TAKEN_OUT.ids, active, concepts, TWO).conceptEntityID, "a") != FIRST
  {
    hide Succeeds, Lists, NextIDs, Usurped, DistinctRows, Get;
    TakenSucceeds();
    TakenListed(concepts);
    TakenIsUsurped();
    TakenNames();
    BindingSurvives(TAKEN, TWO, active, TAKEN_OUT, concepts, NextIDs(TAKEN_OUT.ids, active, concepts, TWO), LOST);
  }

  lemma TakenIsUsurped()
    ensures Usurped(TAKEN, LOST) && DistinctRows(TWO) && LOST in TWO && LOST.entityID != ""
  {
    hide EntityOf, ValidSyntoEntityID, DistinctRows, Translatable, Renamed, EntityMapOk;
    TakenFits();
    TakenNames();
    TwoAreDistinct();
    assert TAKEN.concept["c"] == "s";
    assert TWO[0] == LOST;
  }

  lemma TwoAreDistinct()
    ensures DistinctRows(TWO) && LOST.entityID != ""
  {
    assert TWO[0].conceptID == "a" && TWO[1].conceptID == "b";
    assert |FIRST| == 26;
  }
}

/** Moving concepts between active and dormant (cmd/olw_worker/concept_reconcile.go). */
module ConceptLifecycle {
  import opened Options
  import opened ByteStrings
  import opened WikiIndex
  import opened ConceptReconcile

  /** A reconciled concept. */
  datatype Concept = Concept(currentID: string, stableID: string, slug: string)

  /** "wiki/{slug}.md" and "wiki/.dormant/{slug}.md". */
  datatype Path = Page(slug: string) | DormantPage(slug: string)

  datatype Write = Write(path: Path, data: Bytes)

  datatype Plan = Plan(ids: IDMap, dormant: set<string>, writes: set<Write>, removals: set<Path>)

  // ---- Which concepts go dormant ----

  function Slugs(concepts: seq<Concept>): set<string> {
    set i | 0 <= i < |concepts| :: concepts[i].slug
  }

  function StableIDs(concepts: seq<Concept>): set<string> {
    set i | 0 <= i < |concepts| :: concepts[i].stableID
  }

  predicate Inactive(ids: IDMap, active: set<string>, id: string) {
    Get(ids.conceptEntityID, id) == "" || Get(ids.conceptEntityID, id) !in active
  }

  function Unsupported(ids: IDMap, active: set<string>, concepts: seq<Concept>): set<string> {
    set i | 0 <= i < |concepts| && Inactive(ids, active, concepts[i].stableID) :: concepts[i].stableID
  }

  /** Neither the slug nor the ID of `was` is there any more. */
  predicate Gone(concepts: seq<Concept>, was: Row) {
    was.slug !in Slugs(concepts) && was.conceptID !in StableIDs(concepts)
  }

  /** The ID of `was` lives on under another slug. */
  predicate Moved(concepts: seq<Concept>, was: Row) {
    was.slug !in Slugs(concepts) && was.conceptID in StableIDs(concepts)
  }

  function GoneSlugs(concepts: seq<Concept>, prior: seq<Row>): map<string, string> {
    if prior == [] then map[]
    else
      var last := prior[|prior| - 1];
      var before := GoneSlugs(concepts, prior[..|prior| - 1]);
      if Gone(concepts, last) then before[last.conceptID := last.slug] else before
  }

  function WithGoneEntities(entity: map<string, string>, concepts: seq<Concept>, prior: seq<Row>): map<string, string> {
    if prior == [] then entity
    else
      var last := prior[|prior| - 1];
      var before := WithGoneEntities(entity, concepts, prior[..|prior| - 1]);
      if Gone(concepts, last) && last.entityID != "" then before[last.conceptID := last.entityID] else before
  }

  function DormantIDs(ids: IDMap, active: set<string>, concepts: seq<Concept>, prior: seq<Row>): set<string> {
    Unsupported(ids, active, concepts) + GoneSlugs(concepts, prior).Keys
  }

  function StillActive(ids: IDMap, dormant: set<string>): map<string, string> {
    map id | id in ids.concept && id !in dormant :: ids.concept[id]
  }

  /** Everything that was, is gone, or now falls dormant. */
  function Sunk(ids: IDMap, dormant: set<string>, gone: map<string, string>): map<string, string> {
    ids.dormantConcept + gone + map id | id in ids.concept && id in dormant :: ids.concept[id]
  }

  /** The identity map after the plan. */
  function NextIDs(ids: IDMap, active: set<string>, concepts: seq<Concept>, prior: seq<Row>): IDMap {
    var dormant := DormantIDs(ids, active, concepts, prior);
    ids.(concept := StillActive(ids, dormant),
         dormantConcept := Sunk(ids, dormant, GoneSlugs(concepts, prior)) - StillActive(ids, dormant).Keys,
         conceptEntityID := WithGoneEntities(ids.conceptEntityID, concepts, prior))
  }

  // ---- Files ----

  function PriorPage(prior: seq<Row>, slug: string): Bytes {
    if prior == [] then []
    else if prior[|prior| - 1].slug == slug then prior[|prior| - 1].page
    else PriorPage(prior[..|prior| - 1], slug)
  }

  predicate HasPage(prior: seq<Row>, pages: map<string, Bytes>, slug: string) {
    PriorPage(prior, slug) != [] || slug in pages
  }

  function PageOf(prior: seq<Row>, pages: map<string, Bytes>, slug: string): Bytes
    requires HasPage(prior, pages, slug)
  {
    if PriorPage(prior, slug) != [] then PriorPage(prior, slug) else pages[slug]
  }

  /** The pages that one prior concept leaves behind. */
  ghost predicate LeftBehind(ids: IDMap, active: set<string>, concepts: seq<Concept>, was: Row, path: Path) {
    Moved(concepts, was)
    && (path == Page(was.slug)
        || exists i :: 0 <= i < |concepts| && concepts[i].stableID == was.conceptID
             && Inactive(ids, active, concepts[i].stableID) && path == Page(concepts[i].slug))
  }

  ghost predicate MovedAway(ids: IDMap, active: set<string>, concepts: seq<Concept>, prior: seq<Row>, path: Path) {
    exists n :: 0 <= n < |prior| && LeftBehind(ids, active, concepts, prior[n], path)
  }

  ghost predicate Revived(dormant: map<string, string>, prior: seq<Row>, path: Path) {
    exists n :: 0 <= n < |prior| && prior[n].dormant && prior[n].conceptID !in dormant && path == DormantPage(prior[n].slug)
  }

  /** A write that keeps the page of a dormant concept. */
  predicate WritesOf(dormant: map<string, string>, prior: seq<Row>, pages: map<string, Bytes>, w: Write) {
    && w.path.DormantPage? && w.path.slug in dormant.Values
    && HasPage(prior, pages, w.path.slug) && w.data == PageOf(prior, pages, w.path.slug)
  }

  ghost predicate IsPlan(ids: IDMap, active: set<string>, concepts: seq<Concept>, prior: seq<Row>, pages: map<string, Bytes>, plan: Plan) {
    && plan.ids == NextIDs(ids, active, concepts, prior)
    && plan.dormant == DormantIDs(ids, active, concepts, prior)
    && var dormant := plan.ids.dormantConcept;
       && (forall id :: id in dormant ==>
             && HasPage(prior, pages, dormant[id])
             && Write(DormantPage(dormant[id]), PageOf(prior, pages, dormant[id])) in plan.writes)
       && (forall w :: w in plan.writes ==> WritesOf(dormant, prior, pages, w))
       && (forall path :: path in plan.removals <==>
             || (path.Page? && path.slug in dormant.Values)
             || MovedAway(ids, active, concepts, prior, path)
             || Revived(dormant, prior, path))
  }

  // ---- The planner's loops ----

  method FindUnsupported(ids: IDMap, active: set<string>, concepts: seq<Concept>) returns (dormant: set<string>, slugs: set<string>)
    ensures dormant == Unsupported(ids, active, concepts) && slugs == Slugs(concepts)
  {
    dormant, slugs := {}, {};
    for n := 0 to |concepts|
      invariant dormant == Unsupported(ids, active, concepts[..n]) && slugs == Slugs(concepts[..n])
    {
      var concept := concepts[n];
      slugs := slugs + {concept.slug};
      if Inactive(ids, active, concept.stableID) {
        dormant := dormant + {concept.stableID};
      }
      assert concepts[..n + 1] == concepts[..n] + [concept];
      UnsupportedSnoc(ids, active, concepts[..n], concept);
    }
    assert concepts[..|concepts|] == concepts;
  }

  lemma UnsupportedSnoc(ids: IDMap, active: set<string>, concepts: seq<Concept>, last: Concept)
    ensures Slugs(concepts + [last]) == Slugs(concepts) + {last.slug}
    ensures Unsupported(ids, active, concepts + [last])
            == Unsupported(ids, active, concepts) + if Inactive(ids, active, last.stableID) then {last.stableID} else {}
  {
    var all := concepts + [last];
    assert all[|concepts|] == last;
    assert forall i :: 0 <= i < |concepts| ==> all[i] == concepts[i];
  }

  /** The concept that carries on an old ID, if any. */
  method FindByID(concepts: seq<Concept>, id: string) returns (found: Option<Concept>)
    ensures found == None <==> id !in StableIDs(concepts)
    ensures found != None ==> found.value in concepts && found.value.stableID == id
  {
    for n := 0 to |concepts|
      invariant forall i :: 0 <= i < n ==> concepts[i].stableID != id
    {
      if concepts[n].stableID == id {
        return Some(concepts[n]);
      }
    }
    found := None;
  }

  predicate DistinctIDs(concepts: seq<Concept>) {
    forall i, j :: 0 <= i < j < |concepts| ==> concepts[i].stableID != concepts[j].stableID
  }

  /** The prior concepts that are gone stay as dormant ones; those that moved leave their old page behind. */
  method KeepGone(ids: IDMap, active: set<string>, concepts: seq<Concept>, slugs: set<string>, unsupported: set<string>, prior: seq<Row>)
    returns (gone: map<string, string>, entity: map<string, string>, removals: set<Path>)
    requires slugs == Slugs(concepts) && unsupported == Unsupported(ids, active, concepts) && DistinctIDs(concepts)
    ensures gone == GoneSlugs(concepts, prior)
    ensures entity == WithGoneEntities(ids.conceptEntityID, concepts, prior)
    ensures forall path :: path in removals <==> MovedAway(ids, active, concepts, prior, path)
  {
    gone, entity, removals := map[], ids.conceptEntityID, {};
    for n := 0 to |prior|
      invariant gone == GoneSlugs(concepts, prior[..n])
      invariant entity == WithGoneEntities(ids.conceptEntityID, concepts, prior[..n])
      invariant forall path :: path in removals <==> MovedAway(ids, active, concepts, prior[..n], path)
    {
      var was := prior[n];
      assert prior[..n + 1] == prior[..n] + [was];
      assert prior[..n + 1][..n] == prior[..n];
      MovedSnoc(ids, active, concepts, prior[..n], was);
      if was.slug !in slugs {
        var current := FindByID(concepts, was.conceptID);
        if current != None {
          if current.value.stableID in unsupported {
            removals := removals + {Page(current.value.slug)};
          }
          removals := removals + {Page(was.slug)};
          MovedOnce(ids, active, concepts, was, current.value);
        } else {
          gone := gone[was.conceptID := was.slug];
          if was.entityID != "" {
            entity := entity[was.conceptID := was.entityID];
          }
        }
      }
    }
    assert prior[..|prior|] == prior;
  }

  lemma MovedSnoc(ids: IDMap, active: set<string>, concepts: seq<Concept>, prior: seq<Row>, last: Row)
    ensures forall path :: MovedAway(ids, active, concepts, prior + [last], path)
                           <==> MovedAway(ids, active, concepts, prior, path) || LeftBehind(ids, active, concepts, last, path)
  {
    var all := prior + [last];
    forall path
      ensures MovedAway(ids, active, concepts, all, path)
              <==> MovedAway(ids, active, concepts, prior, path) || LeftBehind(ids, active, concepts, last, path)
    {
      if MovedAway(ids, active, concepts, prior, path) {
        var n :| 0 <= n < |prior| && LeftBehind(ids, active, concepts, prior[n], path);
        assert all[n] == prior[n];
      }
      if LeftBehind(ids, active, concepts, last, path) {
        assert all[|prior|] == last;
      }
    }
  }

  lemma MovedOnce(ids: IDMap, active: set<string>, concepts: seq<Concept>, was: Row, current: Concept)
    requires DistinctIDs(concepts) && current in concepts && current.stableID == was.conceptID
    requires was.slug !in Slugs(concepts)
    ensures Moved(concepts, was)
    ensures forall path :: LeftBehind(ids, active, concepts, was, path)
                           <==> path == Page(was.slug)
                                || (current.stableID in Unsupported(ids, active, concepts) && path == Page(current.slug))
  {
    var i :| 0 <= i < |concepts| && concepts[i] == current;
    forall j | 0 <= j < |concepts| && concepts[j].stableID == current.stableID ensures j == i {
    }
  }

  lemma PutLast(a: map<string, string>, b: map<string, string>, k: string, v: string)
    ensures (a + b)[k := v] == a + b[k := v]
  {
  }

  /** All concepts but `todo` have been sorted into those that stay and those that fall dormant. */
  ghost predicate Sorted(ids: IDMap, dormant: set<string>, todo: set<string>, concept: map<string, string>, fallen: map<string, string>) {
    && concept.Keys == ids.concept.Keys - (dormant - todo)
    && (forall id :: id in concept ==> concept[id] == ids.concept[id])
    && fallen.Keys == (ids.concept.Keys - todo) * dormant
    && (forall id :: id in fallen ==> fallen[id] == ids.concept[id])
  }

  lemma SortedNone(ids: IDMap, dormant: set<string>)
    ensures Sorted(ids, dormant, ids.concept.Keys, ids.concept, map[])
  {
  }

  lemma SortedStep(ids: IDMap, dormant: set<string>, todo: set<string>, concept: map<string, string>, fallen: map<string, string>, id: string)
    requires Sorted(ids, dormant, todo, concept, fallen) && id in todo && todo <= ids.concept.Keys
    ensures id in dormant ==> Sorted(ids, dormant, todo - {id}, concept - {id}, fallen[id := ids.concept[id]])
    ensures id !in dormant ==> Sorted(ids, dormant, todo - {id}, concept, fallen)
  {
  }

  lemma SortedAll(ids: IDMap, dormant: set<string>, concept: map<string, string>, fallen: map<string, string>)
    requires Sorted(ids, dormant, {}, concept, fallen)
    ensures concept == StillActive(ids, dormant)
    ensures fallen == map id | id in ids.concept && id in dormant :: ids.concept[id]
  {
  }

  method Sink(ids: IDMap, dormant: set<string>, gone: map<string, string>)
    returns (concept: map<string, string>, sunk: map<string, string>)
    ensures concept == StillActive(ids, dormant) && sunk == Sunk(ids, dormant, gone)
  {
    hide Sorted;
    concept, sunk := ids.concept, ids.dormantConcept + gone;
    ghost var fallen: map<string, string> := map[];
    var todo := ids.concept.Keys;
    SortedNone(ids, dormant);
    while todo != {}
      invariant todo <= ids.concept.Keys && Sorted(ids, dormant, todo, concept, fallen)
      invariant sunk == ids.dormantConcept + gone + fallen
    {
      var id :| id in todo;
      SortedStep(ids, dormant, todo, concept, fallen, id);
      if id in dormant {
        concept := concept - {id};
        PutLast(ids.dormantConcept + gone, fallen, id, ids.concept[id]);
        sunk := sunk[id := ids.concept[id]];
        fallen := fallen[id := ids.concept[id]];
      }
      todo := todo - {id};
    }
    SortedAll(ids, dormant, concept, fallen);
  }

  method Surface(sunk: map<string, string>, concept: map<string, string>) returns (dormantConcept: map<string, string>)
    ensures dormantConcept == sunk - concept.Keys
  {
    dormantConcept := sunk;
    var todo := sunk.Keys;
    while todo != {}
      invariant todo <= sunk.Keys
      invariant dormantConcept == sunk - (concept.Keys - todo)
    {
      var id :| id in todo;
      if id in concept {
        dormantConcept := dormantConcept - {id};
      }
      todo := todo - {id};
    }
  }

  method PlanWrites(dormant: map<string, string>, prior: seq<Row>, pages: map<string, Bytes>)
    returns (r: Option<set<Write>>, removals: set<Path>)
    ensures r.Some? <==> forall id :: id in dormant ==> HasPage(prior, pages, dormant[id])
    ensures r.Some? ==> forall id :: id in dormant ==>
              Write(DormantPage(dormant[id]), PageOf(prior, pages, dormant[id])) in r.value
    ensures r.Some? ==> forall w :: w in r.value ==> WritesOf(dormant, prior, pages, w)
    ensures r.Some? ==> forall path :: path in removals <==> path.Page? && path.slug in dormant.Values
  {
    var writes: set<Write> := {};
    removals := {};
    var todo := dormant.Keys;
    while todo != {}
      invariant todo <= dormant.Keys
      invariant forall id :: id in dormant && id !in todo ==>
        && HasPage(prior, pages, dormant[id])
        && Write(DormantPage(dormant[id]), PageOf(prior, pages, dormant[id])) in writes
        && Page(dormant[id]) in removals
      invariant forall w :: w in writes ==> WritesOf(dormant, prior, pages, w)
      invariant forall path :: path in removals ==> path.Page? && path.slug in dormant.Values
    {
      var id :| id in todo;
      var slug := dormant[id];
      var page := PriorPage(prior, slug);
      if |page| == 0 {
        if slug !in pages {
          return None, removals;
        }
        page := pages[slug];
      }
      writes := writes + {Write(DormantPage(slug), page)};
      removals := removals + {Page(slug)};
      todo := todo - {id};
    }
    r := Some(writes);
  }

  method PlanRevived(dormant: map<string, string>, prior: seq<Row>) returns (removals: set<Path>)
    ensures forall path :: path in removals <==> Revived(dormant, prior, path)
  {
    removals := {};
    for n := 0 to |prior|
      invariant forall path :: path in removals <==>
        exists k :: 0 <= k < n && prior[k].dormant && prior[k].conceptID !in dormant && path == DormantPage(prior[k].slug)
    {
      if prior[n].dormant && prior[n].conceptID !in dormant {
        removals := removals + {DormantPage(prior[n].slug)};
      }
    }
  }

  /** The plan, unless a page that has to go dormant cannot be found. */
  method PlanConceptLifecycle(ids: IDMap, active: set<string>, concepts: seq<Concept>, prior: seq<Row>, pages: map<string, Bytes>)
    returns (r: Option<Plan>)
    requires DistinctIDs(concepts)
    ensures r.Some? ==> IsPlan(ids, active, concepts, prior, pages, r.value)
    ensures r.None? <==>
              var dormant := NextIDs(ids, active, concepts, prior).dormantConcept;
              exists id :: id in dormant && !HasPage(prior, pages, dormant[id])
  {
    hide Unsupported, GoneSlugs, WithGoneEntities, StillActive, Sunk, HasPage, MovedAway, Revived, Slugs, DistinctIDs, PageOf;
    var unsupported, slugs := FindUnsupported(ids, active, concepts);
    var gone, entity, left := KeepGone(ids, active, concepts, slugs, unsupported, prior);
    var dormant := unsupported + gone.Keys;
    var concept, sunk := Sink(ids, dormant, gone);
    var dormantConcept := Surface(sunk, concept);
    var writes, replaced := PlanWrites(dormantConcept, prior, pages);
    if writes == None {
      return None;
    }
    var revived := PlanRevived(dormantConcept, prior);
    var next := ids.(concept := concept, dormantConcept := dormantConcept, conceptEntityID := entity);
    r := Some(Plan(next, dormant, writes.value, left + replaced + revived));
  }
}

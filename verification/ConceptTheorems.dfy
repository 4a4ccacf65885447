/** What a successful concept reconciliation guarantees. */
module ConceptTheorems {
  import opened Texts
  import opened ByteStrings
  import opened WikiIndex
  import opened ConceptReconcile

  // ---- The lookup tables say what the rows say ----

  ghost predicate RowIndexed(prior: seq<Row>, row: Row) {
    && row.slug in SlugIndex(prior) && SlugIndex(prior)[row.slug] == row.conceptID
    && row.conceptID in IDIndex(prior) && IDIndex(prior)[row.conceptID] == row.slug
    && (row.entityID != "" ==> row.entityID in EntityIndex(prior) && EntityIndex(prior)[row.entityID] == row.conceptID)
  }

  lemma PriorPrefix(prior: seq<Row>)
    requires PriorOk(prior) && prior != []
    ensures PriorOk(prior[..|prior| - 1]) && RowFits(prior[..|prior| - 1], prior[|prior| - 1])
  {
    hide RowFits;
    var init := prior[..|prior| - 1];
    forall n | 0 <= n < |init| ensures RowFits(init[..n], init[n]) {
      assert init[..n] == prior[..n];
    }
  }

  lemma {:induction false} RowsIndexed(prior: seq<Row>, row: Row)
    requires PriorOk(prior) && row in prior
    ensures RowIndexed(prior, row)
    ensures ValidSourceID(row.conceptID) && SafeConceptSlug(row.slug)
    ensures row.entityID != "" ==> ValidSyntoEntityID(row.entityID)
  {
    hide PriorOk, ValidSourceID, SafeConceptSlug, ValidSyntoEntityID;
    var init, last := prior[..|prior| - 1], prior[|prior| - 1];
    PriorPrefix(prior);
    if row != last {
      assert prior == init + [last];
      RowsIndexed(init, row);
    }
  }

  lemma {:induction false} IndexedSlug(prior: seq<Row>, slug: string)
    requires slug in SlugIndex(prior)
    ensures exists row :: row in prior && row.slug == slug && row.conceptID == SlugIndex(prior)[slug]
  {
    var init, last := prior[..|prior| - 1], prior[|prior| - 1];
    if last.slug != slug {
      IndexedSlug(init, slug);
    }
  }

  lemma {:induction false} IndexedID(prior: seq<Row>, id: string)
    requires id in IDIndex(prior)
    ensures exists row :: row in prior && row.conceptID == id && row.slug == IDIndex(prior)[id]
  {
    var init, last := prior[..|prior| - 1], prior[|prior| - 1];
    if last.conceptID != id {
      IndexedID(init, id);
    }
  }

  lemma {:induction false} IndexedEntity(prior: seq<Row>, entity: string)
    requires entity in EntityIndex(prior)
    ensures entity != "" && exists row :: row in prior && row.entityID == entity && row.conceptID == EntityIndex(prior)[entity]
  {
    var init, last := prior[..|prior| - 1], prior[|prior| - 1];
    if last.entityID != entity || entity == "" {
      IndexedEntity(init, entity);
    }
  }

  lemma {:induction false} IndexedEntityOfSlug(prior: seq<Row>, slug: string)
    requires slug in EntityBySlug(prior)
    ensures EntityBySlug(prior)[slug] != ""
    ensures exists row :: row in prior && row.slug == slug && row.entityID == EntityBySlug(prior)[slug]
  {
    var init, last := prior[..|prior| - 1], prior[|prior| - 1];
    if last.slug != slug || last.entityID == "" {
      IndexedEntityOfSlug(init, slug);
    }
  }

  lemma {:induction false} FirstRowOfID(prior: seq<Row>, id: string)
    requires exists row :: row in prior && row.conceptID == id
    ensures exists row :: row in prior && row.conceptID == id && row.entityID == EntityOfID(prior, id)
  {
    if prior[0].conceptID != id {
      FirstRowOfID(prior[1..], id);
    }
  }

  // ---- Names ----

  /** Slugs and stable IDs correspond one to one. */
  lemma SlugsAndIDsCorrespond(ids: IDMap, prior: seq<Row>, requireEntity: bool, out: Reconciliation)
    requires Succeeds(ids, prior, requireEntity, out)
    ensures Injective(out.ids.concept)
    ensures out.ids.concept.Values == ids.concept.Values
  {
    hide StableID, NextEntity, ConceptFits, PriorOk, EntityMapOk, RedirectsFit, Rekeyed, Flat;
    var concept := out.ids.concept;
    forall a, b | a in concept && b in concept && concept[a] == concept[b] ensures a == b {
      var c :| c in ids.concept && StableID(prior, ids, c) == a;
      var d :| d in ids.concept && StableID(prior, ids, d) == b;
    }
    forall s | s in concept.Values ensures s in ids.concept.Values {
      var a :| a in concept && concept[a] == s;
      var c :| c in ids.concept && StableID(prior, ids, c) == a;
    }
    forall s | s in ids.concept.Values ensures s in concept.Values {
      var c :| c in ids.concept && ids.concept[c] == s;
      assert concept[StableID(prior, ids, c)] == s;
    }
  }

  /** In an entity-bound run a prior ID goes only to its own entity, or from an unbound concept to its slug's heir. */
  lemma PriorIDsAreNotReused(ids: IDMap, prior: seq<Row>, out: Reconciliation, c: string, row: Row)
    requires Succeeds(ids, prior, true, out) && c in ids.concept
    requires row in prior && row.conceptID == StableID(prior, ids, c)
    ensures out.translated[c] == row.conceptID
    ensures exists r :: r in prior && r.conceptID == out.translated[c]
              && (r.entityID == EntityOf(ids, c) || (r.entityID == "" && r.slug == ids.concept[c]))
  {
    hide StableID, ConceptFits, EntityMapOk, RedirectsFit, Renamed, Rekeyed, Flat, PriorOk;
    assert ConceptFits(prior, ids, true, c);
    ReuseIsEarned(ids, prior, c, row);
  }

  lemma ReuseIsEarned(ids: IDMap, prior: seq<Row>, c: string, row: Row)
    requires PriorOk(prior) && c in ids.concept && ConceptFits(prior, ids, true, c)
    requires row in prior && row.conceptID == StableID(prior, ids, c)
    ensures exists r :: r in prior && r.conceptID == row.conceptID
              && (r.entityID == EntityOf(ids, c) || (r.entityID == "" && r.slug == ids.concept[c]))
  {
    hide PriorOk, EntityOf, TrimSpace, SafeConceptSlug, ValidSyntoEntityID, SlugIndex, EntityIndex, IDIndex, EntityOfID;
    var stable, slug, entity := row.conceptID, ids.concept[c], EntityOf(ids, c);
    RowsIndexed(prior, row);
    if entity in EntityIndex(prior) && EntityIndex(prior)[entity] == stable {
      IndexedEntity(prior, entity);
    } else {
      if entity in EntityIndex(prior) {
        IndexedEntity(prior, entity);
      }
      assert slug in SlugIndex(prior) && SlugIndex(prior)[slug] == stable;
      FirstRowOfID(prior, stable);
      var r :| r in prior && r.conceptID == stable && r.entityID == EntityOfID(prior, stable);
      RowsIndexed(prior, r);
      assert r.slug == IDIndex(prior)[stable];
      IndexedSlug(prior, slug);
      var r' :| r' in prior && r'.slug == slug && r'.conceptID == SlugIndex(prior)[slug];
      RowsIndexed(prior, r');
    }
  }

  // ---- The entity map holds again ----

  lemma EntityIsPlain(ids: IDMap, c: string)
    requires EntityMapOk(ids)
    ensures EntityOf(ids, c) == Get(ids.conceptEntityID, c)
  {
    if c in ids.conceptEntityID {
      EntityIDIsPlain(ids.conceptEntityID[c]);
    }
  }

  /** Whoever ends up with an entity known before has the ID that the entity had. */
  lemma EntityKeepsID(ids: IDMap, prior: seq<Row>, requireEntity: bool, c: string)
    requires PriorOk(prior) && EntityMapOk(ids) && c in ids.concept && ConceptFits(prior, ids, requireEntity, c)
    requires NextEntity(prior, ids, c) in EntityIndex(prior)
    ensures StableID(prior, ids, c) == EntityIndex(prior)[NextEntity(prior, ids, c)]
    ensures ValidSyntoEntityID(NextEntity(prior, ids, c))
  {
    EntityIsPlain(ids, c);
    IndexedEntity(prior, NextEntity(prior, ids, c));
    if Get(ids.conceptEntityID, c) == "" {
      IndexedEntityOfSlug(prior, ids.concept[c]);
      var row :| row in prior && row.slug == ids.concept[c] && row.entityID == NextEntity(prior, ids, c);
      RowsIndexed(prior, row);
    }
  }

  lemma NextEntityKnown(ids: IDMap, prior: seq<Row>, requireEntity: bool, c: string)
    requires PriorOk(prior) && EntityMapOk(ids) && c in ids.concept && ConceptFits(prior, ids, requireEntity, c)
    ensures var e := NextEntity(prior, ids, c);
            e == "" || (ValidSyntoEntityID(e) && (e in EntityIndex(prior) || e == Get(ids.conceptEntityID, c)))
  {
    EntityIsPlain(ids, c);
    var e := NextEntity(prior, ids, c);
    if e != "" && Get(ids.conceptEntityID, c) == "" {
      IndexedEntityOfSlug(prior, ids.concept[c]);
      var row :| row in prior && row.slug == ids.concept[c] && row.entityID == e;
      RowsIndexed(prior, row);
    }
  }

  lemma EntitiesStayApart(ids: IDMap, prior: seq<Row>, requireEntity: bool, c: string, d: string)
    requires PriorOk(prior) && EntityMapOk(ids) && Translatable(prior, ids, requireEntity)
    requires c in ids.concept && d in ids.concept
    requires NextEntity(prior, ids, c) == NextEntity(prior, ids, d) != ""
    ensures c == d
  {
    hide ConceptFits, PriorOk, StableID, NextEntity;
    var e := NextEntity(prior, ids, c);
    NextEntityKnown(ids, prior, requireEntity, c);
    NextEntityKnown(ids, prior, requireEntity, d);
    if e in EntityIndex(prior) {
      EntityKeepsID(ids, prior, requireEntity, c);
      EntityKeepsID(ids, prior, requireEntity, d);
    }
  }

  lemma OwnerOf(ids: IDMap, prior: seq<Row>, requireEntity: bool, out: Reconciliation, s: string) returns (c: string)
    requires Succeeds(ids, prior, requireEntity, out) && s in out.ids.concept
    ensures c in ids.concept && StableID(prior, ids, c) == s && ConceptFits(prior, ids, requireEntity, c)
    ensures Get(out.ids.conceptEntityID, s) == NextEntity(prior, ids, c) && out.ids.concept[s] == ids.concept[c]
  {
    hide ConceptFits, StableID, NextEntity, Flat, RedirectsFit, Rekeyed, PriorOk, EntityMapOk;
    c :| c in ids.concept && StableID(prior, ids, c) == s;
  }

  lemma BoundAreConcepts(ids: IDMap, prior: seq<Row>, requireEntity: bool, out: Reconciliation, s: string)
    requires Succeeds(ids, prior, requireEntity, out) && s in out.ids.conceptEntityID
    ensures s in out.ids.concept && out.ids.conceptEntityID[s] != ""
  {
  }

  /** What comes out passes the entity-map validation that what went in had to pass. */
  lemma EntityMapStaysValid(ids: IDMap, prior: seq<Row>, requireEntity: bool, out: Reconciliation)
    requires Succeeds(ids, prior, requireEntity, out)
    ensures EntityMapOk(out.ids)
  {
    hide Succeeds, StableID, NextEntity, ValidSourceID, ValidSyntoEntityID;
    var entity := out.ids.conceptEntityID;
    SucceedsParts(ids, prior, requireEntity, out);
    forall s | s in entity ensures ValidSourceID(s) && ValidSyntoEntityID(entity[s]) && s in out.ids.concept {
      BoundAreConcepts(ids, prior, requireEntity, out, s);
      var c := OwnerOf(ids, prior, requireEntity, out, s);
      NextEntityKnown(ids, prior, requireEntity, c);
    }
    forall s, t | s in entity && t in entity && entity[s] == entity[t] ensures s == t {
      BoundAreConcepts(ids, prior, requireEntity, out, s);
      BoundAreConcepts(ids, prior, requireEntity, out, t);
      var c := OwnerOf(ids, prior, requireEntity, out, s);
      var d := OwnerOf(ids, prior, requireEntity, out, t);
      EntitiesStayApart(ids, prior, requireEntity, c, d);
    }
  }

  lemma SucceedsParts(ids: IDMap, prior: seq<Row>, requireEntity: bool, out: Reconciliation)
    requires Succeeds(ids, prior, requireEntity, out)
    ensures PriorOk(prior) && EntityMapOk(ids) && Translatable(prior, ids, requireEntity)
  {
    hide PriorOk, EntityMapOk, Translatable;
  }

  // ---- Redirects ----

  /** Following the redirects of the result from any source ends, after one hop, at a live concept. */
  lemma RedirectsAreFlat(ids: IDMap, prior: seq<Row>, requireEntity: bool, out: Reconciliation, source: string)
    requires Succeeds(ids, prior, requireEntity, out) && source in out.ids.idRedirects
    ensures source !in out.ids.concept
    ensures NormalizeTranslatedID(source, out.ids.idRedirects) == out.ids.idRedirects[source]
    ensures out.ids.idRedirects[source] in out.ids.concept
    ensures requireEntity ==> out.ids.idRedirects[source] in out.ids.conceptEntityID
  {
    hide IsReconciled, RedirectsFit, PriorOk, EntityMapOk, Translatable;
    var t := out.ids.idRedirects;
    assert t[source] !in t;
    assert Walk(t, source, |t| + 1) == Walk(t, t[source], |t|) == t[source];
  }

  // ---- Running it again ----

  predicate TargetsTrimmed(ids: IDMap) {
    forall from :: from in ids.idRedirects ==> TrimSpace(ids.idRedirects[from]) == ids.idRedirects[from]
  }

  lemma SameIDAgain(ids: IDMap, prior: seq<Row>, requireEntity: bool, out: Reconciliation, c: string, s: string)
    requires PriorOk(prior) && EntityMapOk(ids) && EntityMapOk(out.ids)
    requires c in ids.concept && ConceptFits(prior, ids, requireEntity, c) && s == StableID(prior, ids, c)
    requires s in out.ids.concept && out.ids.concept[s] == ids.concept[c]
    requires Get(out.ids.conceptEntityID, s) == NextEntity(prior, ids, c)
    ensures StableID(prior, out.ids, s) == s
    ensures ConceptFits(prior, out.ids, requireEntity, s)
    ensures NextEntity(prior, out.ids, s) == NextEntity(prior, ids, c)
  {
    hide PriorOk, EntityMapOk, EntityOf, TrimSpace, SafeConceptSlug, ValidSyntoEntityID, SlugIndex, EntityIndex, IDIndex,
         EntityOfID, EntityBySlug;
    EntityIsPlain(ids, c);
    EntityIsPlain(out.ids, s);
    NextEntityKnown(ids, prior, requireEntity, c);
    if NextEntity(prior, ids, c) in EntityIndex(prior) {
      EntityKeepsID(ids, prior, requireEntity, c);
    }
    if EntityOf(ids, c) in EntityIndex(prior) {
      IndexedEntity(prior, EntityOf(ids, c));
    }
    if "" in EntityIndex(prior) {
      IndexedEntity(prior, "");
    }
  }

  lemma IdentityTranslation(prior: seq<Row>, ids: IDMap, id: string)
    requires forall s :: s in ids.concept ==> StableID(prior, ids, s) == s
    ensures NormalizeTranslatedID(id, Translation(prior, ids)) == id
  {
    hide StableID;
  }

  lemma StableAgain(ids: IDMap, prior: seq<Row>, requireEntity: bool, out: Reconciliation, s: string)
    requires Succeeds(ids, prior, requireEntity, out) && EntityMapOk(out.ids) && s in out.ids.concept
    ensures StableID(prior, out.ids, s) == s && ConceptFits(prior, out.ids, requireEntity, s)
    ensures NextEntity(prior, out.ids, s) == Get(out.ids.conceptEntityID, s)
  {
    hide Succeeds, ConceptFits, StableID, NextEntity, EntityMapOk, PriorOk, Translatable;
    var c := OwnerOf(ids, prior, requireEntity, out, s);
    SucceedsParts(ids, prior, requireEntity, out);
    SameIDAgain(ids, prior, requireEntity, out, c, s);
  }

  /**
   * Reconciling the result once more with the same prior rows changes nothing at all, exactly when no redirect target
   * carries outer white space, which the second run would trim.
   */
  lemma ReconcilingAgainChangesNothing(ids: IDMap, prior: seq<Row>, requireEntity: bool, out: Reconciliation)
    requires Succeeds(ids, prior, requireEntity, out)
    ensures TargetsTrimmed(out.ids)
            <==> Succeeds(out.ids, prior, requireEntity, Reconciliation(out.ids, Translation(prior, out.ids)))
  {
    hide Succeeds, ConceptFits, StableID, NextEntity, EntityMapOk, PriorOk, TrimSpace, NormalizeTranslatedID, Flat;
    var o := out.ids;
    var again := Reconciliation(o, Translation(prior, o));
    EntityMapStaysValid(ids, prior, requireEntity, out);
    forall s | s in o.concept
      ensures StableID(prior, o, s) == s && ConceptFits(prior, o, requireEntity, s)
      ensures NextEntity(prior, o, s) == Get(o.conceptEntityID, s)
    {
      StableAgain(ids, prior, requireEntity, out, s);
    }
    forall id ensures NormalizeTranslatedID(id, again.translated) == id {
      IdentityTranslation(prior, o, id);
    }
    if TargetsTrimmed(o) {
      SlugsAndIDsCorrespond(ids, prior, requireEntity, out);
      RenamedAgain(ids, prior, requireEntity, out);
      TrimmedRedirectsFit(ids, prior, requireEntity, out, again);
      SucceedsTogether(ids, prior, requireEntity, out, again);
    }
    if Succeeds(o, prior, requireEntity, again) {
      RekeyedTargets(o, prior, requireEntity, again);
      RekeyedMeansTrimmed(o, again.translated);
    }
  }

  /** The same condition, read off the input of the first reconciliation. */
  lemma TrimmedBeforeOrAfter(ids: IDMap, prior: seq<Row>, requireEntity: bool, out: Reconciliation)
    requires Succeeds(ids, prior, requireEntity, out)
    ensures TargetsTrimmed(out.ids) <==>
              var targets := IDTargets(ids, Translation(prior, ids));
              forall from :: from in ids.idRedirects ==> TrimSpace(targets[from]) == targets[from]
  {
    hide TrimSpace, NormalizeTranslatedID, Translation, Renamed, Translatable, RedirectsFit, PriorOk, EntityMapOk, Flat;
    var targets := IDTargets(ids, out.translated);
    forall from | from in out.ids.idRedirects
      ensures exists a :: a in targets && NormalizeTranslatedID(a, out.translated) == from && targets[a] == out.ids.idRedirects[from]
    {
      var a :| a in targets && NormalizeTranslatedID(a, out.translated) == from;
    }
  }

  lemma RekeyedMeansTrimmed(ids: IDMap, translated: map<string, string>)
    requires forall id :: NormalizeTranslatedID(id, translated) == id
    requires Rekeyed(IDTargets(ids, translated), translated, ids.idRedirects)
    ensures TargetsTrimmed(ids)
  {
    hide TrimSpace, NormalizeTranslatedID;
    forall from | from in ids.idRedirects ensures TrimSpace(ids.idRedirects[from]) == ids.idRedirects[from] {
      assert from in IDTargets(ids, translated);
      assert NormalizeTranslatedID(from, translated) == from;
    }
  }

  lemma RekeyedTargets(ids: IDMap, prior: seq<Row>, requireEntity: bool, out: Reconciliation)
    requires Succeeds(ids, prior, requireEntity, out)
    ensures Rekeyed(IDTargets(ids, out.translated), out.translated, out.ids.idRedirects)
  {
    hide Rekeyed, Renamed, Translatable, RedirectsFit, PriorOk, EntityMapOk, Flat;
  }

  lemma RenamedAgain(ids: IDMap, prior: seq<Row>, requireEntity: bool, out: Reconciliation)
    requires Succeeds(ids, prior, requireEntity, out)
    requires forall s :: s in out.ids.concept ==>
               StableID(prior, out.ids, s) == s && NextEntity(prior, out.ids, s) == Get(out.ids.conceptEntityID, s)
    ensures Renamed(prior, out.ids, out.ids.concept, out.ids.conceptEntityID)
  {
    hide StableID, NextEntity, Translatable, RedirectsFit, PriorOk, EntityMapOk, Flat, Rekeyed;
    forall s | s in out.ids.concept ensures exists c :: c in out.ids.concept && StableID(prior, out.ids, c) == s {
      assert StableID(prior, out.ids, s) == s;
    }
  }

  lemma TrimmedRedirectsFit(ids: IDMap, prior: seq<Row>, requireEntity: bool, out: Reconciliation, again: Reconciliation)
    requires Succeeds(ids, prior, requireEntity, out) && again.ids == out.ids && TargetsTrimmed(out.ids)
    requires forall id :: NormalizeTranslatedID(id, again.translated) == id
    ensures RedirectsFit(out.ids, again.translated)
    ensures Rekeyed(IDTargets(out.ids, again.translated), again.translated, out.ids.idRedirects)
    ensures Rekeyed(out.ids.redirects, again.translated, out.ids.redirects)
  {
    hide NormalizeTranslatedID, Renamed, Translatable, PriorOk, EntityMapOk, Flat, Rekeyed, CollisionFree, IDRedirectFits,
         SlugRedirectFits, IDTargets;
    var o := out.ids;
    IDRedirectsFitAgain(ids, out, again.translated);
    SlugRedirectsFitAgain(ids, out, again.translated);
    RekeyedByIdentity(IDTargets(o, again.translated), again.translated);
    RekeyedByIdentity(o.redirects, again.translated);
  }

  lemma RekeyedByIdentity<V(!new)>(m: map<string, V>, translated: map<string, string>)
    requires forall id :: NormalizeTranslatedID(id, translated) == id
    ensures CollisionFree(m, translated) && Rekeyed(m, translated, m)
  {
    hide NormalizeTranslatedID;
    forall k | k in m ensures exists a :: a in m && NormalizeTranslatedID(a, translated) == k {
      assert NormalizeTranslatedID(k, translated) == k;
    }
  }

  lemma IDRedirectsFitAgain(ids: IDMap, out: Reconciliation, translated: map<string, string>)
    requires forall from :: from in ids.idRedirects ==> IDRedirectFits(ids, out.translated, from)
    requires Rekeyed(IDTargets(ids, out.translated), out.translated, out.ids.idRedirects)
    requires TargetsTrimmed(out.ids) && forall id :: NormalizeTranslatedID(id, translated) == id
    ensures forall from :: from in out.ids.idRedirects ==> IDRedirectFits(out.ids, translated, from)
    ensures IDTargets(out.ids, translated) == out.ids.idRedirects
  {
    hide NormalizeTranslatedID, TrimSpace, ValidSourceID;
    var o := out.ids;
    forall from | from in o.idRedirects ensures IDRedirectFits(o, translated, from) {
      var a :| a in IDTargets(ids, out.translated) && NormalizeTranslatedID(a, out.translated) == from;
      assert IDRedirectFits(ids, out.translated, a);
      NeverEmpty(o.idRedirects[from]);
    }
  }

  lemma SlugRedirectsFitAgain(ids: IDMap, out: Reconciliation, translated: map<string, string>)
    requires forall from :: from in ids.redirects ==> SlugRedirectFits(ids, out.translated, from)
    requires Rekeyed(ids.redirects, out.translated, out.ids.redirects)
    requires forall id :: NormalizeTranslatedID(id, translated) == id
    ensures forall from :: from in out.ids.redirects ==> SlugRedirectFits(out.ids, translated, from)
  {
    hide NormalizeTranslatedID, ValidSourceID, SafeConceptSlug;
    forall from | from in out.ids.redirects ensures SlugRedirectFits(out.ids, translated, from) {
      var a :| a in ids.redirects && NormalizeTranslatedID(a, out.translated) == from;
      assert SlugRedirectFits(ids, out.translated, a);
    }
  }

  lemma NeverEmpty(id: string)
    ensures ValidSourceID(id) ==> id != ""
  {
  }

  lemma SucceedsTogether(ids: IDMap, prior: seq<Row>, requireEntity: bool, out: Reconciliation, again: Reconciliation)
    requires Succeeds(ids, prior, requireEntity, out)
    requires again == Reconciliation(out.ids, Translation(prior, out.ids))
    requires EntityMapOk(out.ids) && Injective(out.ids.concept)
    requires forall s :: s in out.ids.concept ==> StableID(prior, out.ids, s) == s && ConceptFits(prior, out.ids, requireEntity, s)
    requires Renamed(prior, out.ids, out.ids.concept, out.ids.conceptEntityID)
    requires RedirectsFit(out.ids, again.translated)
    requires Rekeyed(IDTargets(out.ids, again.translated), again.translated, out.ids.idRedirects)
    requires Rekeyed(out.ids.redirects, again.translated, out.ids.redirects)
    ensures Succeeds(out.ids, prior, requireEntity, again)
  {
    hide PriorOk, EntityMapOk, ConceptFits, StableID, RedirectsFit, Renamed, Rekeyed, Flat;
  }

  // ---- A target that does not survive a second run ----

  const SPACED := " x"
  const SPACED_PRIOR := [Row(SPACED, "s", "", false, [], {}, map[])]
  const SPACED_IDS := IDMap(map["c" := "s"], map[], map[], map[], map[], map[], map["r" := "c"])
  const SPACED_OUT :=
    Reconciliation(IDMap(map[SPACED := "s"], map[], map[], map[], map[], map[], map["r" := SPACED]), map["c" := SPACED])

  lemma SpacedLookups()
    ensures SlugIndex(SPACED_PRIOR) == map["s" := SPACED] && IDIndex(SPACED_PRIOR) == map[SPACED := "s"]
    ensures EntityIndex(SPACED_PRIOR) == map[] && EntityBySlug(SPACED_PRIOR) == map[]
    ensures PriorOk(SPACED_PRIOR) && SafeConceptSlug("s")
    ensures TrimSpace("c") == "c" && TrimSpace("") == "" && TrimSpace(SPACED) == "x"
  {
    assert SPACED_PRIOR[..0] == [];
    assert " x"[1..] == "x";
  }

  lemma SpacedTranslation()
    ensures StableID(SPACED_PRIOR, SPACED_IDS, "c") == SPACED
    ensures Translation(SPACED_PRIOR, SPACED_IDS) == map["c" := SPACED]
    ensures NormalizeTranslatedID("c", map["c" := SPACED]) == SPACED
    ensures NormalizeTranslatedID("r", map["c" := SPACED]) == "r"
  {
    hide SlugIndex, IDIndex, EntityIndex, TrimSpace;
    SpacedLookups();
    var t := map["c" := SPACED];
    assert Walk(t, "c", 2) == Walk(t, SPACED, 1) == SPACED;
  }

  lemma SpacedNames()
    ensures Translatable(SPACED_PRIOR, SPACED_IDS, false)
    ensures Renamed(SPACED_PRIOR, SPACED_IDS, SPACED_OUT.ids.concept, SPACED_OUT.ids.conceptEntityID)
  {
    hide SlugIndex, IDIndex, EntityIndex, EntityBySlug, TrimSpace, PriorOk, SafeConceptSlug, StableID;
    SpacedLookups();
    SpacedTranslation();
    assert StableID(SPACED_PRIOR, SPACED_IDS, "c") == SPACED;
  }

  lemma SpacedRedirects()
    ensures RedirectsFit(SPACED_IDS, SPACED_OUT.translated)
    ensures Rekeyed(IDTargets(SPACED_IDS, SPACED_OUT.translated), SPACED_OUT.translated, SPACED_OUT.ids.idRedirects)
    ensures Rekeyed(SPACED_IDS.redirects, SPACED_OUT.translated, SPACED_OUT.ids.redirects)
  {
    hide TrimSpace, NormalizeTranslatedID, Rekeyed, IDTargets;
    SpacedLookups();
    SpacedTranslation();
    assert IDRedirectFits(SPACED_IDS, SPACED_OUT.translated, "r");
    SpacedTargets();
    RekeyedSingle("r", SPACED, SPACED_OUT.translated);
    RekeyedNothing(SPACED_OUT.translated);
  }

  lemma SpacedTargets()
    ensures IDTargets(SPACED_IDS, map["c" := SPACED]) == map["r" := SPACED]
  {
    hide TrimSpace, NormalizeTranslatedID;
    SpacedLookups();
    SpacedTranslation();
  }

  lemma RekeyedSingle(key: string, value: string, translated: map<string, string>)
    requires NormalizeTranslatedID(key, translated) == key
    ensures CollisionFree(map[key := value], translated) && Rekeyed(map[key := value], translated, map[key := value])
  {
    hide NormalizeTranslatedID;
  }

  lemma RekeyedNothing(translated: map<string, string>)
    ensures CollisionFree<seq<string>>(map[], translated) && Rekeyed<seq<string>>(map[], translated, map[])
  {
  }

  /** A prior ID with outer space is accepted as a redirect target, and then lost by trimming it. */
  lemma SpacedTargetIsNotStable()
    ensures Succeeds(SPACED_IDS, SPACED_PRIOR, false, SPACED_OUT) && !TargetsTrimmed(SPACED_OUT.ids)
  {
    hide TrimSpace, PriorOk, Translatable, Renamed, Rekeyed, RedirectsFit, Translation;
    SpacedLookups();
    SpacedTranslation();
    SpacedNames();
    SpacedRedirects();
    assert SPACED_OUT.ids.idRedirects["r"] == SPACED;
  }
}

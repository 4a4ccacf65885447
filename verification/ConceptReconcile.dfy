/** Mapping regenerated concept IDs back to the stable ones (cmd/olw_worker/concept_reconcile.go). */
module ConceptReconcile {
  import opened Options
  import opened Texts
  import opened ByteStrings
  import opened WikiIndex

  /** What a concept was before the run. */
  datatype Row = Row(
    conceptID: string,
    slug: string,
    entityID: string,
    dormant: bool,
    page: Bytes,
    sourcePaths: set<string>,
    idRedirects: map<string, string>)

  // ---- Lookup tables over the prior rows ----

  function SlugIndex(prior: seq<Row>): map<string, string> {
    if prior == [] then map[]
    else var last := prior[|prior| - 1]; SlugIndex(prior[..|prior| - 1])[last.slug := last.conceptID]
  }

  function IDIndex(prior: seq<Row>): map<string, string> {
    if prior == [] then map[]
    else var last := prior[|prior| - 1]; IDIndex(prior[..|prior| - 1])[last.conceptID := last.slug]
  }

  function EntityIndex(prior: seq<Row>): map<string, string> {
    if prior == [] then map[]
    else
      var last := prior[|prior| - 1];
      var before := EntityIndex(prior[..|prior| - 1]);
      if last.entityID == "" then before else before[last.entityID := last.conceptID]
  }

  function EntityBySlug(prior: seq<Row>): map<string, string> {
    if prior == [] then map[]
    else
      var last := prior[|prior| - 1];
      var before := EntityBySlug(prior[..|prior| - 1]);
      if last.entityID == "" then before else before[last.slug := last.entityID]
  }

  /** priorByID: the first row of that ID. */
  function EntityOfID(prior: seq<Row>, id: string): string {
    if prior == [] then ""
    else if prior[0].conceptID == id then prior[0].entityID
    else EntityOfID(prior[1..], id)
  }

  predicate RowFits(before: seq<Row>, row: Row) {
    && ValidSourceID(row.conceptID) && SafeConceptSlug(row.slug)
    && (row.slug in SlugIndex(before) ==> SlugIndex(before)[row.slug] == row.conceptID)
    && (row.conceptID in IDIndex(before) ==> IDIndex(before)[row.conceptID] == row.slug)
    && (row.entityID != "" ==>
          && ValidSyntoEntityID(row.entityID)
          && (row.entityID in EntityIndex(before) ==> EntityIndex(before)[row.entityID] == row.conceptID))
  }

  predicate PriorOk(prior: seq<Row>) {
    forall n :: 0 <= n < |prior| ==> RowFits(prior[..n], prior[n])
  }

  /** The lookup tables over some prior rows. */
  ghost predicate Tables(prior: seq<Row>, bySlug: map<string, string>, byEntity: map<string, string>, byID: map<string, string>) {
    bySlug == SlugIndex(prior) && byEntity == EntityIndex(prior) && byID == IDIndex(prior)
  }

  method AddRow(ghost prior: seq<Row>, row: Row, bySlug: map<string, string>, byEntity: map<string, string>, byID: map<string, string>)
    returns (ok: bool, bySlug': map<string, string>, byEntity': map<string, string>, byID': map<string, string>)
    requires Tables(prior, bySlug, byEntity, byID)
    ensures ok <==> RowFits(prior, row)
    ensures ok ==> Tables(prior + [row], bySlug', byEntity', byID')
  {
    hide SafeConceptSlug, ValidSyntoEntityID, ValidSourceID;
    bySlug', byEntity', byID' := bySlug, byEntity, byID;
    ok := false;
    if !ValidSourceID(row.conceptID) || !SafeConceptSlug(row.slug) {
      return;
    }
    if row.slug in bySlug && bySlug[row.slug] != row.conceptID {
      return;
    }
    if row.conceptID in byID && byID[row.conceptID] != row.slug {
      return;
    }
    bySlug' := bySlug[row.slug := row.conceptID];
    byID' := byID[row.conceptID := row.slug];
    if row.entityID != "" {
      if !ValidSyntoEntityID(row.entityID) {
        return;
      }
      if row.entityID in byEntity && byEntity[row.entityID] != row.conceptID {
        return;
      }
      byEntity' := byEntity[row.entityID := row.conceptID];
    }
    ok := true;
    assert (prior + [row])[..|prior|] == prior;
  }

  method CheckPrior(prior: seq<Row>) returns (ok: bool, bySlug: map<string, string>, byEntity: map<string, string>, byID: map<string, string>)
    ensures ok <==> PriorOk(prior)
    ensures ok ==> Tables(prior, bySlug, byEntity, byID)
  {
    hide RowFits;
    bySlug, byEntity, byID := map[], map[], map[];
    for n := 0 to |prior|
      invariant forall k :: 0 <= k < n ==> RowFits(prior[..k], prior[k])
      invariant Tables(prior[..n], bySlug, byEntity, byID)
    {
      ok, bySlug, byEntity, byID := AddRow(prior[..n], prior[n], bySlug, byEntity, byID);
      if !ok {
        return;
      }
      assert prior[..n + 1] == prior[..n] + [prior[n]];
    }
    assert prior[..|prior|] == prior;
    ok := true;
  }

  // ---- The entity map ----

  predicate EntityMapOk(ids: IDMap) {
    && (forall id :: id in ids.conceptEntityID ==>
          && ValidSourceID(id) && ValidSyntoEntityID(ids.conceptEntityID[id])
          && (id in ids.concept || id in ids.dormantConcept))
    && Injective(ids.conceptEntityID)
  }

  predicate Injective(m: map<string, string>) {
    forall a, b :: a in m && b in m && m[a] == m[b] ==> a == b
  }

  method ValidateConceptEntityMap(ids: IDMap) returns (ok: bool)
    ensures ok <==> EntityMapOk(ids)
  {
    var seen: map<string, string> := map[];
    var todo := ids.conceptEntityID.Keys;
    while todo != {}
      invariant todo <= ids.conceptEntityID.Keys
      invariant forall id :: id in ids.conceptEntityID.Keys - todo ==>
        && ValidSourceID(id) && ValidSyntoEntityID(ids.conceptEntityID[id])
        && (id in ids.concept || id in ids.dormantConcept)
        && ids.conceptEntityID[id] in seen && seen[ids.conceptEntityID[id]] == id
      invariant forall e :: e in seen ==> seen[e] in ids.conceptEntityID.Keys - todo && ids.conceptEntityID[seen[e]] == e
    {
      var id :| id in todo;
      var entity := ids.conceptEntityID[id];
      if !ValidSourceID(id) || !ValidSyntoEntityID(entity) {
        return false;
      }
      if id !in ids.concept && id !in ids.dormantConcept {
        return false;
      }
      if entity in seen && seen[entity] != id {
        return false;
      }
      seen := seen[entity := id];
      todo := todo - {id};
    }
    ok := true;
  }

  // ---- Stable IDs ----

  function EntityOf(ids: IDMap, current: string): string {
    TrimSpace(Get(ids.conceptEntityID, current))
  }

  /** The ID that a generated concept goes by from now on: its entity's, else its slug's, else its own. */
  function StableID(prior: seq<Row>, ids: IDMap, current: string): string
    requires current in ids.concept
  {
    var entity, slug := EntityOf(ids, current), ids.concept[current];
    if entity != "" && entity in EntityIndex(prior) then EntityIndex(prior)[entity]
    else if slug in SlugIndex(prior) then SlugIndex(prior)[slug]
    else current
  }

  predicate ConceptFits(prior: seq<Row>, ids: IDMap, requireEntity: bool, current: string)
    requires current in ids.concept
  {
    var entity, slug, stable := EntityOf(ids, current), ids.concept[current], StableID(prior, ids, current);
    && ValidSourceID(current) && SafeConceptSlug(slug)
    && (requireEntity ==> entity != "")
    && (entity != "" ==> ValidSyntoEntityID(entity))
    && (!(entity != "" && entity in EntityIndex(prior)) && slug in SlugIndex(prior) && requireEntity ==>
          EntityOfID(prior, SlugIndex(prior)[slug]) in ["", entity])
    && ValidSourceID(stable)
    && (stable in IDIndex(prior) && IDIndex(prior)[stable] != slug ==> Get(EntityIndex(prior), entity) == stable)
  }

  ghost predicate Translatable(prior: seq<Row>, ids: IDMap, requireEntity: bool) {
    && (forall c :: c in ids.concept ==> ConceptFits(prior, ids, requireEntity, c))
    && Injective(ids.concept)
    && forall c, d :: c in ids.concept && d in ids.concept && StableID(prior, ids, c) == StableID(prior, ids, d) ==> c == d
  }

  function Translation(prior: seq<Row>, ids: IDMap): map<string, string> {
    map c | c in ids.concept :: StableID(prior, ids, c)
  }

  /** One generated concept: its stable ID, or None when it cannot be kept apart from the prior ones. */
  method Resolve(prior: seq<Row>, bySlug: map<string, string>, byEntity: map<string, string>, byID: map<string, string>,
                 ids: IDMap, requireEntity: bool, current: string) returns (r: Option<string>)
    requires Tables(prior, bySlug, byEntity, byID) && current in ids.concept
    ensures r.Some? <==> ConceptFits(prior, ids, requireEntity, current)
    ensures r.Some? ==> r.value == StableID(prior, ids, current)
  {
    hide SafeConceptSlug, ValidSyntoEntityID, ValidSourceID, SlugIndex, EntityIndex, IDIndex, EntityOfID;
    var slug := TrimSpace(ids.concept[current]);
    if !ValidSourceID(current) || !SafeConceptSlug(slug) || slug != ids.concept[current] {
      SafeIsTrimmed(ids.concept[current]);
      return None;
    }
    var entity := TrimSpace(Get(ids.conceptEntityID, current));
    if requireEntity && entity == "" {
      return None;
    }
    if entity != "" && !ValidSyntoEntityID(entity) {
      return None;
    }
    var stable := current;
    if entity != "" && entity in byEntity {
      stable := byEntity[entity];
    } else if slug in bySlug {
      var was := EntityOfID(prior, bySlug[slug]);
      if requireEntity && was != "" && was != entity {
        return None;
      }
      stable := bySlug[slug];
    }
    if !ValidSourceID(stable) {
      return None;
    }
    if stable in byID && byID[stable] != slug {
      if Get(byEntity, entity) != stable {
        return None;
      }
    }
    r := Some(stable);
  }

  lemma SafeIsTrimmed(slug: string)
    ensures SafeConceptSlug(slug) ==> TrimSpace(slug) == slug
  {
  }

  method Translate(prior: seq<Row>, bySlug: map<string, string>, byEntity: map<string, string>, byID: map<string, string>,
                   ids: IDMap, requireEntity: bool) returns (r: Option<map<string, string>>)
    requires Tables(prior, bySlug, byEntity, byID)
    ensures r.Some? <==> Translatable(prior, ids, requireEntity)
    ensures r.Some? ==> r.value == Translation(prior, ids)
  {
    hide ConceptFits, StableID, Tables;
    var translated, used, seenSlug: map<string, string> := map[], map[], map[];
    var todo := ids.concept.Keys;
    while todo != {}
      invariant todo <= ids.concept.Keys && translated.Keys == ids.concept.Keys - todo
      invariant forall c :: c in translated ==>
        ConceptFits(prior, ids, requireEntity, c) && translated[c] == StableID(prior, ids, c)
      invariant forall c :: c in translated ==> ids.concept[c] in seenSlug && seenSlug[ids.concept[c]] == c
      invariant forall c :: c in translated ==> translated[c] in used && used[translated[c]] == ids.concept[c]
      invariant forall s :: s in seenSlug ==> seenSlug[s] in translated && ids.concept[seenSlug[s]] == s
      invariant forall s :: s in used ==> used[s] in seenSlug && translated[seenSlug[used[s]]] == s
    {
      var current :| current in todo;
      var slug := ids.concept[current];
      if slug in seenSlug {
        return None;
      }
      var stable := Resolve(prior, bySlug, byEntity, byID, ids, requireEntity, current);
      if stable == None {
        return None;
      }
      if stable.value in used && used[stable.value] != slug {
        return None;
      }
      seenSlug := seenSlug[slug := current];
      used := used[stable.value := slug];
      translated := translated[current := stable.value];
      todo := todo - {current};
    }
    r := Some(translated);
  }

  // ---- The new entity map ----

  /** The entity of a concept after the run: the generated one, else the one its slug had. */
  function NextEntity(prior: seq<Row>, ids: IDMap, current: string): string
    requires current in ids.concept
  {
    var entity := Get(ids.conceptEntityID, current);
    if entity == "" then Get(EntityBySlug(prior), ids.concept[current]) else entity
  }

  /** The maps under the new names. */
  ghost predicate Renamed(prior: seq<Row>, ids: IDMap, concept: map<string, string>, entity: map<string, string>) {
    && (forall c :: c in ids.concept ==>
          var stable := StableID(prior, ids, c);
          && stable in concept && concept[stable] == ids.concept[c]
          && Get(entity, stable) == NextEntity(prior, ids, c))
    && (forall s :: s in concept ==> exists c :: c in ids.concept && StableID(prior, ids, c) == s)
    && (forall s :: s in entity ==> s in concept && entity[s] != "")
  }

  method PriorEntities(prior: seq<Row>) returns (bySlug: map<string, string>)
    ensures bySlug == EntityBySlug(prior)
  {
    bySlug := map[];
    for n := 0 to |prior|
      invariant bySlug == EntityBySlug(prior[..n])
    {
      assert prior[..n + 1][..n] == prior[..n];
      if prior[n].entityID != "" {
        bySlug := bySlug[prior[n].slug := prior[n].entityID];
      }
    }
    assert prior[..|prior|] == prior;
  }

  /** All but `todo` have been renamed; `owner` remembers who got which ID. */
  ghost predicate Renaming(prior: seq<Row>, ids: IDMap, translated: map<string, string>, todo: set<string>,
                           owner: map<string, string>, concept: map<string, string>, entity: map<string, string>) {
    && translated.Keys == ids.concept.Keys
    && owner.Keys == concept.Keys && entity.Keys <= concept.Keys
    && (forall c :: c in translated && c !in todo ==> translated[c] in owner)
    && (forall s :: s in owner ==>
          && owner[s] in translated && owner[s] !in todo && translated[owner[s]] == s
          && concept[s] == ids.concept[owner[s]] && Get(entity, s) == NextEntity(prior, ids, owner[s]))
    && (forall s :: s in entity ==> entity[s] != "")
  }

  lemma NotYetRenamed(translated: map<string, string>, todo: set<string>, owner: map<string, string>, c: string)
    requires Injective(translated) && c in todo && c in translated
    requires forall s :: s in owner ==> owner[s] in translated && owner[s] !in todo && translated[owner[s]] == s
    ensures translated[c] !in owner
  {
  }

  lemma RenamingStep(prior: seq<Row>, ids: IDMap, translated: map<string, string>, todo: set<string>,
                     owner: map<string, string>, concept: map<string, string>, entity: map<string, string>, c: string)
    requires Renaming(prior, ids, translated, todo, owner, concept, entity) && Injective(translated)
    requires c in todo && todo <= translated.Keys
    ensures translated[c] !in concept
    ensures var e := NextEntity(prior, ids, c);
            Renaming(prior, ids, translated, todo - {c}, owner[translated[c] := c], concept[translated[c] := ids.concept[c]],
                     if e == "" then entity else entity[translated[c] := e])
  {
    hide NextEntity, Injective;
    var k, e := translated[c], NextEntity(prior, ids, c);
    NotYetRenamed(translated, todo, owner, c);
    var owner', concept', entity' := owner[k := c], concept[k := ids.concept[c]], if e == "" then entity else entity[k := e];
    forall d | d in translated && d !in todo - {c} ensures translated[d] in owner' {
    }
    forall s | s in owner'
      ensures owner'[s] in translated && owner'[s] !in todo - {c} && translated[owner'[s]] == s
      ensures concept'[s] == ids.concept[owner'[s]]
      ensures Get(entity', s) == NextEntity(prior, ids, owner'[s])
    {
      if s != k {
        assert owner'[s] == owner[s] && concept'[s] == concept[s] && Get(entity', s) == Get(entity, s);
      }
    }
    assert owner'.Keys == concept'.Keys && entity'.Keys <= concept'.Keys;
  }

  lemma RenamingDone(prior: seq<Row>, ids: IDMap, translated: map<string, string>,
                     owner: map<string, string>, concept: map<string, string>, entity: map<string, string>)
    requires Renaming(prior, ids, translated, {}, owner, concept, entity) && Injective(translated)
    requires translated == Translation(prior, ids)
    ensures Renamed(prior, ids, concept, entity)
  {
    hide NextEntity, StableID;
    forall s | s in concept ensures exists c :: c in ids.concept && StableID(prior, ids, c) == s {
      assert StableID(prior, ids, owner[s]) == s;
    }
    forall c | c in ids.concept
      ensures var stable := StableID(prior, ids, c);
              stable in concept && concept[stable] == ids.concept[c] && Get(entity, stable) == NextEntity(prior, ids, c)
    {
      assert owner[translated[c]] == c;
    }
  }

  method Rename(prior: seq<Row>, ids: IDMap, translated: map<string, string>)
    returns (concept: map<string, string>, entity: map<string, string>)
    requires translated == Translation(prior, ids) && Injective(translated)
    ensures Renamed(prior, ids, concept, entity)
  {
    hide StableID, NextEntity, Injective, Renamed;
    var bySlug := PriorEntities(prior);
    concept, entity := map[], map[];
    var todo := translated.Keys;
    ghost var owner: map<string, string> := map[];
    while todo != {}
      invariant todo <= translated.Keys && Renaming(prior, ids, translated, todo, owner, concept, entity)
    {
      var c :| c in todo;
      var e := Entity(prior, ids, c, bySlug);
      RenamingStep(prior, ids, translated, todo, owner, concept, entity, c);
      hide Renaming;
      owner := owner[translated[c] := c];
      concept := concept[translated[c] := ids.concept[c]];
      if e != "" {
        entity := entity[translated[c] := e];
      }
      todo := todo - {c};
    }
    RenamingDone(prior, ids, translated, owner, concept, entity);
  }

  function Entity(ghost prior: seq<Row>, ids: IDMap, c: string, bySlug: map<string, string>): (e: string)
    requires c in ids.concept && bySlug == EntityBySlug(prior)
    ensures e == NextEntity(prior, ids, c)
  {
    var entity := Get(ids.conceptEntityID, c);
    if entity == "" then Get(bySlug, ids.concept[c]) else entity
  }

  // ---- Redirects ----

  /** Keys that translate to the same ID carry the same value. */
  ghost predicate CollisionFree<V(!new)>(m: map<string, V>, translated: map<string, string>) {
    forall a, b :: a in m && b in m && NormalizeTranslatedID(a, translated) == NormalizeTranslatedID(b, translated) ==>
      m[a] == m[b]
  }

  /** `out` is `m` with its keys translated. */
  ghost predicate Rekeyed<V(!new)>(m: map<string, V>, translated: map<string, string>, out: map<string, V>) {
    && (forall a :: a in m ==> NormalizeTranslatedID(a, translated) in out && out[NormalizeTranslatedID(a, translated)] == m[a])
    && (forall k :: k in out ==> exists a :: a in m && NormalizeTranslatedID(a, translated) == k)
  }

  method Rekey<V(==, !new)>(m: map<string, V>, translated: map<string, string>) returns (r: Option<map<string, V>>)
    ensures r.Some? <==> CollisionFree(m, translated)
    ensures r.Some? ==> Rekeyed(m, translated, r.value)
  {
    var out: map<string, V> := map[];
    ghost var owner: map<string, string> := map[];
    var todo := m.Keys;
    while todo != {}
      invariant todo <= m.Keys && owner.Keys == out.Keys
      invariant forall a :: a in m && a !in todo ==>
        NormalizeTranslatedID(a, translated) in out && out[NormalizeTranslatedID(a, translated)] == m[a]
      invariant forall k :: k in out ==> owner[k] in m && NormalizeTranslatedID(owner[k], translated) == k && out[k] == m[owner[k]]
    {
      var a :| a in todo;
      var k := NormalizeTranslated(a, translated);
      if k in out && out[k] != m[a] {
        return None;
      }
      owner := owner[k := a];
      out := out[k := m[a]];
      todo := todo - {a};
    }
    forall k | k in out ensures exists a :: a in m && NormalizeTranslatedID(a, translated) == k {
      assert owner[k] in m;
    }
    r := Some(out);
  }

  predicate IDRedirectFits(ids: IDMap, translated: map<string, string>, from: string)
    requires from in ids.idRedirects
  {
    var target := TrimSpace(ids.idRedirects[from]);
    && ValidSourceID(from) && target != "" && ValidSourceID(target)
    && ValidSourceID(NormalizeTranslatedID(from, translated)) && ValidSourceID(NormalizeTranslatedID(target, translated))
  }

  function IDTargets(ids: IDMap, translated: map<string, string>): map<string, string> {
    map from | from in ids.idRedirects :: NormalizeTranslatedID(TrimSpace(ids.idRedirects[from]), translated)
  }

  method TranslateTargets(ids: IDMap, translated: map<string, string>) returns (r: Option<map<string, string>>)
    ensures r.Some? <==> forall from :: from in ids.idRedirects ==> IDRedirectFits(ids, translated, from)
    ensures r.Some? ==> r.value == IDTargets(ids, translated)
  {
    hide ValidSourceID, TrimSpace, NormalizeTranslatedID;
    var out: map<string, string> := map[];
    var todo := ids.idRedirects.Keys;
    while todo != {}
      invariant todo <= ids.idRedirects.Keys && out.Keys == ids.idRedirects.Keys - todo
      invariant forall from :: from in out ==>
        IDRedirectFits(ids, translated, from) && out[from] == IDTargets(ids, translated)[from]
    {
      var from :| from in todo;
      var target := TrimSpace(ids.idRedirects[from]);
      if !ValidSourceID(from) || target == "" || !ValidSourceID(target) {
        return None;
      }
      var newFrom := NormalizeTranslated(from, translated);
      var newTarget := NormalizeTranslated(target, translated);
      if !ValidSourceID(newFrom) || !ValidSourceID(newTarget) {
        return None;
      }
      out := out[from := newTarget];
      todo := todo - {from};
    }
    r := Some(out);
  }

  /** One hop is enough: targets are live concepts and sources are not. */
  predicate Flat(redirects: map<string, string>, concept: map<string, string>, entity: map<string, string>, requireEntity: bool) {
    forall source :: source in redirects ==>
      && source !in concept && redirects[source] !in redirects && redirects[source] in concept
      && (requireEntity ==> Get(entity, redirects[source]) != "")
  }

  method CheckFlat(redirects: map<string, string>, concept: map<string, string>, entity: map<string, string>, requireEntity: bool)
    returns (ok: bool)
    ensures ok <==> Flat(redirects, concept, entity, requireEntity)
  {
    var todo := redirects.Keys;
    while todo != {}
      invariant todo <= redirects.Keys
      invariant forall source :: source in redirects.Keys - todo ==>
        && source !in concept && redirects[source] !in redirects && redirects[source] in concept
        && (requireEntity ==> Get(entity, redirects[source]) != "")
    {
      var source :| source in todo;
      var target := redirects[source];
      if source in concept || target in redirects || target !in concept || (requireEntity && Get(entity, target) == "") {
        return false;
      }
      todo := todo - {source};
    }
    ok := true;
  }

  predicate SlugRedirectFits(ids: IDMap, translated: map<string, string>, from: string)
    requires from in ids.redirects
  {
    && ValidSourceID(from) && (forall i :: 0 <= i < |ids.redirects[from]| ==> SafeConceptSlug(ids.redirects[from][i]))
    && ValidSourceID(NormalizeTranslatedID(from, translated))
  }

  method CheckSlugRedirects(ids: IDMap, translated: map<string, string>) returns (ok: bool)
    ensures ok <==> forall from :: from in ids.redirects ==> SlugRedirectFits(ids, translated, from)
  {
    hide ValidSourceID, SafeConceptSlug, NormalizeTranslatedID;
    var todo := ids.redirects.Keys;
    while todo != {}
      invariant todo <= ids.redirects.Keys
      invariant forall from :: from in ids.redirects.Keys - todo ==> SlugRedirectFits(ids, translated, from)
    {
      var from :| from in todo;
      if !ValidSourceID(from) {
        return false;
      }
      var targets := ids.redirects[from];
      for n := 0 to |targets|
        invariant forall i :: 0 <= i < n ==> SafeConceptSlug(targets[i])
      {
        if !SafeConceptSlug(targets[n]) {
          return false;
        }
      }
      var newFrom := NormalizeTranslated(from, translated);
      if !ValidSourceID(newFrom) {
        return false;
      }
      todo := todo - {from};
    }
    ok := true;
  }

  // ---- The whole reconciliation ----

  datatype Reconciliation = Reconciliation(ids: IDMap, translated: map<string, string>)

  /** `out` is the reconciled map, if there is one. */
  ghost predicate IsReconciled(ids: IDMap, prior: seq<Row>, out: Reconciliation) {
    && out.translated == Translation(prior, ids)
    && Renamed(prior, ids, out.ids.concept, out.ids.conceptEntityID)
    && Rekeyed(IDTargets(ids, out.translated), out.translated, out.ids.idRedirects)
    && Rekeyed(ids.redirects, out.translated, out.ids.redirects)
    && out.ids.dormantConcept == ids.dormantConcept && out.ids.source == ids.source && out.ids.sourceMeta == ids.sourceMeta
  }

  ghost predicate RedirectsFit(ids: IDMap, translated: map<string, string>) {
    && (forall from :: from in ids.idRedirects ==> IDRedirectFits(ids, translated, from))
    && CollisionFree(IDTargets(ids, translated), translated)
    && (forall from :: from in ids.redirects ==> SlugRedirectFits(ids, translated, from))
    && CollisionFree(ids.redirects, translated)
  }

  /** When the reconciliation succeeds: `out` is what it then gives. */
  ghost predicate Succeeds(ids: IDMap, prior: seq<Row>, requireEntity: bool, out: Reconciliation) {
    && PriorOk(prior) && EntityMapOk(ids) && Translatable(prior, ids, requireEntity)
    && RedirectsFit(ids, Translation(prior, ids))
    && IsReconciled(ids, prior, out)
    && Flat(out.ids.idRedirects, out.ids.concept, out.ids.conceptEntityID, requireEntity)
  }

  method ReconcileConceptIDMap(ids: IDMap, prior: seq<Row>, requireEntity: bool) returns (r: Option<Reconciliation>)
    ensures r.Some? ==> Succeeds(ids, prior, requireEntity, r.value)
    ensures r.None? ==> forall out :: !Succeeds(ids, prior, requireEntity, out)
  {
    hide PriorOk, EntityMapOk, Translatable, Translation, Renamed, Rekeyed, CollisionFree, Tables, Flat, IDRedirectFits,
         SlugRedirectFits, IDTargets, Injective, NormalizeTranslatedID;
    var ok, bySlug, byEntity, byID := CheckPrior(prior);
    if !ok {
      return None;
    }
    ok := ValidateConceptEntityMap(ids);
    if !ok {
      return None;
    }
    var translated := Translate(prior, bySlug, byEntity, byID, ids, requireEntity);
    if translated == None {
      return None;
    }
    var t := translated.value;
    TranslationInjective(prior, ids, requireEntity);
    var concept, entity := Rename(prior, ids, t);
    var targets := TranslateTargets(ids, t);
    if targets == None {
      return None;
    }
    var idRedirects := Rekey(targets.value, t);
    if idRedirects == None {
      return None;
    }
    ok := CheckFlat(idRedirects.value, concept, entity, requireEntity);
    if !ok {
      forall out | IsReconciled(ids, prior, out) ensures !Flat(out.ids.idRedirects, out.ids.concept, out.ids.conceptEntityID, requireEntity) {
        RenamedOnce(prior, ids, concept, entity, out.ids.concept, out.ids.conceptEntityID);
        RekeyedOnce(targets.value, t, idRedirects.value, out.ids.idRedirects);
      }
      return None;
    }
    ok := CheckSlugRedirects(ids, t);
    if !ok {
      return None;
    }
    var redirects := Rekey(ids.redirects, t);
    if redirects == None {
      return None;
    }
    r := Some(Reconciliation(
      ids.(concept := concept, conceptEntityID := entity, idRedirects := idRedirects.value, redirects := redirects.value), t));
  }

  lemma TranslationInjective(prior: seq<Row>, ids: IDMap, requireEntity: bool)
    requires Translatable(prior, ids, requireEntity)
    ensures Injective(Translation(prior, ids))
  {
    hide ConceptFits, StableID;
  }

  /** There is only one result. */
  lemma RenamedOnce(prior: seq<Row>, ids: IDMap, concept: map<string, string>, entity: map<string, string>,
                    concept': map<string, string>, entity': map<string, string>)
    requires Renamed(prior, ids, concept, entity) && Renamed(prior, ids, concept', entity')
    ensures concept == concept' && entity == entity'
  {
    hide StableID, NextEntity;
    forall s | s in concept ensures s in concept' && concept'[s] == concept[s] && Get(entity, s) == Get(entity', s) {
      var c :| c in ids.concept && StableID(prior, ids, c) == s;
    }
    forall s | s in concept' ensures s in concept {
      var c :| c in ids.concept && StableID(prior, ids, c) == s;
    }
  }

  lemma RekeyedOnce<V(!new)>(m: map<string, V>, translated: map<string, string>, out: map<string, V>, out': map<string, V>)
    requires Rekeyed(m, translated, out) && Rekeyed(m, translated, out')
    ensures out == out'
  {
    hide NormalizeTranslatedID;
    forall k | k in out ensures k in out' && out'[k] == out[k] {
      var a :| a in m && NormalizeTranslatedID(a, translated) == k;
    }
    forall k | k in out' ensures k in out {
      var a :| a in m && NormalizeTranslatedID(a, translated) == k;
    }
  }

  lemma ReconciledOnce(ids: IDMap, prior: seq<Row>, out: Reconciliation, out': Reconciliation)
    requires IsReconciled(ids, prior, out) && IsReconciled(ids, prior, out')
    ensures out == out'
  {
    hide Renamed, Rekeyed;
    RenamedOnce(prior, ids, out.ids.concept, out.ids.conceptEntityID, out'.ids.concept, out'.ids.conceptEntityID);
    RekeyedOnce(IDTargets(ids, out.translated), out.translated, out.ids.idRedirects, out'.ids.idRedirects);
    RekeyedOnce(ids.redirects, out.translated, out.ids.redirects, out'.ids.redirects);
  }
}

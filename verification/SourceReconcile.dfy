/** Mapping regenerated source IDs back to the stable ones (cmd/olw_worker/source_reconcile.go). */
module SourceReconcile {
  import opened Options
  import opened Texts
  import opened WikiIndex
  import opened ConceptReconcile

  /** A source known before the run; a tombstone only reserves its ID. */
  datatype Source = Source(sourceID: string, rawPath: string, tombstone: bool)

  /** What the workspace decides: which raw paths are acceptable, and which pairs of pages are one regenerated source. */
  datatype Workspace = Workspace(safe: string -> bool, sameSource: (string, string, string) -> bool)

  // ---- Prior sources ----

  function OldByRaw(prior: seq<Source>): map<string, string> {
    if prior == [] then map[]
    else var last := prior[|prior| - 1]; OldByRaw(prior[..|prior| - 1])[last.rawPath := last.sourceID]
  }

  function ReservedByID(prior: seq<Source>): map<string, string> {
    if prior == [] then map[]
    else var last := prior[|prior| - 1]; ReservedByID(prior[..|prior| - 1])[last.sourceID := last.rawPath]
  }

  predicate SourceFits(w: Workspace, before: seq<Source>, s: Source) {
    && ValidSourceID(s.sourceID) && w.safe(s.rawPath)
    && (s.rawPath in OldByRaw(before) ==> OldByRaw(before)[s.rawPath] == s.sourceID)
    && (s.sourceID in ReservedByID(before) ==> ReservedByID(before)[s.sourceID] == s.rawPath)
  }

  predicate SourcesOk(w: Workspace, prior: seq<Source>) {
    forall n :: 0 <= n < |prior| ==> SourceFits(w, prior[..n], prior[n])
  }

  method AddSource(w: Workspace, ghost before: seq<Source>, s: Source, byRaw: map<string, string>, byID: map<string, string>)
    returns (ok: bool, byRaw': map<string, string>, byID': map<string, string>)
    requires byRaw == OldByRaw(before) && byID == ReservedByID(before)
    ensures ok <==> SourceFits(w, before, s)
    ensures ok ==> byRaw' == OldByRaw(before + [s]) && byID' == ReservedByID(before + [s])
  {
    hide ValidSourceID;
    ok, byRaw', byID' := false, byRaw, byID;
    if !ValidSourceID(s.sourceID) || !w.safe(s.rawPath) {
      return;
    }
    if s.rawPath in byRaw && byRaw[s.rawPath] != s.sourceID {
      return;
    }
    if s.sourceID in byID && byID[s.sourceID] != s.rawPath {
      return;
    }
    assert (before + [s])[..|before|] == before;
    ok, byRaw', byID' := true, byRaw[s.rawPath := s.sourceID], byID[s.sourceID := s.rawPath];
  }

  method CheckSources(w: Workspace, prior: seq<Source>) returns (ok: bool, byRaw: map<string, string>, byID: map<string, string>)
    ensures ok <==> SourcesOk(w, prior)
    ensures ok ==> byRaw == OldByRaw(prior) && byID == ReservedByID(prior)
  {
    hide SourceFits;
    byRaw, byID := map[], map[];
    for n := 0 to |prior|
      invariant forall k :: 0 <= k < n ==> SourceFits(w, prior[..k], prior[k])
      invariant byRaw == OldByRaw(prior[..n]) && byID == ReservedByID(prior[..n])
    {
      ok, byRaw, byID := AddSource(w, prior[..n], prior[n], byRaw, byID);
      if !ok {
        return;
      }
      assert prior[..n + 1] == prior[..n] + [prior[n]];
    }
    assert prior[..|prior|] == prior;
    ok := true;
  }

  // ---- Stable IDs ----

  predicate SafeSourceSlug(slug: string) {
    TrimSpace(slug) != "" && '/' !in slug && '\\' !in slug && slug != "." && slug != ".."
  }

  function RawOf(ids: IDMap, id: string): string {
    if id in ids.sourceMeta then ids.sourceMeta[id].sourceFile else ""
  }

  /** A source keeps the ID that its raw file had. */
  function StableSource(prior: seq<Source>, ids: IDMap, current: string): string
  {
    var raw := RawOf(ids, current);
    if raw in OldByRaw(prior) then OldByRaw(prior)[raw] else current
  }

  predicate CurrentFits(w: Workspace, prior: seq<Source>, ids: IDMap, current: string)
    requires current in ids.source
  {
    && ValidSourceID(current) && SafeSourceSlug(ids.source[current])
    && current in ids.sourceMeta
    && var meta := ids.sourceMeta[current];
       && TrimSpace(meta.sourceFile) != "" && w.safe(meta.sourceFile) && meta.slug == ids.source[current]
       && var stable := StableSource(prior, ids, current);
          && ValidSourceID(stable)
          && (stable in ReservedByID(prior) ==> ReservedByID(prior)[stable] == meta.sourceFile)
  }

  predicate SourcesFit(w: Workspace, prior: seq<Source>, ids: IDMap) {
    && (forall id :: id in ids.sourceMeta ==> id in ids.source)
    && (forall c :: c in ids.source ==> CurrentFits(w, prior, ids, c))
    && (forall c, d :: c in ids.source && d in ids.source && c != d ==>
          && RawOf(ids, c) != RawOf(ids, d)
          && StableSource(prior, ids, c) != StableSource(prior, ids, d))
  }

  function SourceTranslation(prior: seq<Source>, ids: IDMap): map<string, string>
  {
    map c | c in ids.source :: StableSource(prior, ids, c)
  }

  /** One generated source: its stable ID, or None. */
  method ResolveSource(w: Workspace, prior: seq<Source>, byRaw: map<string, string>, byID: map<string, string>, ids: IDMap, current: string)
    returns (r: Option<string>)
    requires byRaw == OldByRaw(prior) && byID == ReservedByID(prior) && current in ids.source
    ensures r.Some? <==> CurrentFits(w, prior, ids, current)
    ensures r.Some? ==> r.value == StableSource(prior, ids, current)
  {
    hide ValidSourceID, SafeSourceSlug, TrimSpace;
    var slug := ids.source[current];
    if !ValidSourceID(current) || !SafeSourceSlug(slug) || current !in ids.sourceMeta {
      return None;
    }
    var meta := ids.sourceMeta[current];
    if TrimSpace(meta.sourceFile) == "" || !w.safe(meta.sourceFile) || meta.slug != slug {
      return None;
    }
    var stable := if meta.sourceFile in byRaw then byRaw[meta.sourceFile] else current;
    if !ValidSourceID(stable) {
      return None;
    }
    if stable in byID && byID[stable] != meta.sourceFile {
      return None;
    }
    r := Some(stable);
  }

  /** All sources but `todo` have been translated, and so far no raw path and no ID was used twice. */
  ghost predicate Translating(w: Workspace, prior: seq<Source>, ids: IDMap, todo: set<string>, translated: map<string, string>,
                              used: map<string, string>, seenRaw: map<string, string>) {
    && todo <= ids.source.Keys && translated.Keys == ids.source.Keys - todo
    && (forall c :: c in translated ==> CurrentFits(w, prior, ids, c) && translated[c] == StableSource(prior, ids, c))
    && (forall c :: c in translated ==> RawOf(ids, c) in seenRaw && seenRaw[RawOf(ids, c)] == c)
    && (forall c :: c in translated ==> translated[c] in used && used[translated[c]] == RawOf(ids, c))
    && (forall p :: p in seenRaw ==> seenRaw[p] in translated && RawOf(ids, seenRaw[p]) == p)
    && (forall s :: s in used ==> used[s] in seenRaw && translated[seenRaw[used[s]]] == s)
  }

  lemma TranslatingStep(w: Workspace, prior: seq<Source>, ids: IDMap, todo: set<string>, translated: map<string, string>,
                        used: map<string, string>, seenRaw: map<string, string>, current: string)
    requires Translating(w, prior, ids, todo, translated, used, seenRaw) && current in todo && CurrentFits(w, prior, ids, current)
    requires RawOf(ids, current) !in seenRaw
    requires var stable := StableSource(prior, ids, current); stable in used ==> used[stable] == RawOf(ids, current)
    ensures var stable, raw := StableSource(prior, ids, current), RawOf(ids, current);
            Translating(w, prior, ids, todo - {current}, translated[current := stable], used[stable := raw], seenRaw[raw := current])
  {
    hide CurrentFits, StableSource, RawOf;
    var stable, raw := StableSource(prior, ids, current), RawOf(ids, current);
    assert stable !in used;
    var translated', used', seenRaw' := translated[current := stable], used[stable := raw], seenRaw[raw := current];
    forall s | s in used' ensures used'[s] in seenRaw' && translated'[seenRaw'[used'[s]]] == s {
      if s != stable {
        assert used'[s] == used[s] && used[s] != raw;
      }
    }
    forall c | c in translated' ensures RawOf(ids, c) in seenRaw' && seenRaw'[RawOf(ids, c)] == c {
    }
  }

  lemma TranslatingClash(w: Workspace, prior: seq<Source>, ids: IDMap, todo: set<string>, translated: map<string, string>,
                         used: map<string, string>, seenRaw: map<string, string>, current: string)
    requires Translating(w, prior, ids, todo, translated, used, seenRaw) && current in todo
    requires var stable := StableSource(prior, ids, current);
             RawOf(ids, current) in seenRaw || (stable in used && used[stable] != RawOf(ids, current))
    ensures !SourcesFit(w, prior, ids)
  {
    hide CurrentFits, StableSource, RawOf;
    if RawOf(ids, current) in seenRaw {
      var c := seenRaw[RawOf(ids, current)];
      assert c != current && RawOf(ids, c) == RawOf(ids, current);
    } else {
      var c := seenRaw[used[StableSource(prior, ids, current)]];
      assert c != current && translated[c] == StableSource(prior, ids, current);
    }
  }

  lemma TranslatingDone(w: Workspace, prior: seq<Source>, ids: IDMap, translated: map<string, string>,
                        used: map<string, string>, seenRaw: map<string, string>)
    requires Translating(w, prior, ids, {}, translated, used, seenRaw)
    requires forall id :: id in ids.sourceMeta ==> id in ids.source
    ensures SourcesFit(w, prior, ids) && translated == SourceTranslation(prior, ids) && Injective(translated)
  {
    hide CurrentFits, StableSource, RawOf;
  }

  method TranslateSources(w: Workspace, prior: seq<Source>, byRaw: map<string, string>, byID: map<string, string>, ids: IDMap)
    returns (r: Option<map<string, string>>)
    requires byRaw == OldByRaw(prior) && byID == ReservedByID(prior)
    requires forall id :: id in ids.sourceMeta ==> id in ids.source
    ensures r.Some? <==> SourcesFit(w, prior, ids)
    ensures r.Some? ==> r.value == SourceTranslation(prior, ids) && Injective(r.value)
  {
    hide CurrentFits, StableSource, OldByRaw, ReservedByID, RawOf;
    var translated, used, seenRaw: map<string, string> := map[], map[], map[];
    var todo := ids.source.Keys;
    while todo != {}
      invariant Translating(w, prior, ids, todo, translated, used, seenRaw)
    {
      var current :| current in todo;
      var raw := RawOf(ids, current);
      if raw in seenRaw {
        TranslatingClash(w, prior, ids, todo, translated, used, seenRaw, current);
        return None;
      }
      var stable := ResolveSource(w, prior, byRaw, byID, ids, current);
      if stable == None {
        return None;
      }
      if stable.value in used && used[stable.value] != raw {
        TranslatingClash(w, prior, ids, todo, translated, used, seenRaw, current);
        return None;
      }
      TranslatingStep(w, prior, ids, todo, translated, used, seenRaw, current);
      seenRaw := seenRaw[raw := current];
      used := used[stable.value := raw];
      translated := translated[current := stable.value];
      todo := todo - {current};
    }
    TranslatingDone(w, prior, ids, translated, used, seenRaw);
    r := Some(translated);
  }

  // ---- The new maps ----

  /** `out` is `m` under the stable names. */
  ghost predicate Carried<V(!new)>(m: map<string, V>, translated: map<string, string>, out: map<string, V>) {
    && m.Keys == translated.Keys
    && (forall c :: c in translated ==> translated[c] in out && out[translated[c]] == m[c])
    && (forall s :: s in out ==> exists c :: c in translated && translated[c] == s)
  }

  method Carry<V(!new)>(m: map<string, V>, translated: map<string, string>) returns (out: map<string, V>)
    requires m.Keys == translated.Keys && Injective(translated)
    ensures Carried(m, translated, out)
  {
    out := map[];
    ghost var owner: map<string, string> := map[];
    var todo := translated.Keys;
    while todo != {}
      invariant todo <= translated.Keys && owner.Keys == out.Keys
      invariant forall c :: c in translated && c !in todo ==> translated[c] in owner
      invariant forall s :: s in owner ==>
        owner[s] in translated && owner[s] !in todo && translated[owner[s]] == s && out[s] == m[owner[s]]
    {
      var c :| c in todo;
      owner := owner[translated[c] := c];
      out := out[translated[c] := m[c]];
      todo := todo - {c};
    }
    forall s | s in out ensures exists c :: c in translated && translated[c] == s {
      assert owner[s] in translated;
    }
    forall c | c in translated ensures out[translated[c]] == m[c] {
      assert owner[translated[c]] == c;
    }
  }

  /** `out` is what reconciling the sources gives, if it succeeds. */
  ghost predicate ReconcilesSources(w: Workspace, ids: IDMap, prior: seq<Source>, out: IDMap, translated: map<string, string>) {
    && SourcesOk(w, prior) && SourcesFit(w, prior, ids)
    && translated == SourceTranslation(prior, ids)
    && CollisionFree(ids.redirects, translated)
    && Carried(ids.source, translated, out.source) && Carried(ids.sourceMeta, translated, out.sourceMeta)
    && Rekeyed(ids.redirects, translated, out.redirects)
    && out == ids.(source := out.source, sourceMeta := out.sourceMeta, redirects := out.redirects)
  }

  method ReconcileSourceIDMap(w: Workspace, ids: IDMap, prior: seq<Source>) returns (r: Option<(IDMap, map<string, string>)>)
    ensures r.Some? ==> ReconcilesSources(w, ids, prior, r.value.0, r.value.1)
    ensures r.None? ==> forall out, translated :: !ReconcilesSources(w, ids, prior, out, translated)
  {
    hide SourcesOk, SourcesFit, CollisionFree, Carried, Rekeyed, Injective, OldByRaw, ReservedByID;
    var ok, byRaw, byID := CheckSources(w, prior);
    if !ok {
      return None;
    }
    if !(ids.sourceMeta.Keys <= ids.source.Keys) {
      MetaNeeded(w, prior, ids);
      return None;
    }
    var translated := TranslateSources(w, prior, byRaw, byID, ids);
    if translated == None {
      return None;
    }
    FitsBothWays(w, prior, ids);
    var source := Carry(ids.source, translated.value);
    var meta := Carry(ids.sourceMeta, translated.value);
    var redirects := Rekey(ids.redirects, translated.value);
    if redirects == None {
      return None;
    }
    r := Some((ids.(source := source, sourceMeta := meta, redirects := redirects.value), translated.value));
  }

  lemma MetaNeeded(w: Workspace, prior: seq<Source>, ids: IDMap)
    requires !(ids.sourceMeta.Keys <= ids.source.Keys)
    ensures !SourcesFit(w, prior, ids)
  {
  }

  lemma FitsBothWays(w: Workspace, prior: seq<Source>, ids: IDMap)
    requires SourcesFit(w, prior, ids)
    ensures ids.source.Keys == ids.sourceMeta.Keys
  {
    hide StableSource;
  }
}

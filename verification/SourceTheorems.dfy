/** What reconciling the sources of a project guarantees. */
module SourceTheorems {
  import opened Texts
  import opened WikiIndex
  import opened ConceptReconcile
  import opened SourceReconcile
  import opened SourceCollapse

  lemma SourcesPrefix(w: Workspace, prior: seq<Source>)
    requires SourcesOk(w, prior) && prior != []
    ensures SourcesOk(w, prior[..|prior| - 1]) && SourceFits(w, prior[..|prior| - 1], prior[|prior| - 1])
  {
    hide SourceFits;
    var init := prior[..|prior| - 1];
    forall n | 0 <= n < |init| ensures SourceFits(w, init[..n], init[n]) {
      assert init[..n] == prior[..n];
    }
  }

  lemma {:induction false} SourceIndexed(w: Workspace, prior: seq<Source>, s: Source)
    requires SourcesOk(w, prior) && s in prior
    ensures s.rawPath in OldByRaw(prior) && OldByRaw(prior)[s.rawPath] == s.sourceID
    ensures s.sourceID in ReservedByID(prior) && ReservedByID(prior)[s.sourceID] == s.rawPath
  {
    hide SourcesOk, ValidSourceID;
    var init, last := prior[..|prior| - 1], prior[|prior| - 1];
    SourcesPrefix(w, prior);
    if s != last {
      assert prior == init + [last];
      SourceIndexed(w, init, s);
    }
  }

  lemma {:induction false} IndexedRaw(prior: seq<Source>, raw: string)
    requires raw in OldByRaw(prior)
    ensures exists s :: s in prior && s.rawPath == raw && s.sourceID == OldByRaw(prior)[raw]
  {
    var init, last := prior[..|prior| - 1], prior[|prior| - 1];
    if last.rawPath != raw {
      IndexedRaw(init, raw);
    }
  }

  lemma {:induction false} IndexedID(prior: seq<Source>, id: string)
    requires id in ReservedByID(prior)
    ensures exists s :: s in prior && s.sourceID == id && s.rawPath == ReservedByID(prior)[id]
  {
    var init, last := prior[..|prior| - 1], prior[|prior| - 1];
    if last.sourceID != id {
      IndexedID(init, id);
    }
  }

  /** The prior sources are valid, and IDs and raw paths correspond one to one. */
  ghost predicate SourcesAgree(w: Workspace, prior: seq<Source>) {
    && (forall s :: s in prior ==> ValidSourceID(s.sourceID) && w.safe(s.rawPath))
    && forall s, t :: s in prior && t in prior ==> (s.rawPath == t.rawPath <==> s.sourceID == t.sourceID)
  }

  lemma PriorSourcesExactly(w: Workspace, prior: seq<Source>)
    ensures SourcesOk(w, prior) <==> SourcesAgree(w, prior)
  {
    hide ValidSourceID, OldByRaw, ReservedByID;
    if SourcesOk(w, prior) {
      forall s | s in prior
        ensures ValidSourceID(s.sourceID) && w.safe(s.rawPath)
        ensures s.rawPath in OldByRaw(prior) && OldByRaw(prior)[s.rawPath] == s.sourceID
        ensures s.sourceID in ReservedByID(prior) && ReservedByID(prior)[s.sourceID] == s.rawPath
      {
        SourceIndexed(w, prior, s);
        var n :| 0 <= n < |prior| && prior[n] == s;
        assert SourceFits(w, prior[..n], prior[n]);
      }
    }
    if SourcesAgree(w, prior) {
      forall n | 0 <= n < |prior| ensures SourceFits(w, prior[..n], prior[n]) {
        var before, s := prior[..n], prior[n];
        if s.rawPath in OldByRaw(before) {
          IndexedRaw(before, s.rawPath);
        }
        if s.sourceID in ReservedByID(before) {
          IndexedID(before, s.sourceID);
        }
      }
    }
  }

  /** A generated source is valid, and keeps a new raw path away from the IDs of the known ones. */
  ghost predicate SourceAdmissible(w: Workspace, ids: IDMap, prior: seq<Source>, c: string)
    requires c in ids.source
  {
    && ValidSourceID(c) && SafeSourceSlug(ids.source[c]) && c in ids.sourceMeta
    && var meta := ids.sourceMeta[c];
       && TrimSpace(meta.sourceFile) != "" && w.safe(meta.sourceFile) && meta.slug == ids.source[c]
       && ((forall s :: s in prior ==> s.rawPath != meta.sourceFile) ==> forall s :: s in prior ==> s.sourceID != c)
  }

  lemma StableSourceIs(w: Workspace, ids: IDMap, prior: seq<Source>, c: string)
    requires SourcesOk(w, prior) && c in ids.sourceMeta
    ensures forall s :: s in prior && s.rawPath == ids.sourceMeta[c].sourceFile ==> StableSource(prior, ids, c) == s.sourceID
    ensures (forall s :: s in prior ==> s.rawPath != ids.sourceMeta[c].sourceFile) ==> StableSource(prior, ids, c) == c
  {
    hide SourcesOk, OldByRaw;
    var raw := ids.sourceMeta[c].sourceFile;
    forall s | s in prior && s.rawPath == raw ensures raw in OldByRaw(prior) && OldByRaw(prior)[raw] == s.sourceID {
      SourceIndexed(w, prior, s);
    }
    if raw in OldByRaw(prior) {
      IndexedRaw(prior, raw);
    }
  }

  lemma CurrentFitsExactly(w: Workspace, ids: IDMap, prior: seq<Source>, c: string)
    requires SourcesOk(w, prior) && c in ids.source
    ensures CurrentFits(w, prior, ids, c) <==> SourceAdmissible(w, ids, prior, c)
  {
    hide SourcesOk, ReservedByID, StableSource, ValidSourceID, SafeSourceSlug, TrimSpace;
    PriorSourcesExactly(w, prior);
    if c in ids.sourceMeta {
      StableSourceIs(w, ids, prior, c);
      var stable := StableSource(prior, ids, c);
      if stable in ReservedByID(prior) {
        IndexedID(prior, stable);
      }
      forall s | s in prior ensures s.sourceID in ReservedByID(prior) && ReservedByID(prior)[s.sourceID] == s.rawPath {
        SourceIndexed(w, prior, s);
      }
    }
  }

  /**
   * Source IDs can be given exactly when the prior sources agree, every generated one is valid and takes no known ID for
   * a new raw path, and no two have one raw path.
   */
  lemma SourcesFitExactly(w: Workspace, ids: IDMap, prior: seq<Source>)
    ensures SourcesOk(w, prior) && SourcesFit(w, prior, ids) <==>
              && SourcesAgree(w, prior) && ids.sourceMeta.Keys <= ids.source.Keys
              && (forall c :: c in ids.source ==> SourceAdmissible(w, ids, prior, c))
              && (forall c, d :: c in ids.sourceMeta && d in ids.sourceMeta && c != d ==>
                    ids.sourceMeta[c].sourceFile != ids.sourceMeta[d].sourceFile)
  {
    hide SourcesOk, CurrentFits, StableSource, SourcesAgree, SourceAdmissible;
    PriorSourcesExactly(w, prior);
    if SourcesOk(w, prior) {
      forall c | c in ids.source ensures CurrentFits(w, prior, ids, c) <==> SourceAdmissible(w, ids, prior, c) {
        CurrentFitsExactly(w, ids, prior, c);
      }
      forall c | c in ids.source && SourceAdmissible(w, ids, prior, c) ensures c in ids.sourceMeta {
        HasMeta(w, ids, prior, c);
      }
      if && ids.sourceMeta.Keys <= ids.source.Keys
         && (forall c :: c in ids.source ==> SourceAdmissible(w, ids, prior, c))
         && (forall c, d :: c in ids.sourceMeta && d in ids.sourceMeta && c != d ==>
               ids.sourceMeta[c].sourceFile != ids.sourceMeta[d].sourceFile)
      {
        forall c, d | c in ids.source && d in ids.source && c != d ensures StableSource(prior, ids, c) != StableSource(prior, ids, d) {
          StableSourcesDiffer(w, ids, prior, c, d);
        }
      }
    }
  }

  lemma HasMeta(w: Workspace, ids: IDMap, prior: seq<Source>, c: string)
    requires c in ids.source && SourceAdmissible(w, ids, prior, c)
    ensures c in ids.sourceMeta
  {
  }

  lemma StableSourcesDiffer(w: Workspace, ids: IDMap, prior: seq<Source>, c: string, d: string)
    requires SourcesOk(w, prior) && c in ids.source && d in ids.source && c != d
    requires SourceAdmissible(w, ids, prior, c) && SourceAdmissible(w, ids, prior, d)
    requires ids.sourceMeta[c].sourceFile != ids.sourceMeta[d].sourceFile
    ensures StableSource(prior, ids, c) != StableSource(prior, ids, d)
  {
    hide SourcesOk, StableSource, ValidSourceID, SafeSourceSlug, TrimSpace;
    PriorSourcesExactly(w, prior);
    StableSourceIs(w, ids, prior, c);
    StableSourceIs(w, ids, prior, d);
  }

  /** A generated source gets the ID that its raw path had, or keeps its own; its slug and its data go with it. */
  lemma SourceIDExactly(w: Workspace, ids: IDMap, prior: seq<Source>, out: IDMap, translated: map<string, string>, c: string)
    requires ReconcilesSources(w, ids, prior, out, translated) && c in ids.source
    ensures c in ids.sourceMeta && c in translated
    ensures forall s :: s in prior && s.rawPath == ids.sourceMeta[c].sourceFile ==> translated[c] == s.sourceID
    ensures (forall s :: s in prior ==> s.rawPath != ids.sourceMeta[c].sourceFile) ==> translated[c] == c
    ensures translated[c] in out.source && out.source[translated[c]] == ids.source[c]
    ensures translated[c] in out.sourceMeta && out.sourceMeta[translated[c]] == ids.sourceMeta[c]
  {
    hide SourcesOk, StableSource, CollisionFree, Rekeyed;
    assert CurrentFits(w, prior, ids, c);
    StableSourceIs(w, ids, prior, c);
  }

  /** Where an entry of the new map comes from. */
  lemma Origin(w: Workspace, ids: IDMap, prior: seq<Source>, out: IDMap, translated: map<string, string>, id: string) returns (c: string)
    requires ReconcilesSources(w, ids, prior, out, translated) && (id in out.source || id in out.sourceMeta)
    ensures c in ids.source && c in ids.sourceMeta && CurrentFits(w, prior, ids, c) && StableSource(prior, ids, c) == id
    ensures id in out.source && out.source[id] == ids.source[c]
    ensures id in out.sourceMeta && out.sourceMeta[id] == ids.sourceMeta[c]
  {
    hide CurrentFits, StableSource, SourcesOk, CollisionFree, Rekeyed;
    c :| c in translated && translated[c] == id;
  }

  /**
   * No ID, not even a tombstone's, ever moves to another raw path, and a raw path that was known keeps its ID.
   */
  lemma IDsKeepTheirRawPaths(w: Workspace, ids: IDMap, prior: seq<Source>, out: IDMap, translated: map<string, string>, s: Source)
    requires ReconcilesSources(w, ids, prior, out, translated) && s in prior
    ensures s.sourceID in out.sourceMeta ==> out.sourceMeta[s.sourceID].sourceFile == s.rawPath
    ensures forall id :: id in out.sourceMeta && out.sourceMeta[id].sourceFile == s.rawPath ==> id == s.sourceID
  {
    hide SourcesFit, SourcesOk, CollisionFree, Rekeyed, Carried, SafeSourceSlug, ValidSourceID, OldByRaw, ReservedByID;
    SourceIndexed(w, prior, s);
    if s.sourceID in out.sourceMeta {
      var c := Origin(w, ids, prior, out, translated, s.sourceID);
    }
    forall id | id in out.sourceMeta && out.sourceMeta[id].sourceFile == s.rawPath ensures id == s.sourceID {
      var c := Origin(w, ids, prior, out, translated, id);
    }
  }

  /** Each raw path has exactly one page. */
  lemma OnePagePerRawPath(w: Workspace, ids: IDMap, prior: seq<Source>, out: IDMap, translated: map<string, string>, a: string, b: string)
    requires ReconcilesSources(w, ids, prior, out, translated) && a in out.sourceMeta && b in out.sourceMeta
    requires out.sourceMeta[a].sourceFile == out.sourceMeta[b].sourceFile
    ensures a == b && a in out.source
  {
    hide CurrentFits, SourcesOk, CollisionFree, Rekeyed, Carried, StableSource;
    var c := Origin(w, ids, prior, out, translated, a);
    var d := Origin(w, ids, prior, out, translated, b);
  }

  /** A provable pair of a known raw path. */
  ghost predicate Regenerated(w: Workspace, ids: IDMap, prior: seq<Source>, raw: string, stable: string, transient: string) {
    && raw in OldByRaw(prior) && OldByRaw(prior)[raw] == stable
    && Others(ids, raw, stable, transient) && Provable(w, ids, stable, transient, raw)
    && transient in ids.sourceMeta
  }

  lemma FoldedHas(ids: IDMap, byRaw: map<string, string>, raws: set<string>, raw: string, stable: string, transient: string)
    requires raw in raws && raw in byRaw && byRaw[raw] == stable && Others(ids, raw, stable, transient)
    ensures stable in Folded(ids, byRaw, raws)
  {
    assert IDsOf(ids, raw) == {stable, transient};
    assert |{stable, transient}| == 2;
  }

  lemma TransientStays(w: Workspace, ids: IDMap, byRaw: map<string, string>, raws: set<string>, raw: string, stable: string, transient: string)
    requires raw in byRaw && byRaw[raw] == stable && Others(ids, raw, stable, transient)
    requires forall r :: r in raws && IsPair(ids, byRaw, r) ==> PairOk(w, ids, byRaw, r)
    ensures transient !in Folded(ids, byRaw, raws)
  {
    hide Provable;
    assert transient in IDsOf(ids, raw);
    forall r | r in raws && IsPair(ids, byRaw, r) ensures byRaw[r] != transient {
      assert PairOk(w, ids, byRaw, r);
      assert byRaw[r] in IDsOf(ids, r);
    }
  }

  lemma CollapsedPair(w: Workspace, ids: IDMap, prior: seq<Source>, mid: IDMap, removals: set<string>, raw: string, stable: string, transient: string)
    requires Collapses(w, ids, prior, mid, removals) && Regenerated(w, ids, prior, raw, stable, transient)
    ensures stable !in mid.source && stable !in mid.sourceMeta
    ensures transient in mid.source && mid.source[transient] == ids.source[transient]
    ensures transient in mid.sourceMeta && mid.sourceMeta[transient].sourceFile == raw
    ensures stable in mid.redirects && ids.source[stable] in mid.redirects[stable] && ids.source[stable] in removals
  {
    hide Provable, OldByRaw;
    var raws := set id | id in ids.sourceMeta :: ids.sourceMeta[id].sourceFile;
    var byRaw := OldByRaw(prior);
    assert transient in IDsOf(ids, raw) && stable in IDsOf(ids, raw);
    assert raw in raws;
    FoldedHas(ids, byRaw, raws, raw, stable, transient);
    TransientStays(w, ids, byRaw, raws, raw, stable, transient);
    ProvableHas(w, ids, stable, transient, raw);
  }

  lemma ProvableHas(w: Workspace, ids: IDMap, stable: string, transient: string, raw: string)
    requires Provable(w, ids, stable, transient, raw)
    ensures stable in ids.source && transient in ids.source
  {
  }

  /** A redirect key that is nobody's generated ID keeps its slugs. */
  lemma RedirectKept(m: map<string, seq<string>>, translated: map<string, string>, out: map<string, seq<string>>, id: string)
    requires Rekeyed(m, translated, out) && id in m && id !in translated
    ensures id in out && out[id] == m[id]
  {
    assert NormalizeTranslatedID(id, translated) == id;
  }

  /**
   * A provable regenerated pair ends as one source: the prior ID under the new slug, the old slug a redirect of that ID, and
   * the old page, which nobody has any more, removed.
   */
  lemma PairEndsAsOneSource(w: Workspace, ids: IDMap, prior: seq<Source>, mid: IDMap, removals: set<string>, out: IDMap,
                            translated: map<string, string>, raw: string, stable: string, transient: string)
    requires Collapses(w, ids, prior, mid, removals) && ReconcilesSources(w, mid, prior, out, translated)
    requires Regenerated(w, ids, prior, raw, stable, transient)
    ensures stable in out.source && out.source[stable] == ids.source[transient]
    ensures stable in out.sourceMeta && out.sourceMeta[stable].sourceFile == raw
    ensures stable in out.redirects && ids.source[stable] in out.redirects[stable]
    ensures ids.source[stable] in removals
  {
    hide Collapses, Regenerated, SourcesOk, SourcesFit, CollisionFree, Rekeyed;
    CollapsedPair(w, ids, prior, mid, removals, raw, stable, transient);
    assert translated == SourceTranslation(prior, mid);
    PriorOfPair(w, ids, prior, raw, stable, transient);
    assert translated[transient] == stable;
    RedirectKept(mid.redirects, translated, out.redirects, stable);
  }

  lemma PriorOfPair(w: Workspace, ids: IDMap, prior: seq<Source>, raw: string, stable: string, transient: string)
    requires Regenerated(w, ids, prior, raw, stable, transient)
    ensures raw in OldByRaw(prior) && OldByRaw(prior)[raw] == stable
  {
  }

  /** No page is both removed and written. */
  lemma RemovedPagesAreNotWritten(w: Workspace, ids: IDMap, prior: seq<Source>, mid: IDMap, removals: set<string>, out: IDMap,
                                  translated: map<string, string>)
    requires Collapses(w, ids, prior, mid, removals) && ReconcilesSources(w, mid, prior, out, translated)
    ensures removals !! out.source.Values
  {
    hide CurrentFits, StableSource, SourcesOk, SourcesFit, CollisionFree, Rekeyed, PairOk, ReconcilesSources, IsPair, OldByRaw;
    var raws := set id | id in ids.sourceMeta :: ids.sourceMeta[id].sourceFile;
    FoldedApart(w, ids, OldByRaw(prior), raws);
    forall slug | slug in removals ensures slug !in out.source.Values {
      var f :| f in Folded(ids, OldByRaw(prior), raws) && f in ids.source && ids.source[f] == slug;
      forall id | id in out.source ensures out.source[id] != slug {
        var c := Origin(w, mid, prior, out, translated, id);
        assert c in ids.source && c != f;
      }
    }
  }
}

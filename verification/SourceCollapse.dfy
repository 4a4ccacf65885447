/** Folding a regenerated source page into the page it replaces (cmd/olw_worker/source_reconcile.go). */
module SourceCollapse {
  import opened Options
  import opened WikiIndex
  import opened ConceptReconcile
  import opened SourceReconcile

  /** The IDs that the generated map gives to one raw path. */
  function IDsOf(ids: IDMap, raw: string): set<string> {
    set id | id in ids.sourceMeta && ids.sourceMeta[id].sourceFile == raw
  }

  /** Two IDs for a raw path that was known before. */
  predicate IsPair(ids: IDMap, byRaw: map<string, string>, raw: string) {
    |IDsOf(ids, raw)| == 2 && raw in byRaw
  }

  /** Two IDs of one raw path; the other one of a pair. */
  ghost predicate Others(ids: IDMap, raw: string, stable: string, transient: string) {
    IDsOf(ids, raw) == {stable, transient} && stable != transient
  }

  predicate Control(c: char) {
    c < ' ' || c == '\U{7f}'
  }

  predicate SafePageSlug(slug: string) {
    SafeSourceSlug(slug) && forall i :: 0 <= i < |slug| ==> !Control(slug[i])
  }

  /** No other source has the page of either. */
  predicate Apart(ids: IDMap, stable: string, transient: string)
    requires stable in ids.source && transient in ids.source
  {
    forall id :: id in ids.source ==>
      && (id != stable ==> ids.source[id] != ids.source[stable])
      && (id != transient ==> ids.source[id] != ids.source[transient])
  }

  /** The pair is provably one source: the prior ID's page and the page that was generated in its place. */
  predicate Provable(w: Workspace, ids: IDMap, stable: string, transient: string, raw: string) {
    && stable in ids.source && transient in ids.source
    && SafePageSlug(ids.source[stable]) && SafePageSlug(ids.source[transient])
    && ids.source[stable] != ids.source[transient]
    && w.sameSource(stable, transient, raw)
    && Apart(ids, stable, transient)
  }

  ghost predicate PairOk(w: Workspace, ids: IDMap, byRaw: map<string, string>, raw: string) {
    raw in byRaw && exists transient :: Others(ids, raw, byRaw[raw], transient) && Provable(w, ids, byRaw[raw], transient, raw)
  }

  /** The prior IDs whose pairs lie in `done`. */
  function Folded(ids: IDMap, byRaw: map<string, string>, done: set<string>): set<string> {
    set raw | raw in done && IsPair(ids, byRaw, raw) :: byRaw[raw]
  }

  function WithSlug(slugs: seq<string>, slug: string): seq<string> {
    if slug in slugs then slugs else slugs + [slug]
  }

  function SlugsAt(redirects: map<string, seq<string>>, id: string): seq<string> {
    if id in redirects then redirects[id] else []
  }

  /** The map without the folded entries, whose slugs live on as redirects. */
  ghost predicate IsFolded(ids: IDMap, folded: set<string>, out: IDMap) {
    && out.source == ids.source - folded && out.sourceMeta == ids.sourceMeta - folded
    && out.redirects.Keys == ids.redirects.Keys + folded
    && (forall id :: id in out.redirects ==>
          out.redirects[id]
          == if id in folded && id in ids.source then WithSlug(SlugsAt(ids.redirects, id), ids.source[id]) else SlugsAt(ids.redirects, id))
    && out == ids.(source := out.source, sourceMeta := out.sourceMeta, redirects := out.redirects)
  }

  /** What collapsing gives, if it succeeds. */
  ghost predicate Collapses(w: Workspace, ids: IDMap, prior: seq<Source>, out: IDMap, removals: set<string>) {
    var byRaw := OldByRaw(prior);
    && (forall i :: 0 <= i < |prior| ==> ValidSourceID(prior[i].sourceID) && w.safe(prior[i].rawPath))
    && ids.sourceMeta.Keys <= ids.source.Keys
    && var raws := set id | id in ids.sourceMeta :: ids.sourceMeta[id].sourceFile;
       && (forall raw :: raw in raws && IsPair(ids, byRaw, raw) ==> PairOk(w, ids, byRaw, raw))
       && IsFolded(ids, Folded(ids, byRaw, raws), out)
       && removals == set id | id in Folded(ids, byRaw, raws) && id in ids.source :: ids.source[id]
  }

  method IndexPrior(w: Workspace, prior: seq<Source>) returns (ok: bool, byRaw: map<string, string>)
    ensures ok <==> forall i :: 0 <= i < |prior| ==> ValidSourceID(prior[i].sourceID) && w.safe(prior[i].rawPath)
    ensures ok ==> byRaw == OldByRaw(prior)
  {
    hide ValidSourceID;
    byRaw := map[];
    for n := 0 to |prior|
      invariant forall i :: 0 <= i < n ==> ValidSourceID(prior[i].sourceID) && w.safe(prior[i].rawPath)
      invariant byRaw == OldByRaw(prior[..n])
    {
      assert prior[..n + 1][..n] == prior[..n];
      if !ValidSourceID(prior[n].sourceID) || !w.safe(prior[n].rawPath) {
        return false, byRaw;
      }
      byRaw := byRaw[prior[n].rawPath := prior[n].sourceID];
    }
    assert prior[..|prior|] == prior;
    ok := true;
  }

  /** The other ID of a pair, or None when the prior ID is not one of them. */
  method OtherOf(ids: IDMap, raw: string, stable: string) returns (r: Option<string>)
    requires |IDsOf(ids, raw)| == 2
    ensures r.Some? ==> Others(ids, raw, stable, r.value)
    ensures r.None? ==> forall t :: !Others(ids, raw, stable, t)
  {
    var both := IDsOf(ids, raw);
    if stable !in both {
      return None;
    }
    var rest := both - {stable};
    assert |rest| == 1;
    var t :| t in rest;
    assert rest == {t} by {
      if x :| x in rest && x != t {
        TwoElements(rest, x, t);
      }
    }
    assert both == rest + {stable};
    r := Some(t);
  }

  lemma TwoElements(s: set<string>, x: string, y: string)
    requires x in s && y in s && x != y
    ensures |s| >= 2
  {
    assert {x, y} <= s;
    SubsetSize({x, y}, s);
  }

  lemma OthersOnce(ids: IDMap, raw: string, stable: string, t: string, t': string)
    requires Others(ids, raw, stable, t) && Others(ids, raw, stable, t')
    ensures t == t'
  {
    assert t in IDsOf(ids, raw) && t' in IDsOf(ids, raw);
  }

  /** No source that is still there has the page of either. */
  method CheckApart(source: map<string, string>, stable: string, transient: string) returns (ok: bool)
    requires stable in source && transient in source
    ensures ok <==> forall id :: id in source ==>
              (id != stable ==> source[id] != source[stable]) && (id != transient ==> source[id] != source[transient])
  {
    var todo := source.Keys;
    while todo != {}
      invariant todo <= source.Keys
      invariant forall id :: id in source && id !in todo ==>
        (id != stable ==> source[id] != source[stable]) && (id != transient ==> source[id] != source[transient])
    {
      var id :| id in todo;
      if (id != stable && source[id] == source[stable]) || (id != transient && source[id] == source[transient]) {
        return false;
      }
      todo := todo - {id};
    }
    ok := true;
  }

  /** Removing folded entries first does not hide a collision. */
  lemma ApartAmongRest(ids: IDMap, folded: set<string>, stable: string, transient: string)
    requires stable in ids.source && transient in ids.source && stable !in folded && transient !in folded
    requires forall f, id :: f in folded && f in ids.source && id in ids.source && id != f ==> ids.source[id] != ids.source[f]
    ensures var source := ids.source - folded;
            Apart(ids, stable, transient) <==> forall id :: id in source ==>
              (id != stable ==> source[id] != source[stable]) && (id != transient ==> source[id] != source[transient])
  {
    var source := ids.source - folded;
    if forall id :: id in source ==>
         (id != stable ==> source[id] != source[stable]) && (id != transient ==> source[id] != source[transient]) {
      forall id | id in ids.source
        ensures (id != stable ==> ids.source[id] != ids.source[stable]) && (id != transient ==> ids.source[id] != ids.source[transient])
      {
        if id !in folded {
          assert source[id] == ids.source[id];
        }
      }
    }
  }

  lemma FoldOne(ids: IDMap, folded: set<string>, out: IDMap, stable: string, out': IDMap)
    requires IsFolded(ids, folded, out) && stable in ids.source && stable !in folded
    requires out' == out.(source := out.source - {stable}, sourceMeta := out.sourceMeta - {stable},
                          redirects := out.redirects[stable := WithSlug(SlugsAt(out.redirects, stable), ids.source[stable])])
    ensures IsFolded(ids, folded + {stable}, out')
  {
    assert out'.source == ids.source - (folded + {stable});
    assert out'.sourceMeta == ids.sourceMeta - (folded + {stable});
    forall id | id in out'.redirects
      ensures out'.redirects[id]
              == if id in folded + {stable} && id in ids.source then WithSlug(SlugsAt(ids.redirects, id), ids.source[id])
                 else SlugsAt(ids.redirects, id)
    {
      if id != stable {
        assert out'.redirects[id] == out.redirects[id];
      }
    }
  }

  /** Appending the old slug to the redirects of its ID, unless it is there. */
  method AppendSlug(redirects: map<string, seq<string>>, id: string, slug: string) returns (r: map<string, seq<string>>)
    ensures r == redirects[id := WithSlug(SlugsAt(redirects, id), slug)]
  {
    var slugs := SlugsAt(redirects, id);
    var redirected := false;
    for n := 0 to |slugs|
      invariant redirected <==> slug in slugs[..n]
    {
      assert slugs[..n + 1] == slugs[..n] + [slugs[n]];
      if slugs[n] == slug {
        redirected := true;
      }
    }
    assert slugs[..|slugs|] == slugs;
    r := if redirected then redirects else redirects[id := slugs + [slug]];
    if redirected {
      assert redirects[id := slugs] == redirects;
    }
  }

  /** The folded entries belong to the raw paths dealt with. */
  lemma FoldedElsewhere(w: Workspace, ids: IDMap, byRaw: map<string, string>, done: set<string>, raw: string, id: string)
    requires raw !in done && id in IDsOf(ids, raw)
    requires forall r :: r in done && IsPair(ids, byRaw, r) ==> PairOk(w, ids, byRaw, r)
    ensures id !in Folded(ids, byRaw, done)
  {
    hide Provable;
    forall r | r in done && IsPair(ids, byRaw, r) ensures byRaw[r] != id {
      assert PairOk(w, ids, byRaw, r);
      assert byRaw[r] in IDsOf(ids, r);
    }
  }

  lemma FoldedApart(w: Workspace, ids: IDMap, byRaw: map<string, string>, done: set<string>)
    requires forall r :: r in done && IsPair(ids, byRaw, r) ==> PairOk(w, ids, byRaw, r)
    ensures forall f, id :: f in Folded(ids, byRaw, done) && f in ids.source && id in ids.source && id != f ==>
              ids.source[id] != ids.source[f]
  {
    hide IsPair, SafePageSlug, Others;
    forall f, id | f in Folded(ids, byRaw, done) && f in ids.source && id in ids.source && id != f
      ensures ids.source[id] != ids.source[f]
    {
      var r :| r in done && IsPair(ids, byRaw, r) && byRaw[r] == f;
      assert PairOk(w, ids, byRaw, r);
    }
  }

  /** Whether one pair can be folded, looking at the sources that are still there. */
  method CheckPair(w: Workspace, ids: IDMap, byRaw: map<string, string>, ghost done: set<string>, source: map<string, string>, raw: string)
    returns (ok: bool)
    requires IsPair(ids, byRaw, raw) && raw !in done && ids.sourceMeta.Keys <= ids.source.Keys
    requires source == ids.source - Folded(ids, byRaw, done)
    requires forall r :: r in done && IsPair(ids, byRaw, r) ==> PairOk(w, ids, byRaw, r)
    ensures ok <==> PairOk(w, ids, byRaw, raw)
    ensures ok ==> byRaw[raw] in source
  {
    hide SafePageSlug;
    var stable := byRaw[raw];
    var other := OtherOf(ids, raw, stable);
    if other == None {
      return false;
    }
    var transient := other.value;
    assert stable in IDsOf(ids, raw) && transient in IDsOf(ids, raw);
    FoldedElsewhere(w, ids, byRaw, done, raw, stable);
    FoldedElsewhere(w, ids, byRaw, done, raw, transient);
    FoldedApart(w, ids, byRaw, done);
    ApartAmongRest(ids, Folded(ids, byRaw, done), stable, transient);
    var apart := CheckApart(source, stable, transient);
    ok := SafePageSlug(source[stable]) && SafePageSlug(source[transient]) && source[stable] != source[transient]
          && w.sameSource(stable, transient, raw) && apart;
    ProvableIs(w, ids, byRaw, raw, transient);
  }

  lemma ProvableIs(w: Workspace, ids: IDMap, byRaw: map<string, string>, raw: string, transient: string)
    requires raw in byRaw && Others(ids, raw, byRaw[raw], transient)
    ensures PairOk(w, ids, byRaw, raw) <==> Provable(w, ids, byRaw[raw], transient, raw)
  {
    hide Provable;
    forall t | Others(ids, raw, byRaw[raw], t) ensures t == transient {
      OthersOnce(ids, raw, byRaw[raw], t, transient);
    }
  }

  method CollapseRegeneration(w: Workspace, ids: IDMap, prior: seq<Source>) returns (r: Option<(IDMap, set<string>)>)
    ensures r.Some? ==> Collapses(w, ids, prior, r.value.0, r.value.1)
    ensures r.None? ==> forall out, removals :: !Collapses(w, ids, prior, out, removals)
  {
    hide PairOk, IsFolded, OldByRaw, ValidSourceID, IsPair;
    var ok, byRaw := IndexPrior(w, prior);
    if !ok {
      return None;
    }
    if !(ids.sourceMeta.Keys <= ids.source.Keys) {
      return None;
    }
    var raws := set id | id in ids.sourceMeta :: ids.sourceMeta[id].sourceFile;
    var out, removals := ids, {};
    NothingFolded(ids, byRaw);
    var todo := raws;
    assert raws - todo == {};
    while todo != {}
      invariant todo <= raws
      invariant forall raw :: raw in raws - todo && IsPair(ids, byRaw, raw) ==> PairOk(w, ids, byRaw, raw)
      invariant IsFolded(ids, Folded(ids, byRaw, raws - todo), out)
      invariant removals == set id | id in Folded(ids, byRaw, raws - todo) && id in ids.source :: ids.source[id]
    {
      var raw :| raw in todo;
      ghost var done := raws - todo;
      if !IsPair(ids, byRaw, raw) {
        FoldedSkip(ids, byRaw, done, raw);
      } else {
        FoldedSource(ids, Folded(ids, byRaw, done), out);
        ok := CheckPair(w, ids, byRaw, done, out.source, raw);
        if !ok {
          return None;
        }
        PairIsThere(ids, byRaw, raw);
        var stable := byRaw[raw];
        var slug := out.source[stable];
        var redirects := AppendSlug(out.redirects, stable, slug);
        ghost var before := out;
        out := out.(source := out.source - {stable}, sourceMeta := out.sourceMeta - {stable}, redirects := redirects);
        FoldOne(ids, Folded(ids, byRaw, done), before, stable, out);
        FoldedMore(ids, byRaw, done, raw);
        removals := removals + {slug};
      }
      todo := todo - {raw};
      assert raws - todo == done + {raw};
    }
    assert raws - todo == raws;
    r := Some((out, removals));
  }

  lemma NothingFolded(ids: IDMap, byRaw: map<string, string>)
    ensures Folded(ids, byRaw, {}) == {} && IsFolded(ids, {}, ids)
  {
  }

  lemma FoldedSource(ids: IDMap, folded: set<string>, out: IDMap)
    requires IsFolded(ids, folded, out)
    ensures out.source == ids.source - folded
  {
  }

  lemma FoldedSkip(ids: IDMap, byRaw: map<string, string>, done: set<string>, raw: string)
    requires !IsPair(ids, byRaw, raw)
    ensures Folded(ids, byRaw, done + {raw}) == Folded(ids, byRaw, done)
  {
  }

  lemma FoldedMore(ids: IDMap, byRaw: map<string, string>, done: set<string>, raw: string)
    requires IsPair(ids, byRaw, raw)
    ensures Folded(ids, byRaw, done + {raw}) == Folded(ids, byRaw, done) + {byRaw[raw]}
  {
  }

  lemma PairIsThere(ids: IDMap, byRaw: map<string, string>, raw: string)
    requires IsPair(ids, byRaw, raw)
    ensures raw in byRaw
  {
  }
}

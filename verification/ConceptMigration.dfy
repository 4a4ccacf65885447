/** How concepts from before entity IDs find their entities (cmd/olw_worker/concept_reconcile.go). */
module ConceptMigration {
  import opened Options
  import opened Texts
  import opened ByteStrings
  import opened WikiIndex
  import opened ConceptReconcile
  import opened SyntoEntities

  // ---- Redirects from legacy IDs to entities ----

  type Pairs = set<(string, string)>

  function SlugKey(f: Letters, slug: string): string {
    f.lower(TrimSpace(slug))
  }

  /** Every generated concept is an entity with a safe slug, and folded slugs are distinct. */
  predicate DirectConceptsOk(f: Letters, concept: map<string, string>) {
    && (forall e :: e in concept ==> ValidSyntoEntityID(e) && SafeConceptSlug(concept[e]))
    && forall d, e :: d in concept && e in concept && SlugKey(f, concept[d]) == SlugKey(f, concept[e]) ==> d == e
  }

  ghost predicate BySlug(f: Letters, concept: map<string, string>, bySlug: map<string, string>) {
    && (forall e :: e in concept ==> SlugKey(f, concept[e]) in bySlug && bySlug[SlugKey(f, concept[e])] == e)
    && forall k :: k in bySlug ==> bySlug[k] in concept && SlugKey(f, concept[bySlug[k]]) == k
  }

  method IndexBySlug(f: Letters, concept: map<string, string>) returns (r: Option<map<string, string>>)
    ensures r.Some? <==> DirectConceptsOk(f, concept)
    ensures r.Some? ==> BySlug(f, concept, r.value)
  {
    hide ValidSyntoEntityID, SafeConceptSlug, SlugKey;
    var bySlug: map<string, string> := map[];
    var todo := concept.Keys;
    while todo != {}
      invariant todo <= concept.Keys
      invariant forall e :: e in concept && e !in todo ==>
        && ValidSyntoEntityID(e) && SafeConceptSlug(concept[e])
        && SlugKey(f, concept[e]) in bySlug && bySlug[SlugKey(f, concept[e])] == e
      invariant forall k :: k in bySlug ==> bySlug[k] in concept && bySlug[k] !in todo && SlugKey(f, concept[bySlug[k]]) == k
    {
      var e :| e in todo;
      if !ValidSyntoEntityID(e) || !SafeConceptSlug(concept[e]) {
        return None;
      }
      var key := SlugKey(f, concept[e]);
      if key in bySlug && bySlug[key] != e {
        return None;
      }
      bySlug := bySlug[key := e];
      todo := todo - {e};
    }
    r := Some(bySlug);
  }

  function Trimmed(redirects: map<string, string>): Pairs {
    set source | source in redirects :: (source, TrimSpace(redirects[source]))
  }

  /** An active legacy concept whose slug lives on redirects to the slug's entity. */
  function OwnRedirect(f: Letters, bySlug: map<string, string>, row: Row): Pairs {
    var key := SlugKey(f, row.slug);
    if key in bySlug && row.conceptID != bySlug[key] && !ValidSyntoEntityID(row.conceptID) then {(row.conceptID, bySlug[key])} else {}
  }

  /** All redirects that the rows ask for. */
  function Wanted(f: Letters, bySlug: map<string, string>, prior: seq<Row>): Pairs {
    if prior == [] then {}
    else
      var last := prior[|prior| - 1];
      Wanted(f, bySlug, prior[..|prior| - 1])
      + if last.dormant then {} else Trimmed(last.idRedirects) + OwnRedirect(f, bySlug, last)
  }

  predicate PairOk(concept: map<string, string>, p: (string, string)) {
    p.0 !in concept && ValidLegacyConceptID(p.0) && ValidSyntoEntityID(p.1)
  }

  predicate Consistent(pairs: Pairs, concept: map<string, string>) {
    && (forall p :: p in pairs ==> PairOk(concept, p))
    && forall p, q :: p in pairs && q in pairs && p.0 == q.0 ==> p == q
  }

  /** The map holds just these pairs. */
  ghost predicate Holds(redirects: map<string, string>, pairs: Pairs) {
    && (forall p :: p in pairs ==> p.0 in redirects && redirects[p.0] == p.1)
    && forall source :: source in redirects ==> (source, redirects[source]) in pairs
  }

  method AddRedirect(concept: map<string, string>, redirects: map<string, string>, source: string, target: string, ghost pairs: Pairs)
    returns (r: Option<map<string, string>>)
    requires Consistent(pairs, concept) && Holds(redirects, pairs)
    ensures r.Some? <==> Consistent(pairs + {(source, TrimSpace(target))}, concept)
    ensures r.Some? ==> Holds(r.value, pairs + {(source, TrimSpace(target))})
  {
    hide ValidLegacyConceptID, ValidSyntoEntityID, TrimSpace;
    ghost var p := (source, TrimSpace(target));
    assert p in pairs + {p};
    if source in concept || !ValidLegacyConceptID(source) {
      assert !PairOk(concept, p);
      return None;
    }
    if !ValidSyntoEntityID(TrimSpace(target)) {
      assert !PairOk(concept, p);
      return None;
    }
    if source in redirects && redirects[source] != TrimSpace(target) {
      assert (source, redirects[source]) in pairs + {p};
      return None;
    }
    r := Some(redirects[source := TrimSpace(target)]);
  }

  lemma ConsistentPart(a: Pairs, b: Pairs, concept: map<string, string>)
    requires a <= b && Consistent(b, concept)
    ensures Consistent(a, concept)
  {
  }

  method AddRedirects(concept: map<string, string>, redirects: map<string, string>, more: map<string, string>, ghost pairs: Pairs)
    returns (r: Option<map<string, string>>)
    requires Consistent(pairs, concept) && Holds(redirects, pairs)
    ensures r.Some? <==> Consistent(pairs + Trimmed(more), concept)
    ensures r.Some? ==> Holds(r.value, pairs + Trimmed(more))
  {
    hide Consistent, Holds, TrimSpace;
    var out := redirects;
    var todo := more.Keys;
    ghost var sofar := pairs;
    while todo != {}
      invariant todo <= more.Keys
      invariant sofar == pairs + set source | source in more && source !in todo :: (source, TrimSpace(more[source]))
      invariant Consistent(sofar, concept) && Holds(out, sofar)
    {
      var source :| source in todo;
      var next := AddRedirect(concept, out, source, more[source], sofar);
      sofar := sofar + {(source, TrimSpace(more[source]))};
      if next == None {
        if Consistent(pairs + Trimmed(more), concept) {
          ConsistentPart(sofar, pairs + Trimmed(more), concept);
        }
        return None;
      }
      out := next.value;
      todo := todo - {source};
    }
    assert sofar == pairs + Trimmed(more);
    r := Some(out);
  }

  predicate ActiveRowsOk(prior: seq<Row>) {
    forall i :: 0 <= i < |prior| && !prior[i].dormant ==> ValidSourceID(prior[i].conceptID) && SafeConceptSlug(prior[i].slug)
  }

  method AddRow(f: Letters, bySlug: map<string, string>, concept: map<string, string>, redirects: map<string, string>, row: Row,
                ghost pairs: Pairs) returns (r: Option<map<string, string>>)
    requires Consistent(pairs, concept) && Holds(redirects, pairs) && !row.dormant
    requires BySlug(f, concept, bySlug) && DirectConceptsOk(f, concept)
    ensures r.Some? <==> Consistent(pairs + (Trimmed(row.idRedirects) + OwnRedirect(f, bySlug, row)), concept)
    ensures r.Some? ==> Holds(r.value, pairs + (Trimmed(row.idRedirects) + OwnRedirect(f, bySlug, row)))
  {
    hide Consistent, Holds, TrimSpace, ValidSyntoEntityID, ValidLegacyConceptID, Trimmed, SafeConceptSlug;
    ghost var all := pairs + (Trimmed(row.idRedirects) + OwnRedirect(f, bySlug, row));
    ghost var first := pairs + Trimmed(row.idRedirects);
    r := AddRedirects(concept, redirects, row.idRedirects, pairs);
    if r == None {
      if Consistent(all, concept) {
        ConsistentPart(first, all, concept);
      }
      return;
    }
    var key := SlugKey(f, row.slug);
    if key !in bySlug || row.conceptID == bySlug[key] || ValidSyntoEntityID(row.conceptID) {
      assert all == first;
      return;
    }
    EntityIDIsPlain(bySlug[key]);
    assert all == first + {(row.conceptID, bySlug[key])};
    if !ValidLegacyConceptID(row.conceptID) {
      LegacyNeeded(all, concept, row.conceptID, bySlug[key]);
      return None;
    }
    r := AddRedirect(concept, r.value, row.conceptID, bySlug[key], first);
  }

  lemma LegacyNeeded(pairs: Pairs, concept: map<string, string>, source: string, target: string)
    requires (source, target) in pairs && !ValidLegacyConceptID(source)
    ensures !Consistent(pairs, concept)
  {
    assert !PairOk(concept, (source, target));
  }

  predicate AllLive(redirects: map<string, string>, concept: map<string, string>) {
    forall source :: source in redirects ==> redirects[source] !in redirects && redirects[source] in concept
  }

  method CheckLive(redirects: map<string, string>, concept: map<string, string>) returns (ok: bool)
    ensures ok <==> AllLive(redirects, concept)
  {
    var todo := redirects.Keys;
    while todo != {}
      invariant todo <= redirects.Keys
      invariant forall source :: source in redirects && source !in todo ==>
        redirects[source] !in redirects && redirects[source] in concept
    {
      var source :| source in todo;
      if redirects[source] in redirects || redirects[source] !in concept {
        return false;
      }
      todo := todo - {source};
    }
    ok := true;
  }

  ghost predicate Migrates(f: Letters, generated: IDMap, prior: seq<Row>, bySlug: map<string, string>, redirects: map<string, string>) {
    && DirectConceptsOk(f, generated.concept) && BySlug(f, generated.concept, bySlug) && ActiveRowsOk(prior)
    && AllLive(redirects, generated.concept)
    && var pairs := Trimmed(generated.idRedirects) + Wanted(f, bySlug, prior);
       Consistent(pairs, generated.concept) && Holds(redirects, pairs)
  }

  method PlanDirectRedirects(f: Letters, generated: IDMap, prior: seq<Row>) returns (r: Option<map<string, string>>, ghost bySlug: map<string, string>)
    ensures r.Some? ==> Migrates(f, generated, prior, bySlug, r.value)
    ensures r.None? ==> forall k, redirects :: !Migrates(f, generated, prior, k, redirects)
  {
    hide Consistent, Holds, BySlug, DirectConceptsOk, Trimmed, OwnRedirect, Wanted, ValidSourceID, SafeConceptSlug, AllLive;
    bySlug := map[];
    var slugs := IndexBySlug(f, generated.concept);
    if slugs == None {
      return None, bySlug;
    }
    bySlug := slugs.value;
    forall k | BySlug(f, generated.concept, k) ensures k == bySlug {
      BySlugOnce(f, generated.concept, bySlug, k);
    }
    NothingIsConsistent(generated.concept);
    ghost var want := Trimmed(generated.idRedirects);
    assert {} + want == want;
    r := AddRedirects(generated.concept, map[], generated.idRedirects, {});
    ghost var all := want + Wanted(f, bySlug, prior);
    if r == None {
      if Consistent(all, generated.concept) {
        ConsistentPart(want, all, generated.concept);
      }
      return;
    }
    NothingIsWanted(f, bySlug);
    assert prior[..0] == [] && want + {} == want;
    for n := 0 to |prior|
      invariant r.Some? && ActiveRowsOk(prior[..n])
      invariant Consistent(want + Wanted(f, bySlug, prior[..n]), generated.concept)
      invariant Holds(r.value, want + Wanted(f, bySlug, prior[..n]))
    {
      WantedNext(f, bySlug, prior, n);
      WantedGrows(f, bySlug, prior, n + 1);
      if prior[n].dormant {
        assert Wanted(f, bySlug, prior[..n + 1]) == Wanted(f, bySlug, prior[..n]);
        continue;
      }
      if !ValidSourceID(prior[n].conceptID) || !SafeConceptSlug(prior[n].slug) {
        return None, bySlug;
      }
      ghost var before := want + Wanted(f, bySlug, prior[..n]);
      r := AddRow(f, slugs.value, generated.concept, r.value, prior[n], before);
      assert want + Wanted(f, bySlug, prior[..n + 1])
          == before + (Trimmed(prior[n].idRedirects) + OwnRedirect(f, bySlug, prior[n]));
      if r == None {
        if Consistent(all, generated.concept) {
          ConsistentPart(want + Wanted(f, bySlug, prior[..n + 1]), all, generated.concept);
        }
        return;
      }
    }
    assert prior[..|prior|] == prior;
    var ok := CheckLive(r.value, generated.concept);
    if !ok {
      forall redirects | Holds(redirects, all) ensures redirects == r.value {
        HoldsOnce(r.value, redirects, all);
      }
      return None, bySlug;
    }
  }

  lemma NothingIsWanted(f: Letters, bySlug: map<string, string>)
    ensures Wanted(f, bySlug, []) == {}
  {
  }

  lemma WantedNext(f: Letters, bySlug: map<string, string>, prior: seq<Row>, n: nat)
    requires n < |prior|
    ensures Wanted(f, bySlug, prior[..n + 1]) == Wanted(f, bySlug, prior[..n])
              + if prior[n].dormant then {} else Trimmed(prior[n].idRedirects) + OwnRedirect(f, bySlug, prior[n])
  {
    hide OwnRedirect, Trimmed;
    assert prior[..n + 1][..n] == prior[..n];
  }

  lemma NothingIsConsistent(concept: map<string, string>)
    ensures Consistent({}, concept) && Holds(map[], {})
  {
  }

  lemma BySlugOnce(f: Letters, concept: map<string, string>, a: map<string, string>, b: map<string, string>)
    requires BySlug(f, concept, a) && BySlug(f, concept, b)
    ensures a == b
  {
    hide SlugKey;
  }

  lemma HoldsOnce(a: map<string, string>, b: map<string, string>, pairs: Pairs)
    requires Holds(a, pairs) && Holds(b, pairs)
    ensures a == b
  {
    forall s | s in a ensures s in b && b[s] == a[s] {
      assert (s, a[s]) in pairs;
    }
    forall s | s in b ensures s in a {
      assert (s, b[s]) in pairs;
    }
  }

  lemma {:induction false} WantedGrows(f: Letters, bySlug: map<string, string>, prior: seq<Row>, n: nat)
    requires n <= |prior|
    ensures Wanted(f, bySlug, prior[..n]) <= Wanted(f, bySlug, prior)
    decreases |prior| - n
  {
    if n == |prior| {
      assert prior[..n] == prior;
    } else {
      assert prior[..n + 1][..n] == prior[..n];
      WantedGrows(f, bySlug, prior, n + 1);
    }
  }

  lemma {:induction false} WantedBy(f: Letters, bySlug: map<string, string>, prior: seq<Row>, row: Row)
    requires row in prior && !row.dormant
    ensures OwnRedirect(f, bySlug, row) + Trimmed(row.idRedirects) <= Wanted(f, bySlug, prior)
  {
    hide OwnRedirect, Trimmed;
    var init, last := prior[..|prior| - 1], prior[|prior| - 1];
    if row != last {
      assert prior == init + [last];
      WantedBy(f, bySlug, init, row);
    }
  }

  lemma {:induction false} WantedFrom(f: Letters, bySlug: map<string, string>, prior: seq<Row>, p: (string, string)) returns (row: Row)
    requires p in Wanted(f, bySlug, prior)
    ensures row in prior && !row.dormant && (p in OwnRedirect(f, bySlug, row) || p in Trimmed(row.idRedirects))
  {
    hide OwnRedirect, Trimmed;
    var init, last := prior[..|prior| - 1], prior[|prior| - 1];
    if !last.dormant && p in Trimmed(last.idRedirects) + OwnRedirect(f, bySlug, last) {
      row := last;
    } else {
      row := WantedFrom(f, bySlug, init, p);
    }
  }

  /**
   * What redirects a migration gives: those of the generated map and of the active prior concepts, their targets trimmed, and
   * from each active legacy ID to the entity that has its folded slug now.
   */
  ghost predicate Asked(f: Letters, generated: IDMap, prior: seq<Row>, source: string, target: string) {
    || (source in generated.idRedirects && TrimSpace(generated.idRedirects[source]) == target)
    || exists row :: row in prior && !row.dormant && AskedBy(f, generated, row, source, target)
  }

  predicate AskedBy(f: Letters, generated: IDMap, row: Row, source: string, target: string) {
    || (source in row.idRedirects && TrimSpace(row.idRedirects[source]) == target)
    || (source == row.conceptID && !ValidSyntoEntityID(source) && target in generated.concept
        && f.lower(TrimSpace(generated.concept[target])) == f.lower(TrimSpace(row.slug)))
  }

  lemma AskedAndWanted(f: Letters, generated: IDMap, bySlug: map<string, string>, row: Row, source: string, target: string)
    requires DirectConceptsOk(f, generated.concept) && BySlug(f, generated.concept, bySlug)
    ensures AskedBy(f, generated, row, source, target) <==> (source, target) in OwnRedirect(f, bySlug, row) + Trimmed(row.idRedirects)
  {
    hide ValidSyntoEntityID, SafeConceptSlug, TrimSpace;
    if target in generated.concept {
      assert ValidSyntoEntityID(target);
    }
  }

  lemma RedirectsExactly(f: Letters, generated: IDMap, prior: seq<Row>, bySlug: map<string, string>, redirects: map<string, string>,
                         source: string, target: string)
    requires Migrates(f, generated, prior, bySlug, redirects)
    ensures source in redirects && redirects[source] == target <==> Asked(f, generated, prior, source, target)
  {
    hide AllLive, DirectConceptsOk, BySlug, ActiveRowsOk, OwnRedirect, AskedBy, TrimSpace, Wanted, Consistent;
    var pairs := Trimmed(generated.idRedirects) + Wanted(f, bySlug, prior);
    if (source, target) in Wanted(f, bySlug, prior) {
      var row := WantedFrom(f, bySlug, prior, (source, target));
      AskedAndWanted(f, generated, bySlug, row, source, target);
    }
    if row :| row in prior && !row.dormant && AskedBy(f, generated, row, source, target) {
      AskedAndWanted(f, generated, bySlug, row, source, target);
      WantedBy(f, bySlug, prior, row);
    }
    assert (source, target) in Trimmed(generated.idRedirects) <==>
      source in generated.idRedirects && TrimSpace(generated.idRedirects[source]) == target;
  }

  /** A migration goes through exactly when all that is asked for is valid, unambiguous, and leads to a live entity. */
  lemma MigratesExactly(f: Letters, generated: IDMap, prior: seq<Row>, redirects: map<string, string>)
    ensures (exists bySlug :: Migrates(f, generated, prior, bySlug, redirects)) <==>
              && (forall e :: e in generated.concept ==> ValidSyntoEntityID(e) && SafeConceptSlug(generated.concept[e]))
              && (forall d, e :: d in generated.concept && e in generated.concept && d != e ==>
                    f.lower(TrimSpace(generated.concept[d])) != f.lower(TrimSpace(generated.concept[e])))
              && (forall row :: row in prior && !row.dormant ==> ValidSourceID(row.conceptID) && SafeConceptSlug(row.slug))
              && (forall s, t :: Asked(f, generated, prior, s, t) <==> s in redirects && redirects[s] == t)
              && (forall s :: s in redirects ==>
                    && s !in generated.concept && ValidLegacyConceptID(s)
                    && redirects[s] in generated.concept && redirects[s] !in redirects)
  {
    hide ValidSyntoEntityID, SafeConceptSlug, TrimSpace, ValidLegacyConceptID, ValidSourceID, Asked, Wanted, BySlug;
    if bySlug :| Migrates(f, generated, prior, bySlug, redirects) {
      forall s, t ensures Asked(f, generated, prior, s, t) <==> s in redirects && redirects[s] == t {
        RedirectsExactly(f, generated, prior, bySlug, redirects, s, t);
      }
      forall s | s in redirects ensures s !in generated.concept && ValidLegacyConceptID(s) {
        DirectRedirectsAreFlat(f, generated, prior, bySlug, redirects, s);
      }
      RowsAreOk(prior);
    }
    if && (forall e :: e in generated.concept ==> ValidSyntoEntityID(e) && SafeConceptSlug(generated.concept[e]))
       && (forall d, e :: d in generated.concept && e in generated.concept && SlugKey(f, generated.concept[d]) == SlugKey(f, generated.concept[e]) ==> d == e)
       && (forall row :: row in prior && !row.dormant ==> ValidSourceID(row.conceptID) && SafeConceptSlug(row.slug))
       && (forall s, t :: Asked(f, generated, prior, s, t) <==> s in redirects && redirects[s] == t)
       && (forall s :: s in redirects ==>
             && s !in generated.concept && ValidLegacyConceptID(s)
             && redirects[s] in generated.concept && redirects[s] !in redirects)
    {
      var bySlug := SomeIndex(f, generated.concept);
      RowsAreOk(prior);
      PairsAreAsked(f, generated, prior, bySlug, redirects);
      assert Migrates(f, generated, prior, bySlug, redirects);
    }
  }

  lemma RowsAreOk(prior: seq<Row>)
    ensures ActiveRowsOk(prior) <==> forall row :: row in prior && !row.dormant ==> ValidSourceID(row.conceptID) && SafeConceptSlug(row.slug)
  {
    hide ValidSourceID, SafeConceptSlug;
    if ActiveRowsOk(prior) {
      forall row | row in prior && !row.dormant ensures ValidSourceID(row.conceptID) && SafeConceptSlug(row.slug) {
        var i :| 0 <= i < |prior| && prior[i] == row;
      }
    }
  }

  lemma SomeIndex(f: Letters, concept: map<string, string>) returns (bySlug: map<string, string>)
    requires DirectConceptsOk(f, concept)
    ensures BySlug(f, concept, bySlug)
  {
    hide ValidSyntoEntityID, SafeConceptSlug, SlugKey;
    var keys := set e | e in concept :: SlugKey(f, concept[e]);
    bySlug := map k | k in keys :: ConceptWith(f, concept, k);
  }

  ghost function ConceptWith(f: Letters, concept: map<string, string>, k: string): (e: string)
    requires exists e :: e in concept && SlugKey(f, concept[e]) == k
    ensures e in concept && SlugKey(f, concept[e]) == k
  {
    var e :| e in concept && SlugKey(f, concept[e]) == k;
    e
  }

  lemma PairsAreAsked(f: Letters, generated: IDMap, prior: seq<Row>, bySlug: map<string, string>, redirects: map<string, string>)
    requires DirectConceptsOk(f, generated.concept) && BySlug(f, generated.concept, bySlug)
    requires forall s, t :: Asked(f, generated, prior, s, t) <==> s in redirects && redirects[s] == t
    requires forall s :: s in redirects ==> s !in generated.concept && ValidLegacyConceptID(s) && redirects[s] in generated.concept
    ensures var pairs := Trimmed(generated.idRedirects) + Wanted(f, bySlug, prior);
            Consistent(pairs, generated.concept) && Holds(redirects, pairs)
  {
    hide ValidSyntoEntityID, SafeConceptSlug, TrimSpace, ValidLegacyConceptID, AskedBy, OwnRedirect, BySlug, Wanted;
    var pairs := Trimmed(generated.idRedirects) + Wanted(f, bySlug, prior);
    forall s, t ensures (s, t) in pairs <==> s in redirects && redirects[s] == t {
      if (s, t) in Wanted(f, bySlug, prior) {
        var row := WantedFrom(f, bySlug, prior, (s, t));
        AskedAndWanted(f, generated, bySlug, row, s, t);
      }
      if row :| row in prior && !row.dormant && AskedBy(f, generated, row, s, t) {
        AskedAndWanted(f, generated, bySlug, row, s, t);
        WantedBy(f, bySlug, prior, row);
      }
      assert Asked(f, generated, prior, s, t) <==> s in redirects && redirects[s] == t;
    }
    forall p | p in pairs ensures p.0 in redirects && redirects[p.0] == p.1 && PairOk(generated.concept, p) {
      assert (p.0, p.1) in pairs;
    }
  }

  /** Redirects lead in one hop from dead legacy IDs to live entities. */
  lemma DirectRedirectsAreFlat(f: Letters, generated: IDMap, prior: seq<Row>, bySlug: map<string, string>, redirects: map<string, string>, source: string)
    requires Migrates(f, generated, prior, bySlug, redirects) && source in redirects
    ensures source !in generated.concept && ValidLegacyConceptID(source)
    ensures redirects[source] in generated.concept && NormalizeTranslatedID(source, redirects) == redirects[source]
  {
    hide ValidSyntoEntityID, ValidLegacyConceptID, DirectConceptsOk, BySlug, ActiveRowsOk, Wanted;
    var t := redirects;
    assert PairOk(generated.concept, (source, t[source]));
    assert Walk(t, source, |t| + 1) == Walk(t, t[source], |t|) == t[source];
  }

  /** An active legacy concept whose slug survives resolves to the entity that now has the slug. */
  lemma LegacyConceptsResolve(f: Letters, generated: IDMap, prior: seq<Row>, bySlug: map<string, string>, redirects: map<string, string>,
                              row: Row, entity: string)
    requires Migrates(f, generated, prior, bySlug, redirects)
    requires row in prior && !row.dormant && !ValidSyntoEntityID(row.conceptID)
    requires entity in generated.concept && SlugKey(f, generated.concept[entity]) == SlugKey(f, row.slug)
    ensures ValidLegacyConceptID(row.conceptID) && row.conceptID !in generated.concept
    ensures NormalizeTranslatedID(row.conceptID, redirects) == entity
  {
    hide ValidSyntoEntityID, ValidLegacyConceptID, ActiveRowsOk, Wanted, Trimmed, SafeConceptSlug, NormalizeTranslatedID;
    WantedBy(f, bySlug, prior, row);
    assert ValidSyntoEntityID(entity);
    assert (row.conceptID, entity) in OwnRedirect(f, bySlug, row);
    DirectRedirectsAreFlat(f, generated, prior, bySlug, redirects, row.conceptID);
  }

  // ---- Entities for legacy concepts, by their sources ----

  /** A generated page that was left out because it is byte for byte the page of an unbound legacy concept. */
  datatype Proof = Proof(currentID: string, stableID: string, slug: string)

  function LastIndex(prior: seq<Row>, id: string): Option<nat> {
    if prior == [] then None
    else if prior[|prior| - 1].conceptID == id then Some(|prior| - 1)
    else LastIndex(prior[..|prior| - 1], id)
  }

  predicate ProofOk(prior: seq<Row>, p: Proof) {
    && p.stableID != "" && p.currentID != "" && p.slug != "" && p.stableID == p.currentID
    && var i := LastIndex(prior, p.stableID);
       && i.Some? && i.value < |prior|
       && prior[i.value].slug == p.slug && !prior[i.value].dormant && prior[i.value].entityID == ""
       && prior[i.value].sourcePaths != {}
  }

  predicate ProofsOk(prior: seq<Row>, proofs: seq<Proof>) {
    && (forall i :: 0 <= i < |proofs| ==> ProofOk(prior, proofs[i]))
    && forall i, j :: 0 <= i < |proofs| && 0 <= j < |proofs| && proofs[i].slug == proofs[j].slug ==>
         proofs[i].stableID == proofs[j].stableID
  }

  function SourcesOf(edges: seq<Edge>, entity: string): set<string> {
    set i | 0 <= i < |edges| && edges[i].entityID == entity :: edges[i].sourcePath
  }

  /** The rows that the proofs are about. */
  function Proven(prior: seq<Row>, proofs: seq<Proof>): set<nat> {
    set p | p in proofs && LastIndex(prior, p.stableID).Some? :: LastIndex(prior, p.stableID).value
  }

  function RowsWith(prior: seq<Row>, rows: set<nat>, paths: set<string>): set<nat> {
    set i | i in rows && i < |prior| && prior[i].sourcePaths == paths
  }

  function EntitiesWith(edges: seq<Edge>, entities: set<string>, paths: set<string>): set<string> {
    set e | e in entities && SourcesOf(edges, e) != {} && SourcesOf(edges, e) == paths
  }

  /** The entity with exactly the sources of row `i`, when both are the only ones with these sources. */
  ghost predicate Matches(prior: seq<Row>, proofs: seq<Proof>, index: Index, entities: set<string>, i: nat, entity: string)
    requires i < |prior|
  {
    && i in Proven(prior, proofs)
    && RowsWith(prior, Proven(prior, proofs), prior[i].sourcePaths) == {i}
    && EntitiesWith(index.edges, entities, prior[i].sourcePaths) == {entity}
  }

  /** No other concept already has the entity. */
  predicate Free(prior: seq<Row>, i: nat, entity: string)
    requires i < |prior|
  {
    forall j :: 0 <= j < |prior| && prior[j].entityID == entity ==> prior[j].conceptID == prior[i].conceptID
  }

  ghost predicate IsAugmented(prior: seq<Row>, proofs: seq<Proof>, index: Index, entities: set<string>, out: seq<Row>) {
    |out| == |prior| && forall i :: 0 <= i < |prior| ==> AugmentedAt(prior, proofs, index, entities, out, i)
  }

  ghost predicate AugmentedAt(prior: seq<Row>, proofs: seq<Proof>, index: Index, entities: set<string>, out: seq<Row>, i: nat)
    requires i < |prior| == |out|
  {
    && (forall e :: Matches(prior, proofs, index, entities, i, e) ==> Free(prior, i, e) && out[i] == prior[i].(entityID := e))
    && ((forall e :: !Matches(prior, proofs, index, entities, i, e)) ==> out[i] == prior[i])
  }

  lemma {:induction false} LastIndexBelow(prior: seq<Row>, id: string)
    ensures LastIndex(prior, id).Some? ==> LastIndex(prior, id).value < |prior|
  {
    if prior != [] {
      LastIndexBelow(prior[..|prior| - 1], id);
    }
  }

  method CheckProofs(prior: seq<Row>, proofs: seq<Proof>) returns (ok: bool)
    ensures ok <==> ProofsOk(prior, proofs)
  {
    hide ProofOk;
    var bySlug: map<string, string> := map[];
    for n := 0 to |proofs|
      invariant forall i :: 0 <= i < n ==> ProofOk(prior, proofs[i])
      invariant forall i :: 0 <= i < n ==> proofs[i].slug in bySlug && bySlug[proofs[i].slug] == proofs[i].stableID
      invariant forall s :: s in bySlug ==> exists i :: 0 <= i < n && proofs[i].slug == s
    {
      if !ProofOk(prior, proofs[n]) {
        return false;
      }
      if proofs[n].slug in bySlug && bySlug[proofs[n].slug] != proofs[n].stableID {
        return false;
      }
      bySlug := bySlug[proofs[n].slug := proofs[n].stableID];
    }
    ok := true;
  }

  method IsFree(prior: seq<Row>, i: nat, entity: string) returns (ok: bool)
    requires i < |prior|
    ensures ok <==> Free(prior, i, entity)
  {
    for j := 0 to |prior|
      invariant forall k :: 0 <= k < j && prior[k].entityID == entity ==> prior[k].conceptID == prior[i].conceptID
    {
      if prior[j].entityID == entity && prior[j].conceptID != prior[i].conceptID {
        return false;
      }
    }
    ok := true;
  }

  // ---- Grouping by sources ----

  method SourcesByEntity(edges: seq<Edge>, entities: set<string>) returns (paths: map<string, set<string>>)
    ensures forall e :: e in paths <==> e in entities && SourcesOf(edges, e) != {}
    ensures forall e :: e in paths ==> paths[e] == SourcesOf(edges, e)
  {
    paths := map[];
    for n := 0 to |edges|
      invariant forall e :: e in paths <==> e in entities && SourcesOf(edges[..n], e) != {}
      invariant forall e :: e in paths ==> paths[e] == SourcesOf(edges[..n], e)
    {
      var edge := edges[n];
      SourcesGrow(edges, n);
      if edge.entityID !in entities {
        continue;
      }
      var known := if edge.entityID in paths then paths[edge.entityID] else {};
      paths := paths[edge.entityID := known + {edge.sourcePath}];
    }
    assert edges[..|edges|] == edges;
  }

  lemma SourcesGrow(edges: seq<Edge>, n: nat)
    requires n < |edges|
    ensures forall e :: SourcesOf(edges[..n + 1], e)
                        == SourcesOf(edges[..n], e) + if edges[n].entityID == e then {edges[n].sourcePath} else {}
  {
    var last := edges[..n + 1];
    assert last[n] == edges[n] && forall i :: 0 <= i < n ==> last[i] == edges[..n][i];
  }

  /** The rows that the proofs are about, with their sources. */
  method SourcesByRow(prior: seq<Row>, proofs: seq<Proof>) returns (paths: map<nat, set<string>>)
    requires ProofsOk(prior, proofs)
    ensures paths.Keys == Proven(prior, proofs)
    ensures forall i :: i in paths ==> i < |prior| && paths[i] == prior[i].sourcePaths
  {
    hide ProofOk;
    paths := map[];
    for n := 0 to |proofs|
      invariant paths.Keys == Proven(prior, proofs[..n])
      invariant forall i :: i in paths ==> i < |prior| && paths[i] == prior[i].sourcePaths
    {
      ProofHasRow(prior, proofs[n]);
      assert proofs[..n + 1] == proofs[..n] + [proofs[n]];
      var i := LastIndex(prior, proofs[n].stableID).value;
      paths := paths[i := prior[i].sourcePaths];
    }
    assert proofs[..|proofs|] == proofs;
  }

  lemma ProofHasRow(prior: seq<Row>, p: Proof)
    requires ProofOk(prior, p)
    ensures LastIndex(prior, p.stableID).Some? && LastIndex(prior, p.stableID).value < |prior|
  {
  }

  /** Which keys have a set of sources. */
  method GroupBySources<K(==, !new)>(paths: map<K, set<string>>) returns (groups: map<set<string>, set<K>>)
    ensures forall s :: s in groups <==> s in paths.Values
    ensures forall s, k :: s in groups ==> (k in groups[s] <==> k in paths && paths[k] == s)
  {
    groups := map[];
    var todo := paths.Keys;
    while todo != {}
      invariant todo <= paths.Keys
      invariant forall k :: k in paths && k !in todo ==> paths[k] in groups
      invariant forall s, k :: s in groups ==> (k in groups[s] <==> k in paths && k !in todo && paths[k] == s)
      invariant forall s :: s in groups ==> s in paths.Values
    {
      var k :| k in todo;
      var known := if paths[k] in groups then groups[paths[k]] else {};
      groups := groups[paths[k] := known + {k}];
      todo := todo - {k};
    }
  }

  /** The only member of a group. */
  method OnlyOne<K(==)>(group: set<K>) returns (r: Option<K>)
    ensures r.Some? ==> group == {r.value}
    ensures r.None? ==> forall k :: group != {k}
  {
    if group == {} {
      return None;
    }
    var k :| k in group;
    r := if group == {k} then Some(k) else None;
    if r.None? {
      forall x ensures group != {x} {
        if group == {x} {
          OneElement(group, x, k);
        }
      }
    }
  }

  lemma OneElement<K>(group: set<K>, x: K, k: K)
    requires group == {x} && k in group
    ensures group == {k}
  {
  }

  ghost predicate RowsOfGroup(prior: seq<Row>, proofs: seq<Proof>, sources: set<string>, rows: set<nat>) {
    forall k :: k in rows <==> k in Proven(prior, proofs) && k < |prior| && prior[k].sourcePaths == sources
  }

  ghost predicate EntitiesOfGroup(index: Index, entities: set<string>, sources: set<string>, found: set<string>) {
    forall x :: x in found <==> x in entities && SourcesOf(index.edges, x) != {} && SourcesOf(index.edges, x) == sources
  }

  /** What the two groupings say of a set of sources. */
  lemma GroupsMatch(prior: seq<Row>, proofs: seq<Proof>, index: Index, entities: set<string>, sources: set<string>,
                    rows: set<nat>, found: set<string>, i: nat, e: string)
    requires ProofsOk(prior, proofs) && i < |prior| && i in Proven(prior, proofs) && prior[i].sourcePaths == sources
    requires RowsOfGroup(prior, proofs, sources, rows)
    requires EntitiesOfGroup(index, entities, sources, found)
    ensures Matches(prior, proofs, index, entities, i, e) <==> rows == {i} && found == {e}
  {
    hide ProofsOk, Proven;
    assert RowsWith(prior, Proven(prior, proofs), sources) == rows;
    assert EntitiesWith(index.edges, entities, sources) == found;
  }

  lemma MatchOnce(prior: seq<Row>, proofs: seq<Proof>, index: Index, entities: set<string>, i: nat, e: string, e': string)
    requires i < |prior| && Matches(prior, proofs, index, entities, i, e) && Matches(prior, proofs, index, entities, i, e')
    ensures e == e'
  {
    assert e in EntitiesWith(index.edges, entities, prior[i].sourcePaths);
  }

  /** All groups but `todo` have been gone through. */
  ghost predicate Augmenting(prior: seq<Row>, proofs: seq<Proof>, index: Index, entities: set<string>, out: seq<Row>, todo: set<set<string>>) {
    |out| == |prior| && forall k :: 0 <= k < |prior| ==>
      || AugmentedAt(prior, proofs, index, entities, out, k)
      || (k in Proven(prior, proofs) && prior[k].sourcePaths in todo && out[k] == prior[k])
  }

  lemma NothingAugmented(prior: seq<Row>, proofs: seq<Proof>, index: Index, entities: set<string>, todo: set<set<string>>)
    requires forall i :: i in Proven(prior, proofs) && i < |prior| ==> prior[i].sourcePaths in todo
    ensures Augmenting(prior, proofs, index, entities, prior, todo)
  {
    hide Proven, Matches;
    forall k | 0 <= k < |prior| && k !in Proven(prior, proofs) ensures AugmentedAt(prior, proofs, index, entities, prior, k) {
      OnlyProven(prior, proofs, index, entities, k);
    }
  }

  /** One group: nothing, unless it has one row and its sources have one entity. */
  lemma GroupAugments(prior: seq<Row>, proofs: seq<Proof>, index: Index, entities: set<string>, out: seq<Row>, todo: set<set<string>>,
                      sources: set<string>, rows: set<nat>, found: set<string>)
    requires ProofsOk(prior, proofs) && Augmenting(prior, proofs, index, entities, out, todo) && sources in todo
    requires RowsOfGroup(prior, proofs, sources, rows)
    requires EntitiesOfGroup(index, entities, sources, found)
    ensures (forall k, e :: rows != {k} || found != {e}) ==> Augmenting(prior, proofs, index, entities, out, todo - {sources})
    ensures forall i, e :: rows == {i} && found == {e} && i < |prior| && Free(prior, i, e) ==>
              Augmenting(prior, proofs, index, entities, out[i := out[i].(entityID := e)], todo - {sources})
  {
    hide ProofsOk, Proven, Matches, Free, SourcesOf;
    forall k, e | k in rows ensures Matches(prior, proofs, index, entities, k, e) <==> rows == {k} && found == {e} {
      GroupsMatch(prior, proofs, index, entities, sources, rows, found, k, e);
    }
    forall i, e | rows == {i} && found == {e} && i < |prior| && Free(prior, i, e)
      ensures Augmenting(prior, proofs, index, entities, out[i := out[i].(entityID := e)], todo - {sources})
    {
      assert i in rows;
      OneGroup(prior, proofs, index, entities, out, todo, sources, rows, i, e);
    }
  }

  lemma OneGroup(prior: seq<Row>, proofs: seq<Proof>, index: Index, entities: set<string>, out: seq<Row>, todo: set<set<string>>,
                 sources: set<string>, rows: set<nat>, i: nat, e: string)
    requires Augmenting(prior, proofs, index, entities, out, todo) && rows == {i} && i < |prior| && Free(prior, i, e)
    requires RowsOfGroup(prior, proofs, sources, rows)
    requires Matches(prior, proofs, index, entities, i, e)
    ensures Augmenting(prior, proofs, index, entities, out[i := out[i].(entityID := e)], todo - {sources})
  {
    hide Proven, Matches, Free;
    var out' := out[i := out[i].(entityID := e)];
    assert i in rows;
    forall k | 0 <= k < |prior|
      ensures || AugmentedAt(prior, proofs, index, entities, out', k)
              || (k in Proven(prior, proofs) && prior[k].sourcePaths in todo - {sources} && out'[k] == prior[k])
    {
      if k == i {
        forall x | Matches(prior, proofs, index, entities, i, x) ensures x == e {
          MatchOnce(prior, proofs, index, entities, i, x, e);
        }
        assert out[i].(entityID := e) == prior[i].(entityID := e);
      } else {
        assert k !in rows && out'[k] == out[k];
      }
    }
  }

  method AugmentLegacyEntities(prior: seq<Row>, entityIDs: map<string, string>, index: Index, proofs: seq<Proof>)
    returns (r: Option<seq<Row>>)
    ensures (entityIDs == map[] || index.edges == [] || proofs == []) ==> r == Some(prior)
    ensures entityIDs != map[] && index.edges != [] && proofs != [] && r.Some? ==>
              ProofsOk(prior, proofs) && IsAugmented(prior, proofs, index, entityIDs.Values, r.value)
    ensures r.None? ==>
              || !ProofsOk(prior, proofs)
              || exists i, e :: 0 <= i < |prior| && Matches(prior, proofs, index, entityIDs.Values, i, e) && !Free(prior, i, e)
  {
    hide Matches, Free, ProofsOk, AugmentedAt, Proven, SourcesOf;
    if entityIDs == map[] || index.edges == [] || proofs == [] {
      return Some(prior);
    }
    var ok := CheckProofs(prior, proofs);
    if !ok {
      return None;
    }
    var entities := entityIDs.Values;
    var byEntity := SourcesByEntity(index.edges, entities);
    var byRow := SourcesByRow(prior, proofs);
    var rowsBySources := GroupBySources(byRow);
    var entitiesBySources := GroupBySources(byEntity);
    r := AssignByGroup(prior, proofs, index, entities, rowsBySources, entitiesBySources);
  }

  /** The loop over the groups of rows. */
  method AssignByGroup(prior: seq<Row>, ghost proofs: seq<Proof>, ghost index: Index, ghost entities: set<string>,
                       rowsBySources: map<set<string>, set<nat>>, entitiesBySources: map<set<string>, set<string>>)
    returns (r: Option<seq<Row>>)
    requires ProofsOk(prior, proofs)
    requires forall s :: s in rowsBySources ==> RowsOfGroup(prior, proofs, s, rowsBySources[s])
    requires forall i :: i in Proven(prior, proofs) && i < |prior| ==> prior[i].sourcePaths in rowsBySources
    requires forall s :: EntitiesOfGroup(index, entities, s, if s in entitiesBySources then entitiesBySources[s] else {})
    ensures r.Some? ==> IsAugmented(prior, proofs, index, entities, r.value)
    ensures r.None? ==> exists i, e :: 0 <= i < |prior| && Matches(prior, proofs, index, entities, i, e) && !Free(prior, i, e)
  {
    hide Matches, Free, ProofsOk, AugmentedAt, Proven, SourcesOf, Augmenting, EntitiesOfGroup;
    var out := prior;
    var todo := rowsBySources.Keys;
    NothingAugmented(prior, proofs, index, entities, todo);
    while todo != {}
      invariant todo <= rowsBySources.Keys && Augmenting(prior, proofs, index, entities, out, todo) && |out| == |prior|
    {
      var sources :| sources in todo;
      var rows := rowsBySources[sources];
      var found := if sources in entitiesBySources then entitiesBySources[sources] else {};
      var row := OnlyOne(rows);
      var entity := OnlyOne(found);
      GroupAugments(prior, proofs, index, entities, out, todo, sources, rows, found);
      if row != None && entity != None {
        var i := row.value;
        assert i in rows;
        GroupsMatch(prior, proofs, index, entities, sources, rows, found, i, entity.value);
        var free := IsFree(prior, i, entity.value);
        if !free {
          return None;
        }
        out := out[i := out[i].(entityID := entity.value)];
      }
      todo := todo - {sources};
    }
    AllAugmented(prior, proofs, index, entities, out);
    r := Some(out);
  }

  lemma AllAugmented(prior: seq<Row>, proofs: seq<Proof>, index: Index, entities: set<string>, out: seq<Row>)
    requires Augmenting(prior, proofs, index, entities, out, {})
    ensures IsAugmented(prior, proofs, index, entities, out)
  {
    hide AugmentedAt, Proven;
  }

  lemma OnlyProven(prior: seq<Row>, proofs: seq<Proof>, index: Index, entities: set<string>, i: nat)
    requires i < |prior| && i !in Proven(prior, proofs)
    ensures forall e :: !Matches(prior, proofs, index, entities, i, e)
  {
  }

  lemma {:induction false} LastIndexHas(prior: seq<Row>, id: string)
    requires LastIndex(prior, id).Some?
    ensures LastIndex(prior, id).value < |prior| && prior[LastIndex(prior, id).value].conceptID == id
  {
    if prior[|prior| - 1].conceptID != id {
      LastIndexHas(prior[..|prior| - 1], id);
    }
  }

  lemma ProvenAreUnbound(prior: seq<Row>, proofs: seq<Proof>, i: nat)
    requires ProofsOk(prior, proofs) && i in Proven(prior, proofs)
    ensures i < |prior| && prior[i].entityID == "" && !prior[i].dormant && prior[i].sourcePaths != {}
  {
    var p :| p in proofs && LastIndex(prior, p.stableID) == Some(i);
    var k :| 0 <= k < |proofs| && proofs[k] == p;
    assert ProofOk(prior, proofs[k]);
    LastIndexHas(prior, p.stableID);
  }

  /**
   * Only unbound active concepts are given an entity, each one the entity of exactly its own sources; and if no two rows
   * had the same entity before, none have afterwards.
   */
  lemma AugmentingIsSound(prior: seq<Row>, proofs: seq<Proof>, index: Index, entities: set<string>, out: seq<Row>, i: nat, j: nat)
    requires ProofsOk(prior, proofs) && IsAugmented(prior, proofs, index, entities, out) && "" !in entities
    requires i < |prior| && j < |prior| && i != j
    requires forall a, b :: 0 <= a < b < |prior| ==> prior[a].conceptID != prior[b].conceptID
    requires forall a, b :: 0 <= a < b < |prior| && prior[a].entityID != "" ==> prior[a].entityID != prior[b].entityID
    ensures out[i] == prior[i]
            || (prior[i].entityID == "" && !prior[i].dormant && out[i] == prior[i].(entityID := out[i].entityID)
                && out[i].entityID in entities && SourcesOf(index.edges, out[i].entityID) == prior[i].sourcePaths)
    ensures out[i].entityID != "" ==> out[i].entityID != out[j].entityID
  {
    hide ProofsOk;
    AugmentedRow(prior, proofs, index, entities, out, i);
    AugmentedRow(prior, proofs, index, entities, out, j);
    if Matches(prior, proofs, index, entities, i, out[i].entityID) && Matches(prior, proofs, index, entities, j, out[i].entityID) {
      OneRowEach(prior, proofs, index, entities, i, j, out[i].entityID);
    }
  }

  lemma OneRowEach(prior: seq<Row>, proofs: seq<Proof>, index: Index, entities: set<string>, i: nat, j: nat, e: string)
    requires i < |prior| && j < |prior|
    requires Matches(prior, proofs, index, entities, i, e) && Matches(prior, proofs, index, entities, j, e)
    ensures i == j
  {
    hide Proven;
    assert e in EntitiesWith(index.edges, entities, prior[i].sourcePaths);
    assert e in EntitiesWith(index.edges, entities, prior[j].sourcePaths);
    assert j in RowsWith(prior, Proven(prior, proofs), prior[i].sourcePaths);
  }

  lemma AugmentedRow(prior: seq<Row>, proofs: seq<Proof>, index: Index, entities: set<string>, out: seq<Row>, i: nat)
    requires ProofsOk(prior, proofs) && IsAugmented(prior, proofs, index, entities, out) && i < |prior|
    ensures out[i] == prior[i]
            || (&& prior[i].entityID == "" && !prior[i].dormant && out[i] == prior[i].(entityID := out[i].entityID)
                && Matches(prior, proofs, index, entities, i, out[i].entityID) && Free(prior, i, out[i].entityID)
                && out[i].entityID in entities && SourcesOf(index.edges, out[i].entityID) == prior[i].sourcePaths)
  {
    hide ProofsOk, Free;
    assert AugmentedAt(prior, proofs, index, entities, out, i);
    if e :| Matches(prior, proofs, index, entities, i, e) {
      ProvenAreUnbound(prior, proofs, i);
      assert e in EntitiesWith(index.edges, entities, prior[i].sourcePaths);
    }
  }
}

/** Identity maps and the identifiers in them (internal/wikiindex, internal/annotation). */
module WikiIndex {
  import opened Texts

  datatype SourceMeta = SourceMeta(sourceFile: string, slug: string)

  /** cache/id_map.json in decoded form. */
  datatype IDMap = IDMap(
    concept: map<string, string>,
    dormantConcept: map<string, string>,
    conceptEntityID: map<string, string>,
    source: map<string, string>,
    sourceMeta: map<string, SourceMeta>,
    redirects: map<string, seq<string>>,
    idRedirects: map<string, string>)

  /** The Go idiom of reading a missing key as the zero value. */
  function Get(m: map<string, string>, key: string): string {
    if key in m then m[key] else ""
  }

  /** Without a slash only these three are not in path.Clean's form. */
  predicate ValidSourceID(id: string) {
    id != "" && id != "." && id != ".." && '/' !in id && '\\' !in id
  }

  predicate SafeConceptSlug(slug: string) {
    TrimSpace(slug) != "" && slug == TrimSpace(slug) && '/' !in slug && '\\' !in slug && slug != "." && slug != ".."
  }

  predicate UlidChar(c: char) {
    '0' <= c <= '9' || 'A' <= c <= 'H' || 'J' <= c <= 'K' || 'M' <= c <= 'N' || 'P' <= c <= 'T' || 'V' <= c <= 'Z'
  }

  predicate ValidSyntoEntityID(value: string) {
    |value| == 26 && '0' <= value[0] <= '7' && forall i :: 0 <= i < |value| ==> UlidChar(value[i])
  }

  predicate LegacyChar(c: char) {
    '0' <= c <= '9' || 'a' <= c <= 'f'
  }

  predicate ValidLegacyConceptID(value: string) {
    |value| == 12 && forall i :: 0 <= i < |value| ==> LegacyChar(value[i])
  }

  /** An entity ID is a safe file name and carries no space to trim. */
  lemma EntityIDIsPlain(value: string)
    requires ValidSyntoEntityID(value)
    ensures ValidSourceID(value) && TrimSpace(value) == value && !ValidLegacyConceptID(value)
  {
    assert UlidChar(value[0]) && UlidChar(value[25]);
    assert value[|value| - 1] == value[25];
  }

  // ---- Following translations ----

  predicate Fixed(translated: map<string, string>, id: string) {
    id !in translated || translated[id] == id
  }

  /** At most `steps` translations, stopping at an ID that translates to itself or not at all. */
  function Walk(translated: map<string, string>, id: string, steps: nat): string
    decreases steps
  {
    if steps == 0 || Fixed(translated, id) then id else Walk(translated, translated[id], steps - 1)
  }

  function NormalizeTranslatedID(id: string, translated: map<string, string>): string {
    Walk(translated, id, |translated| + 1)
  }

  method NormalizeTranslated(id: string, translated: map<string, string>) returns (r: string)
    ensures r == NormalizeTranslatedID(id, translated)
  {
    r := id;
    for steps := 0 to |translated| + 1
      invariant Walk(translated, r, |translated| + 1 - steps) == NormalizeTranslatedID(id, translated)
    {
      if r !in translated || translated[r] == r {
        return;
      }
      r := translated[r];
    }
  }

  lemma {:induction false} WalkMore(translated: map<string, string>, id: string, m: nat, n: nat)
    ensures Walk(translated, id, m + n) == Walk(translated, Walk(translated, id, m), n)
    decreases m
  {
    if m > 0 && !Fixed(translated, id) {
      WalkMore(translated, translated[id], m - 1, n);
    }
  }

  /** The IDs on the way. */
  function Trail(translated: map<string, string>, id: string, steps: nat): set<string> {
    if steps == 0 then {} else Trail(translated, id, steps - 1) + {Walk(translated, id, steps - 1)}
  }

  lemma {:induction false} FixedStays(translated: map<string, string>, id: string, m: nat, n: nat)
    requires m <= n && Fixed(translated, Walk(translated, id, m))
    ensures Walk(translated, id, n) == Walk(translated, id, m)
  {
    WalkMore(translated, id, m, n - m);
  }

  lemma {:induction false} Visited(translated: map<string, string>, id: string, n: nat, at: string)
    requires at in Trail(translated, id, n)
    ensures exists k: nat :: k < n && Walk(translated, id, k) == at
  {
    if at != Walk(translated, id, n - 1) {
      Visited(translated, id, n - 1, at);
    }
  }

  /** A walk that comes back to an ID goes round for ever. */
  lemma {:induction false} Cycle(translated: map<string, string>, id: string, k: nat, n: nat, m: nat)
    requires k < n && Walk(translated, id, k) == Walk(translated, id, n)
    requires !Fixed(translated, Walk(translated, id, n))
    ensures !Fixed(translated, Walk(translated, id, m))
    decreases m
  {
    if m < n {
      if Fixed(translated, Walk(translated, id, m)) {
        FixedStays(translated, id, m, n);
      }
    } else {
      WalkMore(translated, id, n, m - n);
      WalkMore(translated, id, k, m - n);
      Cycle(translated, id, k, n, k + (m - n));
    }
  }

  /** Until the walk ends, every step finds a new key. */
  lemma {:induction false} TrailGrows(translated: map<string, string>, id: string, n: nat, end: nat)
    requires Fixed(translated, Walk(translated, id, end)) && !Fixed(translated, Walk(translated, id, n))
    ensures |Trail(translated, id, n + 1)| == n + 1 && Trail(translated, id, n + 1) <= translated.Keys
  {
    var at := Walk(translated, id, n);
    if n > 0 {
      if Fixed(translated, Walk(translated, id, n - 1)) {
        FixedStays(translated, id, n - 1, n);
      }
      TrailGrows(translated, id, n - 1, end);
    }
    if at in Trail(translated, id, n) {
      Visited(translated, id, n, at);
      var k: nat :| k < n && Walk(translated, id, k) == at;
      Cycle(translated, id, k, n, end);
    }
  }

  lemma SubsetSize<T>(a: set<T>, b: set<T>)
    requires a <= b
    ensures |a| <= |b|
  {
    if a != {} {
      var x :| x in a;
      SubsetSize(a - {x}, b - {x});
    }
  }

  /** The bounded walk ends where an unbounded one would, if that ends at all. */
  lemma NormalizeReachesFixedPoint(id: string, translated: map<string, string>)
    ensures Fixed(translated, NormalizeTranslatedID(id, translated))
            <==> exists n: nat :: Fixed(translated, Walk(translated, id, n))
    ensures forall n: nat :: Fixed(translated, Walk(translated, id, n)) ==>
              NormalizeTranslatedID(id, translated) == Walk(translated, id, n)
  {
    var bound := |translated| + 1;
    forall end: nat | Fixed(translated, Walk(translated, id, end))
      ensures Walk(translated, id, bound) == Walk(translated, id, end)
    {
      if !Fixed(translated, Walk(translated, id, bound)) {
        TrailGrows(translated, id, bound, end);
        SubsetSize(Trail(translated, id, bound + 1), translated.Keys);
      } else if bound <= end {
        FixedStays(translated, id, bound, end);
      } else {
        FixedStays(translated, id, end, bound);
      }
    }
  }

  /** When every translation is a step down some measure, the walk always ends. */
  lemma {:induction false} AcyclicEnds(id: string, translated: map<string, string>, rank: string -> nat)
    requires forall x :: x in translated && translated[x] != x ==> rank(translated[x]) < rank(x)
    ensures Fixed(translated, NormalizeTranslatedID(id, translated))
  {
    DescentEnds(id, translated, rank);
    NormalizeReachesFixedPoint(id, translated);
  }

  lemma {:induction false} DescentEnds(id: string, translated: map<string, string>, rank: string -> nat)
    requires forall x :: x in translated && translated[x] != x ==> rank(translated[x]) < rank(x)
    ensures Fixed(translated, Walk(translated, id, rank(id)))
    decreases rank(id)
  {
    if !Fixed(translated, id) {
      var next := translated[id];
      DescentEnds(next, translated, rank);
      FixedStays(translated, next, rank(next), rank(id) - 1);
    }
  }
}

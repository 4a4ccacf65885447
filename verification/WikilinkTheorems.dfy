/** What the link rewriter keeps: the segments of a page, the code in it, and its own result. */
module WikilinkTheorems {
  import opened Options
  import opened Texts
  import opened WikiIndex
  import opened ByteStrings
  import opened Wikilinks

  // ---- Splitting into segments ----

  function Joined(segments: seq<Segment>): string {
    if segments == [] then "" else Text(segments[0]) + Joined(segments[1..])
  }

  /** The segments after rewriting: a routed link becomes the link of its new route. */
  function Relinked(routes: Routes, g: Segment): Segment {
    if g.Link? && Rerouted(routes, g.inner).Some? then Link(Rerouted(routes, g.inner).value) else g
  }

  function AllRelinked(routes: Routes, segments: seq<Segment>): seq<Segment> {
    if segments == [] then [] else [Relinked(routes, segments[0])] + AllRelinked(routes, segments[1..])
  }

  /** The segments are the whole text. */
  lemma {:induction false} SegmentsAreTheText(s: string, lineStart: bool)
    ensures Joined(Segments(s, lineStart)) == s
    decreases |s|
  {
    hide Next;
    if s != "" {
      var g := Next(s, lineStart);
      NextIsThere(s, lineStart);
      SegmentsAreTheText(s[|Text(g)|..], StartsLine(g));
    }
  }

  /** The result is the same segments, with only the routed links replaced; code and everything else is copied. */
  lemma {:induction false} RewriteRelinks(routes: Routes, s: string, lineStart: bool)
    ensures Rewrite(routes, s, lineStart) == Joined(AllRelinked(routes, Segments(s, lineStart)))
    decreases |s|
  {
    hide Next, Rerouted;
    if s != "" {
      var g := Next(s, lineStart);
      NextIsThere(s, lineStart);
      var rest := s[|Text(g)|..];
      RewriteRelinks(routes, rest, StartsLine(g));
      assert Segments(s, lineStart) == [g] + Segments(rest, StartsLine(g));
      assert ([g] + Segments(rest, StartsLine(g)))[1..] == Segments(rest, StartsLine(g));
    }
  }

  /** A page without a routed link is returned as it is. */
  lemma UnroutedPagesAreUntouched(routes: Routes, s: string, lineStart: bool)
    requires forall g :: g in Segments(s, lineStart) && g.Link? ==> Rerouted(routes, g.inner) == None
    ensures Rewrite(routes, s, lineStart) == s
  {
    hide Rerouted, Segments;
    NothingRelinked(routes, Segments(s, lineStart));
    RewriteRelinks(routes, s, lineStart);
    SegmentsAreTheText(s, lineStart);
  }

  lemma {:induction false} NothingRelinked(routes: Routes, segments: seq<Segment>)
    requires forall g :: g in segments && g.Link? ==> Rerouted(routes, g.inner) == None
    ensures AllRelinked(routes, segments) == segments
  {
    hide Rerouted;
    if segments != [] {
      NothingRelinked(routes, segments[1..]);
    }
  }

  // ---- What scanning depends on ----

  lemma {:induction false} RunAll(s: string, c: char)
    ensures forall i :: 0 <= i < Run(s, c) ==> s[i] == c
    ensures Run(s, c) < |s| ==> s[Run(s, c)] != c
  {
    if s != "" && s[0] == c {
      RunAll(s[1..], c);
      assert forall i :: 0 < i < Run(s, c) ==> s[i] == s[1..][i - 1];
    }
  }

  lemma {:induction false} RunIs(s: string, c: char, n: nat)
    requires n <= |s| && (forall i :: 0 <= i < n ==> s[i] == c) && (n < |s| ==> s[n] != c)
    ensures Run(s, c) == n
  {
    if n > 0 {
      RunIs(s[1..], c, n - 1);
    }
  }

  lemma {:induction false} SpacesLocal(s: string, o: string, max: nat, k: nat)
    requires k <= |s| && k <= |o| && s[..k] == o[..k] && Spaces(s, max) < k
    ensures Spaces(o, max) == Spaces(s, max)
    decreases max
  {
    assert s[0] == s[..k][0] == o[0];
    if max > 0 && s[0] == ' ' {
      assert s[1..][..k - 1] == s[..k][1..] == o[1..][..k - 1];
      SpacesLocal(s[1..], o[1..], max - 1, k - 1);
    }
  }

  lemma PrefixDrop(s: string, o: string, k: nat, n: nat)
    requires n <= k <= |s| && k <= |o| && s[..k] == o[..k]
    ensures s[n..][..k - n] == o[n..][..k - n]
  {
    assert s[n..][..k - n] == s[..k][n..];
    assert o[n..][..k - n] == o[..k][n..];
  }

  lemma {:induction false} MarkersLocal(s: string, o: string, k: nat)
    requires k <= |s| && k <= |o| && s[..k] == o[..k] && Markers(s) < k
    ensures Markers(o) == Markers(s)
    decreases k
  {
    hide Spaces;
    assert s[0] == s[..k][0] == o[0];
    MarkerStep(s);
    MarkerStep(o);
    if s[0] == '>' {
      PrefixDrop(s, o, k, 1);
      var n := 1 + Spaces(s[1..], 3);
      SpacesLocal(s[1..], o[1..], 3, k - 1);
      PrefixDrop(s, o, k, n);
      MarkersLocal(s[n..], o[n..], k - n);
    }
  }

  lemma QuoteLocal(s: string, o: string, k: nat)
    requires k <= |s| && k <= |o| && s[..k] == o[..k] && Quote(s) < k
    ensures Quote(o) == Quote(s)
  {
    hide Spaces, Markers;
    var n := Spaces(s, 3);
    SpacesLocal(s, o, 3, k);
    PrefixDrop(s, o, k, n);
    MarkersLocal(s[n..], o[n..], k - n);
  }

  lemma RunLocal(s: string, o: string, c: char, k: nat)
    requires k <= |s| && k <= |o| && s[..k] == o[..k] && Run(s, c) < k
    ensures Run(o, c) == Run(s, c)
  {
    RunAll(s, c);
    var n := Run(s, c);
    assert forall i :: 0 <= i < k ==> s[i] == s[..k][i] == o[..k][i] == o[i];
    RunIs(o, c, n);
  }

  lemma {:induction false} BlanksLocal(s: string, o: string, k: nat)
    requires k <= |s| && k <= |o| && s[..k] == o[..k] && Blanks(s) < k
    ensures Blanks(o) == Blanks(s)
    decreases k
  {
    assert s[0] == s[..k][0] == o[0];
    if s[0] == ' ' || s[0] == '\t' {
      PrefixDrop(s, o, k, 1);
      BlanksLocal(s[1..], o[1..], k - 1);
    }
  }

  // ---- Lines ----

  lemma {:induction false} LineShape(s: string)
    ensures forall i :: 0 <= i < Line(s) - 1 ==> s[i] != '\n'
    ensures Line(s) < |s| ==> s[Line(s) - 1] == '\n'
  {
    if s != "" && s[0] != '\n' {
      LineShape(s[1..]);
      assert forall i :: 0 < i < Line(s) ==> s[i] == s[1..][i - 1];
    }
  }

  lemma {:induction false} LineIs(s: string, n: nat)
    requires 0 < n <= |s| && (forall i :: 0 <= i < n - 1 ==> s[i] != '\n') && s[n - 1] == '\n'
    ensures Line(s) == n
  {
    if s[0] != '\n' {
      LineIs(s[1..], n - 1);
    }
  }

  lemma {:induction false} SpacesStop(s: string, max: nat, j: nat)
    requires j < |s| && s[j] == '\n'
    ensures Spaces(s, max) <= j
    decreases max
  {
    if max > 0 && s[0] == ' ' {
      SpacesStop(s[1..], max - 1, j - 1);
    }
  }

  lemma {:induction false} MarkersStop(s: string, j: nat)
    requires j < |s| && s[j] == '\n'
    ensures Markers(s) <= j
    decreases j
  {
    hide Spaces;
    MarkerStep(s);
    if s[0] == '>' {
      SpacesStop(s[1..], 3, j - 1);
      var n := 1 + Spaces(s[1..], 3);
      MarkersStop(s[n..], j - n);
    }
  }

  lemma QuoteStop(s: string, j: nat)
    requires j < |s| && s[j] == '\n'
    ensures Quote(s) <= j
  {
    SpacesStop(s, 3, j);
    MarkersStop(s[Spaces(s, 3)..], j - Spaces(s, 3));
  }

  lemma RunStop(s: string, c: char, j: nat)
    requires j < |s| && s[j] == '\n' && c != '\n'
    ensures Run(s, c) <= j
  {
    RunAll(s, c);
  }

  lemma {:induction false} BlanksStop(s: string, j: nat)
    requires j < |s| && s[j] == '\n'
    ensures Blanks(s) <= j
    decreases j
  {
    if s[0] == ' ' || s[0] == '\t' {
      BlanksStop(s[1..], j - 1);
    }
  }

  /** Whether a line closes a fence is a matter of that line alone. */
  lemma ClosingLocal(s: string, o: string, c: char, n: nat, l: nat)
    requires 0 < l <= |s| && l <= |o| && s[..l] == o[..l] && s[l - 1] == '\n' && c != '\n'
    ensures Closing(o, c, n) == Closing(s, c, n)
  {
    hide Quote, Run, Blanks;
    var q := Quote(s);
    QuoteStop(s, l - 1);
    QuoteLocal(s, o, l);
    PrefixDrop(s, o, l, q);
    RunStop(s[q..], c, l - 1 - q);
    RunLocal(s[q..], o[q..], c, l - q);
    var m := Run(s[q..], c);
    PrefixDrop(s, o, l, q + m);
    BlanksStop(s[q + m..], l - 1 - (q + m));
    BlanksLocal(s[q + m..], o[q + m..], l - (q + m));
    var k := q + m + Blanks(s[q + m..]);
    assert s[k] == s[..l][k] == o[..l][k] == o[k];
  }

  lemma ClosingIsLine(s: string, c: char, n: nat)
    requires 0 < Closing(s, c, n) < |s|
    ensures Line(s) <= Closing(s, c, n)
  {
    hide Quote, Run, Tail, Line;
    NewlineEndsLine(s, Tail(s, c));
  }

  lemma {:induction false} NewlineEndsLine(s: string, i: nat)
    requires i < |s| && s[i] == '\n'
    ensures Line(s) <= i + 1
  {
    if s[0] != '\n' {
      NewlineEndsLine(s[1..], i - 1);
    }
  }

  lemma {:induction false} FenceBodyLocal(s: string, o: string, c: char, n: nat, k: nat)
    requires n > 0 && c != '\n' && k == FenceBody(s, c, n) < |s| && k <= |o| && s[..k] == o[..k]
    ensures FenceBody(o, c, n) == k
    decreases |s|
  {
    hide Closing, Line;
    FenceBodyStep(s, c, n);
    var l := Line(s);
    if Closing(s, c, n) > 0 {
      ClosingIsLine(s, c, n);
    }
    LineShape(s);
    assert l <= k;
    assert s[..l] == s[..k][..l] == o[..l];
    ClosingLocal(s, o, c, n, l);
    FenceBodyStep(o, c, n);
    if Closing(s, c, n) == 0 {
      assert o[l - 1] == o[..l][l - 1];
      assert forall i :: 0 <= i < l ==> o[i] == o[..l][i];
      LineIs(o, l);
      PrefixDrop(s, o, k, l);
      FenceBodyLocal(s[l..], o[l..], c, n, k - l);
    }
  }

  predicate Opens(s: string) {
    var q := Quote(s);
    q < |s| && (s[q] == '`' || s[q] == '~') && Run(s[q..], s[q]) >= 3
  }

  lemma FenceOpens(s: string)
    ensures Fence(s) > 0 <==> Opens(s)
  {
    hide Run, FenceBody;
  }

  /** A fenced block that ends before the text does is found again whatever follows it. */
  lemma FenceLocal(s: string, o: string, k: nat)
    requires 0 < k == Fence(s) < |s| && k <= |o| && s[..k] == o[..k]
    ensures Fence(o) == k
  {
    hide Run, FenceBody, Quote, Line;
    var q, l := Quote(s), Line(s);
    LineShape(s);
    var c, n := s[q], Run(s[q..], s[q]);
    QuoteStop(s, l - 1);
    RunStop(s[q..], c, l - 1 - q);
    QuoteLocal(s, o, k);
    assert s[q] == s[..k][q] == o[..k][q] == o[q];
    PrefixDrop(s, o, k, q);
    RunLocal(s[q..], o[q..], c, k - q);
    assert forall i :: 0 <= i < l ==> o[i] == o[..k][i] == s[..k][i] == s[i];
    LineIs(o, l);
    PrefixDrop(s, o, k, l);
    FenceBodyLocal(s[l..], o[l..], c, n, k - l);
  }

  // ---- Code spans ----

  lemma SpanCloseFollows(s: string, n: nat)
    requires n > 0 && SpanClose(s, n) >= 0
    ensures SpanClose(s, n) >= n
    decreases |s|
  {
    hide SpanClose, Run;
    if s == "" {
      SpanCloseNone(n);
    } else {
      SpanCloseStep(s, n);
      var m := Run(s, '`');
      if m != n {
        SpanCloseFollows(s[if m == 0 then 1 else m..], n);
      }
    }
  }

  lemma {:induction false} SpanCloseLocal(s: string, o: string, n: nat, k: nat)
    requires n > 0 && k == SpanClose(s, n) && k <= |s| && k <= |o| && s[..k] == o[..k] && (k < |o| ==> o[k] != '`')
    ensures SpanClose(o, n) == k
    decreases |s|
  {
    hide SpanClose, Run;
    SpanCloseFollows(s, n);
    SpanCloseStep(s, n);
    SpanCloseStep(o, n);
    var m := Run(s, '`');
    if m == n {
      RunAll(s, '`');
      assert forall i :: 0 <= i < n ==> o[i] == o[..k][i] == s[..k][i] == s[i];
      RunIs(o, '`', n);
    } else {
      var step := if m == 0 then 1 else m;
      SpanCloseFollows(s[step..], n);
      RunLocal(s, o, '`', k);
      PrefixDrop(s, o, k, step);
      SpanCloseLocal(s[step..], o[step..], n, k - step);
    }
  }

  /** A closed code span is found again as long as no backtick follows it. */
  lemma SpanLocal(s: string, o: string, k: nat)
    requires s != "" && s[0] == '`' && k == Span(s) && SpanClose(s[Run(s, '`')..], Run(s, '`')) >= 0
    requires k <= |o| && s[..k] == o[..k] && (k < |o| ==> o[k] != '`')
    ensures o != "" && o[0] == '`' && Span(o) == k
  {
    hide SpanClose, Run;
    SpanCloseStep(s, 1);
    var n := Run(s, '`');
    SpanCloseFollows(s[n..], n);
    assert o[0] == o[..k][0] == s[..k][0] == s[0];
    RunLocal(s, o, '`', k);
    PrefixDrop(s, o, k, n);
    SpanCloseLocal(s[n..], o[n..], n, k - n);
  }

  // ---- Closing brackets ----

  lemma {:induction false} CloseLocal(s: string, o: string, k: nat)
    requires k == Close(s) && k + 2 <= |s| && k + 2 <= |o| && s[..k + 2] == o[..k + 2]
    ensures Close(o) == k
    decreases k
  {
    assert s[0] == s[..k + 2][0] == o[..k + 2][0] == o[0];
    assert s[1] == s[..k + 2][1] == o[..k + 2][1] == o[1];
    if k > 0 {
      PrefixDrop(s, o, k + 2, 1);
      CloseLocal(s[1..], o[1..], k - 1);
    }
  }

  lemma {:induction false} CloseAfter(s: string, j: nat)
    requires j <= Close(s)
    ensures Close(s[j..]) == Close(s) - j
    decreases j
  {
    if j > 0 {
      CloseAfter(s[1..], j - 1);
      DropDrop(s, 1, j - 1);
    }
  }

  lemma {:induction false} ClosePast(p: string, u: string)
    requires ']' !in p && '\n' !in p && Close(u) >= 0
    ensures Close(p + u) == |p| + Close(u)
    decreases |p|
  {
    if p == "" {
      assert p + u == u;
    } else {
      assert p[0] in p;
      ClosePast(p[1..], u);
      assert (p + u)[1..] == p[1..] + u;
    }
  }

  lemma {:induction false} NoCloseOnLine(s: string, o: string)
    requires Close(s) < 0 && Line(s) <= |o| && o[..Line(s)] == s[..Line(s)] && (Line(s) == |s| ==> o == s)
    ensures Close(o) < 0
    decreases |s|
  {
    if |s| >= 2 && s[0] != '\n' {
      var l := Line(s);
      assert o[0] == o[..l][0] == s[..l][0] == s[0];
      if l > 1 {
        PrefixDrop(s, o, l, 1);
        NoCloseOnLine(s[1..], o[1..]);
        assert o[1] == o[..l][1] == s[..l][1] == s[1];
      }
    } else if s != "" && s[0] == '\n' {
      assert o[0] == o[..1][0] == s[..1][0];
    }
  }

  // ---- Backtick runs ----

  function Counted(c: nat): seq<nat> {
    if c > 0 then [c] else []
  }

  /** The lengths of all backtick runs, when `c` backticks come right before the text. */
  function Runs(s: string, c: nat): seq<nat>
    decreases |s|
  {
    if s == "" then Counted(c)
    else if s[0] == '`' then Runs(s[1..], c + 1)
    else Counted(c) + Runs(s[1..], 0)
  }

  /** The runs that are over before the end of the text, and the length of the one that is not. */
  function Ended(s: string, c: nat): seq<nat>
    decreases |s|
  {
    if s == "" then [] else if s[0] == '`' then Ended(s[1..], c + 1) else Counted(c) + Ended(s[1..], 0)
  }

  function Going(s: string, c: nat): nat
    decreases |s|
  {
    if s == "" then c else if s[0] == '`' then Going(s[1..], c + 1) else Going(s[1..], 0)
  }

  lemma {:induction false} RunsConcat(a: string, b: string, c: nat)
    ensures Runs(a + b, c) == Ended(a, c) + Runs(b, Going(a, c))
    decreases |a|
  {
    if a == "" {
      assert a + b == b;
    } else {
      assert (a + b)[1..] == a[1..] + b;
      RunsConcat(a[1..], b, if a[0] == '`' then c + 1 else 0);
    }
  }

  lemma {:induction false} EndedConcat(a: string, b: string, c: nat)
    ensures Ended(a + b, c) == Ended(a, c) + Ended(b, Going(a, c))
    ensures Going(a + b, c) == Going(b, Going(a, c))
    decreases |a|
  {
    if a == "" {
      assert a + b == b;
    } else {
      assert (a + b)[1..] == a[1..] + b;
      EndedConcat(a[1..], b, if a[0] == '`' then c + 1 else 0);
    }
  }

  lemma {:induction false} EndedPlain(p: string, c: nat)
    requires '`' !in p && p != ""
    ensures Ended(p, c) == Counted(c) && Going(p, c) == 0
    decreases |p|
  {
    assert p[0] in p;
    if |p| > 1 {
      EndedPlain(p[1..], 0);
    } else {
      assert p[1..] == "";
    }
  }

  lemma {:induction false} RunsAhead(s: string, c: nat)
    ensures var m := Run(s, '`'); Runs(s, c) == Counted(c + m) + if m < |s| then Runs(s[m + 1..], 0) else []
    decreases |s|
  {
    if s != "" && s[0] == '`' {
      RunsAhead(s[1..], c + 1);
      var m := Run(s[1..], '`');
      if m < |s[1..]| {
        DropDrop(s, 1, m + 1);
      }
    }
  }

  lemma RunsFirst(s: string)
    requires Run(s, '`') > 0
    ensures var m := Run(s, '`'); Runs(s, 0) == [m] + Runs(s[m..], 0)
  {
    var m := Run(s, '`');
    RunsAhead(s, 0);
    RunAll(s, '`');
    if m < |s| {
      assert s[m..][1..] == s[m + 1..];
    } else {
      assert s[m..] == "";
    }
  }

  /** A span of `n` backticks can be closed just when there is a run of that length. */
  lemma {:induction false} SpanCloseRuns(s: string, n: nat)
    requires n > 0
    ensures SpanClose(s, n) >= 0 <==> n in Runs(s, 0)
    decreases |s|
  {
    hide SpanClose, Run;
    if s == "" {
      SpanCloseNone(n);
    } else {
      SpanCloseStep(s, n);
      var m := Run(s, '`');
      if m == 0 {
        SpanCloseRuns(s[1..], n);
      } else {
        RunsFirst(s);
        SpanCloseRuns(s[m..], n);
      }
    }
  }

  // ---- Routes that rewriting can be repeated with ----

  predicate PlainText(p: string) {
    '[' !in p && ']' !in p && '`' !in p && '\n' !in p && '#' !in p && '|' !in p
  }

  predicate PlainRoutes(routes: Routes) {
    forall from :: from in routes ==> '`' !in from && PlainText(routes[from])
  }

  /** No route leads to another. */
  predicate OneHop(routes: Routes) {
    forall from :: from in routes ==> TrimSpace(routes[from]) !in routes
  }

  function Base(inner: string): string {
    Before(Before(inner, '|'), '#')
  }

  lemma {:induction false} BeforeStops(s: string, c: char)
    ensures c !in Before(s, c) && (|Before(s, c)| < |s| ==> s[|Before(s, c)|] == c)
  {
    if s != "" && s[0] != c {
      BeforeStops(s[1..], c);
    }
  }

  lemma {:induction false} BeforeIs(p: string, u: string, c: char)
    requires c !in p && (u == "" || u[0] == c)
    ensures Before(p + u, c) == p
    decreases |p|
  {
    if p == "" {
      assert p + u == u;
    } else {
      assert p[0] in p && (p + u)[1..] == p[1..] + u;
      BeforeIs(p[1..], u, c);
    }
  }

  function Anchor(target: string): string {
    var base := Before(target, '#'); if |base| < |target| then "#" + target[|base| + 1..] else ""
  }

  function Alias(inner: string): string {
    var target := Before(inner, '|'); if |target| < |inner| then "|" + inner[|target| + 1..] else ""
  }

  lemma ReroutedParts(routes: Routes, inner: string)
    requires Rerouted(routes, inner).Some?
    ensures TrimSpace(Base(inner)) in routes
    ensures Rerouted(routes, inner).value == routes[TrimSpace(Base(inner))] + Anchor(Before(inner, '|')) + Alias(inner)
  {
    hide Before, TrimSpace;
  }

  /** A new link is the new route with everything after the old one. */
  lemma ReroutedShape(routes: Routes, inner: string)
    requires Rerouted(routes, inner).Some?
    ensures |Base(inner)| <= |inner| && inner[..|Base(inner)|] == Base(inner)
    ensures TrimSpace(Base(inner)) in routes
    ensures Rerouted(routes, inner).value == routes[TrimSpace(Base(inner))] + inner[|Base(inner)|..]
  {
    hide Before, TrimSpace, Rerouted;
    ReroutedParts(routes, inner);
    var target := Before(inner, '|');
    var base := Before(target, '#');
    BeforeStops(inner, '|');
    BeforeStops(target, '#');
    CutsBack(target, base, '#', Anchor(target));
    CutsBack(inner, target, '|', Alias(inner));
    CutTwice(inner, target, base);
    Assoc(routes[TrimSpace(base)], Anchor(target), Alias(inner));
  }

  /** What a cut at `c` leaves, with the `c` in front again. */
  lemma CutsBack(s: string, before: string, c: char, rest: string)
    requires before <= s && (|before| < |s| ==> s[|before|] == c)
    requires rest == if |before| < |s| then [c] + s[|before| + 1..] else ""
    ensures rest == s[|before|..]
  {
  }

  lemma CutTwice(inner: string, target: string, base: string)
    requires base <= target <= inner
    ensures target[|base|..] + inner[|target|..] == inner[|base|..]
  {
    assert inner == target + inner[|target|..];
    CutConcat(target, inner[|target|..], |base|);
  }

  /** What follows the route in a link starts with the separator it was cut at. */
  lemma RestShape(inner: string)
    ensures |Base(inner)| <= |inner|
    ensures |Base(inner)| < |inner| ==> inner[|Base(inner)|] == '#' || inner[|Base(inner)|] == '|'
  {
    hide Before;
    var target := Before(inner, '|');
    BeforeStops(inner, '|');
    BeforeStops(target, '#');
  }

  lemma BaseOfPlain(p: string, rest: string)
    requires '#' !in p && '|' !in p && (rest == "" || rest[0] == '#' || rest[0] == '|')
    ensures Base(p + rest) == p
  {
    hide Before;
    var inner := p + rest;
    var target := Before(inner, '|');
    var u := Before(rest, '|');
    BeforeStops(rest, '|');
    BeforeConcat(p, rest, '|');
    BeforeIs(p, u, '#');
  }

  lemma {:induction false} BeforeConcat(p: string, u: string, c: char)
    requires c !in p
    ensures Before(p + u, c) == p + Before(u, c)
    decreases |p|
  {
    if p == "" {
      assert p + u == u;
    } else {
      assert p[0] in p && (p + u)[1..] == p[1..] + u;
      BeforeConcat(p[1..], u, c);
    }
  }

  /** Routing a rerouted link once more does nothing. */
  lemma ReroutedOnce(routes: Routes, inner: string)
    requires PlainRoutes(routes) && OneHop(routes) && Rerouted(routes, inner).Some?
    ensures Rerouted(routes, Rerouted(routes, inner).value) == None
  {
    hide Before, TrimSpace, Base;
    ReroutedShape(routes, inner);
    RestShape(inner);
    var to := routes[TrimSpace(Base(inner))];
    BaseOfPlain(to, inner[|Base(inner)|..]);
    NotRouted(routes, Rerouted(routes, inner).value);
  }

  lemma NotRouted(routes: Routes, inner: string)
    requires TrimSpace(Base(inner)) !in routes
    ensures Rerouted(routes, inner) == None
  {
  }

  lemma {:induction false} TrimKeeps(s: string, c: char)
    requires c in s && !IsSpace(c)
    ensures c in TrimSpace(s)
  {
    TrimLeftKeeps(s, c);
    TrimRightKeeps(TrimLeft(s), c);
  }

  lemma {:induction false} TrimLeftKeeps(s: string, c: char)
    requires c in s && !IsSpace(c)
    ensures c in TrimLeft(s)
  {
    if IsSpace(s[0]) {
      TrimLeftKeeps(s[1..], c);
    }
  }

  lemma {:induction false} TrimRightKeeps(s: string, c: char)
    requires c in s && !IsSpace(c)
    ensures c in TrimRight(s)
  {
    if IsSpace(s[|s| - 1]) {
      TrimRightKeeps(s[..|s| - 1], c);
    }
  }

  lemma BaseHasNoTick(routes: Routes, inner: string)
    requires PlainRoutes(routes) && TrimSpace(Base(inner)) in routes
    ensures '`' !in Base(inner)
  {
    hide TrimSpace, Base;
    if '`' in Base(inner) {
      TrimKeeps(Base(inner), '`');
    }
  }

  /** The old and the new text of a routed link differ in a stretch without backticks. */
  lemma LinkRuns(routes: Routes, g: Segment, c: nat)
    requires PlainRoutes(routes) && g.Link? && Rerouted(routes, g.inner).Some?
    ensures Ended(Rewritten(routes, g), c) == Ended(Text(g), c)
    ensures Going(Rewritten(routes, g), c) == Going(Text(g), c)
  {
    hide Before, TrimSpace, Base, Rerouted, Ended, Going;
    ReroutedShape(routes, g.inner);
    var base, rest := Base(g.inner), g.inner[|Base(g.inner)|..] + "]]";
    BaseHasNoTick(routes, g.inner);
    var to := routes[TrimSpace(base)];
    assert Text(g) == ("[[" + base) + rest;
    assert Rewritten(routes, g) == ("[[" + to) + rest;
    EndedConcat("[[" + base, rest, c);
    EndedConcat("[[" + to, rest, c);
    EndedPlain("[[" + base, c);
    EndedPlain("[[" + to, c);
  }

  lemma SegmentRuns(routes: Routes, g: Segment, c: nat)
    requires PlainRoutes(routes)
    ensures Ended(Rewritten(routes, g), c) == Ended(Text(g), c) && Going(Rewritten(routes, g), c) == Going(Text(g), c)
  {
    if g.Link? && Rerouted(routes, g.inner).Some? {
      LinkRuns(routes, g, c);
    }
  }

  /** Rewriting leaves all backtick runs as they are. */
  lemma {:induction false} RunsKept(routes: Routes, s: string, lineStart: bool, c: nat)
    requires PlainRoutes(routes)
    ensures Runs(Rewrite(routes, s, lineStart), c) == Runs(s, c)
    decreases |s|
  {
    hide Next, Rewritten, Runs, Rewrite;
    if s == "" {
      RewriteNothing(routes, lineStart);
    } else {
      var g := Next(s, lineStart);
      NextIsThere(s, lineStart);
      var rest := s[|Text(g)|..];
      RewriteStep(routes, s, lineStart, g, rest);
      SegmentRuns(routes, g, c);
      RunsConcat(Text(g), rest, c);
      assert s == Text(g) + rest;
      RunsConcat(Rewritten(routes, g), Rewrite(routes, rest, StartsLine(g)), c);
      RunsKept(routes, rest, StartsLine(g), Going(Text(g), c));
    }
  }

  // ---- Rewriting keeps the segments ----

  lemma RewrittenStarts(routes: Routes, s: string, lineStart: bool)
    requires s != ""
    ensures Rewritten(routes, Next(s, lineStart)) != "" && Rewritten(routes, Next(s, lineStart))[0] == s[0]
    ensures s[0] != '[' ==> Rewritten(routes, Next(s, lineStart)) == Text(Next(s, lineStart))
  {
    hide Fence, Span, Close, Rerouted;
    NextIsThere(s, lineStart);
    var g := Next(s, lineStart);
    assert s[0] == s[..|Text(g)|][0] == Text(g)[0];
  }

  /** Up to the first bracket, and including it, the text stays the same. */
  lemma {:induction false} HeadKept(routes: Routes, s: string, lineStart: bool, k: nat)
    requires k <= |s| && '[' !in s[..k]
    ensures var o := Rewrite(routes, s, lineStart);
            && k <= |o| && o[..k] == s[..k]
            && (k < |s| ==> k < |o| && o[k] == s[k])
            && (k == |s| ==> o == s)
    decreases |s|
  {
    hide Next, Rewritten, Rewrite;
    if s == "" {
      RewriteNothing(routes, lineStart);
    } else {
      var g := Next(s, lineStart);
      NextIsThere(s, lineStart);
      var n := |Text(g)|;
      var rest := s[n..];
      RewriteStep(routes, s, lineStart, g, rest);
      RewrittenStarts(routes, s, lineStart);
      if k > 0 {
        assert s[0] in s[..k];
        assert s == Text(g) + rest;
        if n <= k {
          assert s[..k] == Text(g) + rest[..k - n];
          HeadKept(routes, rest, StartsLine(g), k - n);
        } else {
          assert Text(g)[..k] == s[..n][..k] == s[..k];
          assert Text(g)[k] == s[..n][k] == s[k];
        }
      }
    }
  }

  lemma {:induction false} FirstBracket(s: string) returns (p: nat)
    ensures p <= |s| && '[' !in s[..p] && (p < |s| ==> s[p] == '[')
  {
    if s == "" || s[0] == '[' {
      p := 0;
    } else {
      p := FirstBracket(s[1..]);
      assert s[..p + 1] == [s[0]] + s[1..][..p];
      p := p + 1;
    }
  }

  /** A head without brackets in the result was there before. */
  lemma HeadBack(routes: Routes, s: string, lineStart: bool, k: nat)
    requires k <= |Rewrite(routes, s, lineStart)| && '[' !in Rewrite(routes, s, lineStart)[..k]
    ensures k <= |s| && s[..k] == Rewrite(routes, s, lineStart)[..k]
  {
    hide Rewrite;
    var o := Rewrite(routes, s, lineStart);
    var p := FirstBracket(s);
    HeadKept(routes, s, lineStart, p);
    assert forall i :: 0 <= i < k ==> o[i] == o[..k][i] && o[i] != '[';
    assert k <= p;
    assert s[..k] == s[..p][..k];
  }

  lemma {:induction false} SpacesAre(s: string, max: nat)
    ensures forall i :: 0 <= i < Spaces(s, max) ==> s[i] == ' '
  {
    if max > 0 && s != "" && s[0] == ' ' {
      SpacesAre(s[1..], max - 1);
      assert forall i :: 0 < i < Spaces(s, max) ==> s[i] == s[1..][i - 1];
    }
  }

  lemma {:induction false} MarkersAre(s: string)
    ensures '[' !in s[..Markers(s)]
    decreases |s|
  {
    hide Spaces, Markers;
    MarkerStep(s);
    if s != "" && s[0] == '>' {
      var n := Spaces(s[1..], 3);
      SpacesAre(s[1..], 3);
      MarkersAre(s[1 + n..]);
      var m := Markers(s[1 + n..]);
      assert s[..1 + n + m] == [s[0]] + s[1..][..n] + s[1 + n..][..m];
    }
  }

  lemma QuoteHasNoBracket(s: string)
    ensures '[' !in s[..Quote(s)]
  {
    hide Spaces, Markers;
    var n := Spaces(s, 3);
    SpacesAre(s, 3);
    MarkersAre(s[n..]);
    var m := Markers(s[n..]);
    assert s[..n + m] == s[..n] + s[n..][..m];
  }

  lemma RunMin(s: string, c: char, n: nat)
    ensures Run(s, c) >= n <==> n <= |s| && forall i :: 0 <= i < n ==> s[i] == c
  {
    RunAll(s, c);
  }

  /** Rewriting opens no fence. */
  lemma NoNewFence(routes: Routes, s: string, lineStart: bool)
    requires Fence(s) == 0
    ensures Fence(Rewrite(routes, s, lineStart)) == 0
  {
    hide Rewrite, Quote, Run, Fence;
    var o := Rewrite(routes, s, lineStart);
    FenceOpens(s);
    FenceOpens(o);
    if Opens(o) {
      var q := Quote(o);
      RunMin(o[q..], o[q], 3);
      QuoteHasNoBracket(o);
      assert o[q..][0] == o[q] && o[q..][1] == o[q + 1] && o[q..][2] == o[q + 2];
      assert o[..q + 3] == o[..q] + [o[q], o[q + 1], o[q + 2]];
      HeadBack(routes, s, lineStart, q + 3);
      QuoteLocal(o, s, q + 3);
      assert forall i :: 0 <= i < q + 3 ==> s[i] == s[..q + 3][i] == o[..q + 3][i] == o[i];
      assert s[q..][0] == s[q] && s[q..][1] == s[q + 1] && s[q..][2] == s[q + 2];
      RunMin(s[q..], s[q], 3);
    }
  }

  /** What follows a segment keeps its first character. */
  lemma FirstKept(routes: Routes, s: string, lineStart: bool)
    ensures var o := Rewrite(routes, s, lineStart); if s == "" then o == "" else o != "" && o[0] == s[0]
  {
    hide Rewrite;
    HeadKept(routes, s, lineStart, 0);
  }

  lemma FenceKept(routes: Routes, s: string)
    requires s != "" && Fence(s) > 0
    ensures Fence(Rewrite(routes, s, true)) == Fence(s)
    ensures Rewrite(routes, s, true)[..Fence(s)] == s[..Fence(s)]
  {
    hide Fence, Rewrite;
    var g := Code(s[..Fence(s)]);
    var rest := s[Fence(s)..];
    RewriteStep(routes, s, true, g, rest);
    if rest == "" {
      RewriteNothing(routes, StartsLine(g));
      assert Rewrite(routes, s, true) == s;
    } else {
      FenceLocal(s, Rewrite(routes, s, true), Fence(s));
    }
  }

  lemma SpanKept(routes: Routes, s: string, lineStart: bool)
    requires PlainRoutes(routes) && s != "" && s[0] == '`' && !(lineStart && Fence(s) > 0)
    ensures var o := Rewrite(routes, s, lineStart);
            o != "" && o[0] == '`' && Span(o) == Span(s) && o[..Span(s)] == s[..Span(s)]
  {
    hide Fence, Rewrite, Run, SpanClose;
    var o := Rewrite(routes, s, lineStart);
    var g := Code(s[..Span(s)]);
    var rest := s[Span(s)..];
    RewriteStep(routes, s, lineStart, g, rest);
    SpanCloseStep(s, 1);
    var n := Run(s, '`');
    if SpanClose(s[n..], n) >= 0 {
      FirstKept(routes, rest, StartsLine(g));
      SpanEnds(s);
      SpanLocal(s, o, Span(s));
    } else {
      FirstKept(routes, s, lineStart);
      SpanCloseStep(o, 1);
      RunsKept(routes, s, lineStart, 0);
      RunsFirst(s);
      RunsFirst(o);
      var m := Run(o, '`');
      assert Runs(s, 0)[0] == n && Runs(o, 0)[0] == m;
      assert Runs(s[n..], 0) == Runs(s, 0)[1..] == Runs(o, 0)[1..] == Runs(o[m..], 0);
      SpanCloseRuns(s[n..], n);
      SpanCloseRuns(o[m..], n);
    }
  }

  /** No backtick comes right after a closed code span. */
  lemma SpanEnds(s: string)
    requires s != "" && s[0] == '`' && SpanClose(s[Run(s, '`')..], Run(s, '`')) >= 0
    ensures Span(s) < |s| ==> s[Span(s)] != '`'
  {
    hide SpanClose, Run;
    SpanCloseStep(s, 1);
    SpanCloseEnds(s[Run(s, '`')..], Run(s, '`'));
  }

  lemma {:induction false} SpanCloseEnds(s: string, n: nat)
    requires n > 0 && SpanClose(s, n) >= 0
    ensures SpanClose(s, n) < |s| ==> s[SpanClose(s, n)] != '`'
    decreases |s|
  {
    hide SpanClose, Run;
    if s == "" {
      SpanCloseNone(n);
    } else {
      SpanCloseStep(s, n);
      RunAll(s, '`');
      var m := Run(s, '`');
      if m != n {
        SpanCloseEnds(s[if m == 0 then 1 else m..], n);
      }
    }
  }

  lemma LinkAt(s: string, lineStart: bool)
    requires s != "" && Next(s, lineStart).Link?
    ensures |s| > 1 && s[0] == '[' && s[1] == '[' && !(lineStart && Fence(s) > 0)
    ensures var k := Close(s[2..]); k >= 0 && Next(s, lineStart) == Link(s[2..2 + k]) && 2 + k + 2 <= |s|
    ensures Close(s) >= 0
  {
    hide Fence, Span;
    assert s[1..][1..] == s[2..];
  }

  /** A line without closing brackets stays as it is. */
  lemma {:induction false} LineKept(routes: Routes, s: string, lineStart: bool)
    requires Close(s) < 0
    ensures var o := Rewrite(routes, s, lineStart);
            Line(s) <= |o| && o[..Line(s)] == s[..Line(s)] && (Line(s) == |s| ==> o == s)
    decreases |s|
  {
    hide Next, Rewrite, Close, Line;
    if s == "" {
      RewriteNothing(routes, lineStart);
    } else {
      var g := Next(s, lineStart);
      NextIsThere(s, lineStart);
      var n := |Text(g)|;
      var rest := s[n..];
      RewriteStep(routes, s, lineStart, g, rest);
      if g.Link? {
        LinkAt(s, lineStart);
      }
      assert Rewritten(routes, g) == s[..n];
      if n < Line(s) {
        LineAfter(s, n);
        LineKept(routes, rest, StartsLine(g));
        assert s[..Line(s)] == s[..n] + rest[..Line(rest)];
      } else {
        assert s[..n][..Line(s)] == s[..Line(s)];
        if Line(s) == |s| {
          RewriteNothing(routes, StartsLine(g));
          assert rest == "";
        }
      }
    }
  }

  lemma {:induction false} LineAfter(s: string, n: nat)
    requires n < Line(s) && Close(s) < 0
    ensures Line(s) == n + Line(s[n..]) && Close(s[n..]) < 0
    decreases n
  {
    if n > 0 {
      LineAfter(s[1..], n - 1);
      DropDrop(s, 1, n - 1);
    }
  }

  /** The new link closes where its text ends. */
  lemma RelinkedCloses(routes: Routes, inner: string, rest: string, rest': string)
    requires PlainRoutes(routes) && Rerouted(routes, inner).Some? && Close(inner + "]]" + rest) == |inner|
    ensures Close(Rerouted(routes, inner).value + "]]" + rest') == |Rerouted(routes, inner).value|
  {
    hide Before, TrimSpace, Base, Rerouted, Close;
    ReroutedShape(routes, inner);
    var b := |Base(inner)|;
    var to, tail := routes[TrimSpace(Base(inner))], inner[b..];
    var old_, new_ := inner + "]]" + rest, tail + "]]" + rest';
    CloseAfter(old_, b);
    assert old_[b..] == tail + "]]" + rest;
    var k := |tail|;
    assert (tail + "]]" + rest)[..k + 2] == tail + "]]" == new_[..k + 2];
    CloseLocal(tail + "]]" + rest, new_, k);
    ClosePast(to, new_);
    assert to + new_ == Rerouted(routes, inner).value + "]]" + rest';
  }

  /** The result begins with the segment that the text began with, relinked. */
  lemma NextKept(routes: Routes, s: string, lineStart: bool)
    requires PlainRoutes(routes) && s != ""
    ensures var o := Rewrite(routes, s, lineStart);
            o != "" && Next(o, lineStart) == Relinked(routes, Next(s, lineStart))
  {
    hide Rewrite, Fence, Span, Close, Rerouted;
    var o := Rewrite(routes, s, lineStart);
    FirstKept(routes, s, lineStart);
    if lineStart && Fence(s) > 0 {
      FenceKept(routes, s);
    } else {
      if lineStart {
        NoNewFence(routes, s, lineStart);
      }
      if s[0] == '`' {
        SpanKept(routes, s, lineStart);
      } else if Next(s, lineStart).Link? {
        LinkKept(routes, s, lineStart);
      } else {
        PlainKept(routes, s, lineStart);
      }
    }
  }

  lemma LinkKept(routes: Routes, s: string, lineStart: bool)
    requires PlainRoutes(routes) && s != "" && Next(s, lineStart).Link?
    ensures var o := Rewrite(routes, s, lineStart);
            var g := Relinked(routes, Next(s, lineStart));
            |o| > 1 && o[0] == '[' && o[1] == '[' && Close(o[2..]) == |g.inner| && o[2..2 + |g.inner|] == g.inner
  {
    hide Rewrite, Fence, Span, Close, Rerouted, Next;
    LinkAt(s, lineStart);
    NextIsThere(s, lineStart);
    var g := Next(s, lineStart);
    var k := Close(s[2..]);
    var rest := s[|Text(g)|..];
    RewriteStep(routes, s, lineStart, g, rest);
    var o, rest' := Rewrite(routes, s, lineStart), Rewrite(routes, rest, StartsLine(g));
    assert s == ("[[" + g.inner + "]]") + rest;
    assert s[2..] == g.inner + "]]" + rest;
    if Rerouted(routes, g.inner).Some? {
      var inner := Rerouted(routes, g.inner).value;
      RelinkedCloses(routes, g.inner, rest, rest');
      assert o == ("[[" + inner + "]]") + rest';
      assert o[2..] == inner + "]]" + rest';
    } else {
      assert o == ("[[" + g.inner + "]]") + rest';
      assert o[2..] == g.inner + "]]" + rest';
      assert s[2..][..k + 2] == g.inner + "]]" == o[2..][..k + 2];
      CloseLocal(s[2..], o[2..], k);
    }
  }

  lemma PlainKept(routes: Routes, s: string, lineStart: bool)
    requires s != "" && !(lineStart && Fence(s) > 0) && s[0] != '`' && !Next(s, lineStart).Link?
    ensures var o := Rewrite(routes, s, lineStart);
            o != "" && o[0] == s[0] && !(|o| > 1 && o[0] == '[' && o[1] == '[' && Close(o[2..]) >= 0)
  {
    hide Rewrite, Fence, Span, Close, Line;
    var g := Plain(s[0]);
    var rest := s[1..];
    RewriteStep(routes, s, lineStart, g, rest);
    var o, rest' := Rewrite(routes, s, lineStart), Rewrite(routes, rest, StartsLine(g));
    assert o == [s[0]] + rest';
    FirstKept(routes, rest, StartsLine(g));
    if |o| > 1 && o[0] == '[' && o[1] == '[' {
      assert rest != "" && rest[0] == s[1];
      assert Close(s[2..]) < 0;
      NoCloseAhead(s);
      LineKept(routes, rest, StartsLine(g));
      NoCloseOnLine(rest, rest');
      assert o[1..] == rest';
      NoCloseBehind(rest');
      assert rest'[1..] == o[2..];
    }
  }

  lemma NoCloseAhead(s: string)
    requires |s| > 1 && s[1] == '[' && Close(s[2..]) < 0
    ensures Close(s[1..]) < 0
  {
    assert s[1..][1..] == s[2..];
  }

  lemma NoCloseBehind(s: string)
    requires s != "" && s[0] == '[' && Close(s) < 0
    ensures Close(s[1..]) < 0
  {
  }

  /**
   * The rewritten page splits into the very segments of the page, with the routed links relinked: no rewriting turns text
   * into code, code into text, or brackets into a link.
   */
  lemma {:induction false} SegmentsKept(routes: Routes, s: string, lineStart: bool)
    requires PlainRoutes(routes)
    ensures Segments(Rewrite(routes, s, lineStart), lineStart) == AllRelinked(routes, Segments(s, lineStart))
    decreases |s|
  {
    hide Next, Rewrite, Rerouted;
    if s == "" {
      RewriteNothing(routes, lineStart);
    } else {
      var g := Next(s, lineStart);
      NextIsThere(s, lineStart);
      var rest := s[|Text(g)|..];
      RewriteStep(routes, s, lineStart, g, rest);
      NextKept(routes, s, lineStart);
      var g' := Relinked(routes, g);
      var o, rest' := Rewrite(routes, s, lineStart), Rewrite(routes, rest, StartsLine(g));
      assert Rewritten(routes, g) == Text(g') && o == Text(g') + rest';
      assert o[|Text(g')|..] == rest';
      SegmentsKept(routes, rest, StartsLine(g));
      assert Segments(s, lineStart) == [g] + Segments(rest, StartsLine(g));
      assert ([g] + Segments(rest, StartsLine(g)))[1..] == Segments(rest, StartsLine(g));
    }
  }

  lemma {:induction false} RelinkedTwice(routes: Routes, segments: seq<Segment>)
    requires PlainRoutes(routes) && OneHop(routes)
    ensures AllRelinked(routes, AllRelinked(routes, segments)) == AllRelinked(routes, segments)
  {
    hide Rerouted, PlainRoutes, OneHop;
    if segments != [] {
      var g := segments[0];
      RelinkedTwice(routes, segments[1..]);
      if g.Link? && Rerouted(routes, g.inner).Some? {
        ReroutedOnce(routes, g.inner);
      }
    }
  }

  /** Rewriting a rewritten page once more changes nothing. */
  lemma RewritingTwiceIsOnce(routes: Routes, s: string)
    requires PlainRoutes(routes) && OneHop(routes)
    ensures Rewrite(routes, Rewrite(routes, s, true), true) == Rewrite(routes, s, true)
  {
    hide Rewrite, Segments, AllRelinked, PlainRoutes, OneHop;
    var o := Rewrite(routes, s, true);
    SegmentsKept(routes, s, true);
    RelinkedTwice(routes, Segments(s, true));
    RewriteRelinks(routes, o, true);
    RewriteRelinks(routes, s, true);
  }
}

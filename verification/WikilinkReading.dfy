/** What the link rewriter takes for code and for links, and what becomes of the links, read off the page. */
module WikilinkReading {
  import opened Options
  import opened Texts
  import opened ByteStrings
  import opened Wikilinks
  import opened WikilinkTheorems

  // ---- What becomes of a link ----

  /** The part of a link before its first '|' or '#'. */
  predicate RouteEnds(inner: string, k: nat) {
    && k <= |inner| && '|' !in inner[..k] && '#' !in inner[..k]
    && (k < |inner| ==> inner[k] == '|' || inner[k] == '#')
  }

  lemma BaseEnds(inner: string, k: nat)
    requires RouteEnds(inner, k)
    ensures Base(inner) == inner[..k]
  {
    hide Base;
    assert inner == inner[..k] + inner[k..];
    BaseOfPlain(inner[..k], inner[k..]);
  }

  lemma LinkExactly(routes: Routes, inner: string, k: nat)
    requires RouteEnds(inner, k)
    ensures Rerouted(routes, inner) ==
              if TrimSpace(inner[..k]) in routes then Some(routes[TrimSpace(inner[..k])] + inner[k..]) else None
  {
    hide Before, TrimSpace;
    BaseEnds(inner, k);
    if TrimSpace(inner[..k]) in routes {
      ReroutedShape(routes, inner);
    }
  }

  function Concat(texts: seq<string>): string {
    if texts == [] then "" else texts[0] + Concat(texts[1..])
  }

  /**
   * The rewritten page is the page segment by segment: code and characters as they are, and of a link, when what comes
   * before its first bar or hash is routed, that part replaced and all the rest kept.
   */
  lemma {:induction false} RewriteExactly(routes: Routes, s: string, lineStart: bool) returns (texts: seq<string>)
    ensures Concat(texts) == Rewrite(routes, s, lineStart) && |texts| == |Segments(s, lineStart)|
    ensures forall i :: 0 <= i < |texts| && !Segments(s, lineStart)[i].Link? ==> texts[i] == Text(Segments(s, lineStart)[i])
    ensures forall i, k: nat :: 0 <= i < |texts| && Segments(s, lineStart)[i].Link? && RouteEnds(Segments(s, lineStart)[i].inner, k) ==>
              var inner := Segments(s, lineStart)[i].inner;
              texts[i] == if TrimSpace(inner[..k]) in routes then "[[" + (routes[TrimSpace(inner[..k])] + inner[k..]) + "]]"
                          else "[[" + inner + "]]"
    decreases |s|
  {
    hide Next, Rerouted, RouteEnds, TrimSpace;
    if s == "" {
      texts := [];
    } else {
      var g := Next(s, lineStart);
      NextIsThere(s, lineStart);
      var rest := s[|Text(g)|..];
      var more := RewriteExactly(routes, rest, StartsLine(g));
      texts := [Rewritten(routes, g)] + more;
      assert texts[1..] == more;
      RewriteStep(routes, s, lineStart, g, rest);
      assert Segments(s, lineStart) == [g] + Segments(rest, StartsLine(g));
      if g.Link? {
        forall k: nat | RouteEnds(g.inner, k) ensures k <= |g.inner| &&
          texts[0] == if TrimSpace(g.inner[..k]) in routes then "[[" + (routes[TrimSpace(g.inner[..k])] + g.inner[k..]) + "]]"
                      else "[[" + g.inner + "]]"
        {
          RouteIsInside(g.inner, k);
          LinkExactly(routes, g.inner, k);
        }
      }
    }
  }

  lemma RouteIsInside(inner: string, k: nat)
    requires RouteEnds(inner, k)
    ensures k <= |inner|
  {
  }

  /** With plain routes these are the segments of the new page too, its links among them. */
  lemma RewrittenLinks(routes: Routes, s: string, i: nat, k: nat)
    requires PlainRoutes(routes) && i < |Segments(s, true)|
    requires Segments(s, true)[i].Link? ==> RouteEnds(Segments(s, true)[i].inner, k)
    ensures |Segments(Rewrite(routes, s, true), true)| == |Segments(s, true)|
    ensures var g, g' := Segments(s, true)[i], Segments(Rewrite(routes, s, true), true)[i];
            && (!g.Link? ==> g' == g)
            && (g.Link? ==> g' == Link(if TrimSpace(g.inner[..k]) in routes then routes[TrimSpace(g.inner[..k])] + g.inner[k..] else g.inner))
  {
    hide Segments, Rewrite, Rerouted, TrimSpace, PlainRoutes;
    var g := Segments(s, true)[i];
    SegmentsKept(routes, s, true);
    RelinkedAt(routes, Segments(s, true), i);
    if g.Link? {
      LinkExactly(routes, g.inner, k);
    }
  }

  lemma {:induction false} RelinkedAt(routes: Routes, segments: seq<Segment>, i: nat)
    requires i < |segments|
    ensures |AllRelinked(routes, segments)| == |segments| && AllRelinked(routes, segments)[i] == Relinked(routes, segments[i])
  {
    hide Rerouted;
    if i > 0 {
      RelinkedAt(routes, segments[1..], i - 1);
    } else {
      RelinkedLength(routes, segments);
    }
  }

  lemma {:induction false} RelinkedLength(routes: Routes, segments: seq<Segment>)
    ensures |AllRelinked(routes, segments)| == |segments|
  {
    if segments != [] {
      RelinkedLength(routes, segments[1..]);
    }
  }

  // ---- What is code and what is a link ----

  lemma SegmentsStep(s: string, lineStart: bool)
    requires s != ""
    ensures var g := Next(s, lineStart);
            && 0 < |Text(g)| <= |s| && (StartsLine(g) <==> s[|Text(g)| - 1] == '\n')
            && Segments(s, lineStart) == [g] + Segments(s[|Text(g)|..], StartsLine(g))
  {
    hide Next;
    EndsLine(s, lineStart);
  }

  lemma JoinedStep(g: Segment, rest: seq<Segment>, i: nat)
    requires 0 < i <= |rest| + 1
    ensures Joined(([g] + rest)[..i]) == Text(g) + Joined(rest[..i - 1])
  {
    assert ([g] + rest)[..i] == [g] + rest[..i - 1];
    assert ([g] + rest[..i - 1])[1..] == rest[..i - 1];
  }

  /** Each segment is the next one of the text from its place on; a fence may start there at the start of a line only. */
  lemma {:induction false} SegmentExactly(s: string, lineStart: bool, i: nat)
    requires i < |Segments(s, lineStart)|
    ensures var p := |Joined(Segments(s, lineStart)[..i])|;
            p < |s| && Segments(s, lineStart)[i] == Next(s[p..], if p == 0 then lineStart else s[p - 1] == '\n')
    decreases i
  {
    hide Next, Segments, Text, Joined, StartsLine;
    if s == "" {
      NothingThere(lineStart);
    }
    SegmentsStep(s, lineStart);
    var g := Next(s, lineStart);
    var n := |Text(g)|;
    var rest := s[n..];
    var more := Segments(rest, StartsLine(g));
    if i == 0 {
      NothingJoined();
      assert Segments(s, lineStart)[..0] == [] && s[0..] == s;
    } else {
      SegmentExactly(rest, StartsLine(g), i - 1);
      JoinedStep(g, more, i);
      var q := |Joined(more[..i - 1])|;
      assert s[n + q..] == rest[q..];
    }
  }

  lemma NothingThere(lineStart: bool)
    ensures Segments("", lineStart) == []
  {
  }

  lemma NothingJoined()
    ensures Joined([]) == ""
  {
  }

  lemma EndsLine(s: string, lineStart: bool)
    requires s != ""
    ensures var g := Next(s, lineStart); 0 < |Text(g)| <= |s| && (StartsLine(g) <==> s[|Text(g)| - 1] == '\n')
  {
    hide Next;
    NextIsThere(s, lineStart);
    var g := Next(s, lineStart);
    assert s[|Text(g)| - 1] == s[..|Text(g)|][|Text(g)| - 1];
  }

  /** Spaces and quote markers, never four spaces in a row. */
  predicate IsQuote(p: string) {
    && (forall i :: 0 <= i < |p| ==> p[i] == ' ' || p[i] == '>')
    && forall i :: 0 <= i && i + 3 < |p| ==> !(p[i] == p[i + 1] == p[i + 2] == p[i + 3] == ' ')
  }

  predicate AllAre(p: string, c: char) {
    forall i :: 0 <= i < |p| ==> p[i] == c
  }

  /** After the quote markers the text goes on with exactly `n` times `c`. */
  predicate Fences(s: string, q: nat, c: char, n: nat) {
    && q + n <= |s| && IsQuote(s[..q]) && (c == '`' || c == '~')
    && AllAre(s[q..q + n], c) && (q + n < |s| ==> s[q + n] != c)
  }

  predicate AllBlank(p: string) {
    forall i :: 0 <= i < |p| ==> p[i] == ' ' || p[i] == '\t'
  }

  /** A line of nothing but quote markers, `n` or more times `c`, and blanks. */
  ghost predicate ClosesFence(line: string, c: char, n: nat) {
    exists q: nat, m: nat :: n <= m && Fences(line, q, c, m) && AllBlank(line[q + m..])
  }

  /** A line of the text, from `j` up to `e`, its newline not included. */
  predicate LineAt(s: string, j: nat, e: nat) {
    && j <= e <= |s| && (j > 0 ==> s[j - 1] == '\n')
    && '\n' !in s[j..e] && (e < |s| ==> s[e] == '\n')
  }

  /** A line of the text that closes a fence. */
  ghost predicate CloserAt(s: string, j: nat, e: nat, c: char, n: nat) {
    LineAt(s, j, e) && ClosesFence(s[j..e], c, n)
  }

  lemma {:induction false} SpacesAreQuote(s: string, max: nat)
    requires max <= 3
    ensures Spaces(s, max) <= max && AllAre(s[..Spaces(s, max)], ' ')
    ensures Spaces(s, max) < |s| && Spaces(s, max) < max ==> s[Spaces(s, max)] != ' '
  {
    if max > 0 && s != "" && s[0] == ' ' {
      SpacesAreQuote(s[1..], max - 1);
      assert s[..Spaces(s, max)] == [' '] + s[1..][..Spaces(s[1..], max - 1)];
    }
  }

  /** Where the quote markers end: if there were more, four spaces would follow each other. */
  predicate QuoteEnds(s: string, k: nat) {
    k <= |s| && IsQuote(s[..k]) && (k < |s| ==> !IsQuote(s[..k + 1]))
  }

  lemma QuoteConcat(a: string, b: string)
    requires IsQuote(a) && IsQuote(b) && (b == "" || b[0] == '>')
    ensures IsQuote(a + b)
  {
    var p := a + b;
    forall i | 0 <= i && i + 3 < |p| ensures !(p[i] == p[i + 1] == p[i + 2] == p[i + 3] == ' ') {
      if i >= |a| {
        assert p[i..] == b[i - |a|..];
        assert b[i - |a|] == p[i] && b[i - |a| + 1] == p[i + 1] && b[i - |a| + 2] == p[i + 2] && b[i - |a| + 3] == p[i + 3];
      } else if i + 3 < |a| {
        assert a[i] == p[i] && a[i + 1] == p[i + 1] && a[i + 2] == p[i + 2] && a[i + 3] == p[i + 3];
      } else {
        assert p[|a|] == b[0];
      }
    }
  }

  /** Why the markers stop where they stop. */
  predicate Stuck(s: string, m: nat) {
    m < |s| ==> s[m] != '>' && (s[m] == ' ' ==> m >= 3 && AllAre(s[m - 3..m], ' '))
  }

  lemma {:induction false} MarkersEnd(s: string)
    requires s != "" && s[0] == '>'
    ensures IsQuote(s[..Markers(s)]) && 4 <= Markers(s) + 3 && s[..Markers(s)][0] == '>' && Stuck(s, Markers(s))
    decreases |s|
  {
    hide Spaces, Markers;
    MarkerStep(s);
    SpacesAreQuote(s[1..], 3);
    var k := 1 + Spaces(s[1..], 3);
    var rest := s[k..];
    assert s[..k] == ">" + s[1..][..k - 1];
    assert IsQuote(s[..k]);
    MarkerStep(rest);
    assert s[..Markers(s)] == s[..k] + rest[..Markers(rest)];
    if rest != "" && rest[0] == '>' {
      MarkersEnd(rest);
      QuoteConcat(s[..k], rest[..Markers(rest)]);
      var m := Markers(rest);
      if m < |rest| && rest[m] == ' ' {
        assert s[Markers(s) - 3..Markers(s)] == rest[m - 3..m];
      }
    } else if k < |s| && s[k] == ' ' {
      assert s[1..][k - 1] == ' ';
      assert s[k - 3..k] == s[1..][..3];
    }
  }

  lemma IndentIsQuote(s: string)
    ensures var k := Spaces(s, 3);
            IsQuote(s[..k]) && (s[k..] == "" || s[k..][0] != '>' ==> Stuck(s, k))
  {
    hide Spaces;
    SpacesAreQuote(s, 3);
    var k := Spaces(s, 3);
    if k < |s| && s[k] == ' ' {
      assert s[k - 3..k] == s[..k];
    }
  }

  lemma StuckLater(s: string, k: nat, m: nat)
    requires k <= |s| && m <= |s| - k && Stuck(s[k..], m)
    ensures Stuck(s, k + m)
  {
    if k + m < |s| && s[k + m] == ' ' {
      assert s[k + m - 3..k + m] == s[k..][m - 3..m];
    }
  }

  lemma QuoteExactly(s: string)
    ensures QuoteEnds(s, Quote(s))
  {
    hide Spaces, Markers, IsQuote, Stuck;
    var k := Spaces(s, 3);
    IndentIsQuote(s);
    var rest := s[k..];
    MarkerStep(rest);
    var q := Quote(s);
    assert s[..q] == s[..k] + rest[..Markers(rest)];
    if rest != "" && rest[0] == '>' {
      MarkersEnd(rest);
      QuoteConcat(s[..k], rest[..Markers(rest)]);
      StuckLater(s, k, Markers(rest));
    } else {
      assert s[..k] + rest[..0] == s[..k];
    }
    if q < |s| {
      StuckEnds(s, q);
    }
  }

  lemma StuckEnds(s: string, q: nat)
    requires q < |s| && Stuck(s, q)
    ensures !IsQuote(s[..q + 1])
  {
    var p := s[..q + 1];
    assert p[q] == s[q];
    if s[q] == ' ' {
      var t := s[q - 3..q];
      assert p[q - 3] == t[0] && p[q - 2] == t[1] && p[q - 1] == t[2];
    }
  }

  lemma QuotePrefix(s: string, q: nat, k: nat)
    requires q < k <= |s| && IsQuote(s[..k])
    ensures IsQuote(s[..q + 1])
  {
    forall i | 0 <= i < |s[..q + 1]| ensures s[..q + 1][i] == s[..k][i] {
    }
  }

  lemma QuoteIsLongest(s: string, k: nat)
    requires k <= |s| && IsQuote(s[..k])
    ensures k <= Quote(s)
  {
    hide Quote;
    QuoteExactly(s);
    if Quote(s) < k {
      QuotePrefix(s, Quote(s), k);
    }
  }

  lemma InQuote(s: string, q: nat)
    requires q < |s| && (s[q] == '`' || s[q] == '~')
    ensures Quote(s) <= q
  {
    hide Quote;
    QuoteExactly(s);
    var k := Quote(s);
    forall i | 0 <= i < k ensures s[i] == ' ' || s[i] == '>' {
      assert s[..k][i] == s[i];
    }
  }

  /** The markers before a fence are all that there are. */
  lemma FencesAt(s: string, q: nat, c: char, n: nat)
    requires Fences(s, q, c, n) && n > 0
    ensures q == Quote(s) && n == Run(s[q..], c)
  {
    hide Quote;
    QuoteIsLongest(s, q);
    QuoteExactly(s);
    assert s[q..q + n][0] == s[q] == c;
    InQuote(s, q);
    assert forall i :: 0 <= i < n ==> s[q..][i] == s[q..q + n][i];
    RunIs(s[q..], c, n);
  }

  lemma FencesThere(s: string, c: char)
    requires c == '`' || c == '~'
    ensures Fences(s, Quote(s), c, Run(s[Quote(s)..], c))
  {
    hide Quote;
    QuoteExactly(s);
    RunAll(s[Quote(s)..], c);
  }

  lemma {:induction false} BlanksAll(s: string)
    ensures AllBlank(s[..Blanks(s)]) && (Blanks(s) < |s| ==> s[Blanks(s)] != ' ' && s[Blanks(s)] != '\t')
  {
    if s != "" && (s[0] == ' ' || s[0] == '\t') {
      BlanksAll(s[1..]);
      assert s[..Blanks(s)] == [s[0]] + s[1..][..Blanks(s[1..])];
    }
  }

  lemma {:induction false} LineStop(s: string, e: nat)
    requires LineAt(s, 0, e)
    ensures Line(s) == if e < |s| then e + 1 else e
  {
    if e > 0 {
      assert s[..e][0] == s[0] && s[..e][1..] == s[1..][..e - 1];
      assert s[0..e] == s[..e] && s[1..][0..e - 1] == s[..e][1..];
      LineStop(s[1..], e - 1);
    }
  }

  /** A quote, a run or blanks that end within the first line are those of the line alone. */
  lemma {:induction false} ClosingExactly(s: string, e: nat, c: char, n: nat)
    requires LineAt(s, 0, e) && n > 0 && (c == '`' || c == '~')
    ensures Closing(s, c, n) > 0 <==> ClosesFence(s[..e], c, n)
    ensures Closing(s, c, n) > 0 ==> Closing(s, c, n) == Line(s)
  {
    hide Quote, Run, Blanks, Line, ClosesFence;
    LineStop(s, e);
    if Closing(s, c, n) > 0 {
      ClosesHere(s, e, c, n);
    }
    if ClosesFence(s[..e], c, n) {
      ClosesThere(s, e, c, n);
    }
  }

  lemma ClosesHere(s: string, e: nat, c: char, n: nat)
    requires LineAt(s, 0, e) && n > 0 && (c == '`' || c == '~') && Closing(s, c, n) > 0
    ensures ClosesFence(s[..e], c, n) && Tail(s, c) == e
  {
    hide Quote, Run, Blanks;
    var line, q := s[..e], Quote(s);
    var m := Run(s[q..], c);
    var b := Blanks(s[q + m..]);
    FencesThere(s, c);
    BlanksAll(s[q + m..]);
    var k := q + m + b;
    NoNewline(s, q, c, m, b);
    assert k == e;
    assert line[..q] == s[..q] && line[q..q + m] == s[q..q + m] && line[q + m..] == s[q + m..][..b];
    if q + m < e {
      assert line[q + m] == s[q + m];
    }
    assert Fences(line, q, c, m);
  }

  lemma NoNewline(s: string, q: nat, c: char, m: nat, b: nat)
    requires Fences(s, q, c, m) && q + m + b <= |s| && AllBlank(s[q + m..][..b])
    ensures '\n' !in s[..q + m + b]
  {
    forall i | 0 <= i < q + m + b ensures s[i] != '\n' {
      if i < q {
        assert s[..q][i] == s[i];
      } else if i < q + m {
        assert s[q..q + m][i - q] == s[i];
      } else {
        assert s[q + m..][..b][i - q - m] == s[i];
      }
    }
  }

  lemma ClosesThere(s: string, e: nat, c: char, n: nat)
    requires LineAt(s, 0, e) && n > 0 && ClosesFence(s[..e], c, n)
    ensures n <= Run(s[Quote(s)..], c) && Tail(s, c) == e
  {
    hide Quote, Run, Blanks;
    var line := s[..e];
    var q: nat, m: nat :| n <= m && Fences(line, q, c, m) && AllBlank(line[q + m..]);
    assert line[..q] == s[..q] && line[q..q + m] == s[q..q + m];
    if q + m < e {
      assert line[q + m] == s[q + m];
    }
    assert Fences(s, q, c, m);
    FencesAt(s, q, c, m);
    assert s[q + m..][..e - q - m] == line[q + m..];
    BlanksAre(s[q + m..], e - q - m);
  }

  lemma {:induction false} BlanksAre(s: string, b: nat)
    requires b <= |s| && AllBlank(s[..b]) && (b < |s| ==> s[b] != ' ' && s[b] != '\t')
    ensures Blanks(s) == b
  {
    if b > 0 {
      assert s[..b][0] == s[0] && s[..b][1..] == s[1..][..b - 1];
      BlanksAre(s[1..], b - 1);
    }
  }

  lemma FirstLine(s: string) returns (e: nat)
    ensures LineAt(s, 0, e) && Line(s) == if e < |s| then e + 1 else e
  {
    LineShape(s);
    e := if Line(s) > 0 && s[Line(s) - 1] == '\n' then Line(s) - 1 else Line(s);
    LineStop(s, e);
  }

  lemma EmptyLineIsNone(c: char, n: nat)
    requires n > 0
    ensures !ClosesFence("", c, n)
  {
  }

  lemma LineShifted(s: string, l: nat, j: nat, e: nat)
    requires l <= j <= e <= |s|
    ensures s[j..e] == s[l..][j - l..e - l]
    ensures j > l ==> s[j - 1] == s[l..][j - l - 1]
    ensures e < |s| ==> s[e] == s[l..][e - l]
  {
  }

  /** The closing lines of a text after its first line are those of the rest. */
  lemma LaterCloser(s: string, l: nat, j: nat, e: nat, c: char, n: nat)
    requires n > 0 && l == Line(s) && s != ""
    ensures j > 0 && CloserAt(s, j, e, c, n) ==> l <= j <= e <= |s| && CloserAt(s[l..], j - l, e - l, c, n)
    ensures l <= j && l <= e && CloserAt(s[l..], j - l, e - l, c, n) ==> CloserAt(s, j, e, c, n)
  {
    hide ClosesFence, Line;
    LineShape(s);
    EmptyLineIsNone(c, n);
    if l <= j <= e <= |s| {
      LineShifted(s, l, j, e);
    }
  }

  /** Where a fence ends: after the first line that closes it, or with the text. */
  ghost predicate FenceEnds(s: string, from: nat, c: char, n: nat, k: nat) {
    || (exists j: nat, e: nat ::
          && from <= j && CloserAt(s, j, e, c, n) && k == (if e < |s| then e + 1 else e)
          && forall j': nat, e': nat :: from <= j' < j ==> !CloserAt(s, j', e', c, n))
    || (k == |s| && forall j: nat, e: nat :: from <= j ==> !CloserAt(s, j, e, c, n))
  }

  lemma {:induction false} FenceBodyExactly(s: string, c: char, n: nat)
    requires n > 0 && (c == '`' || c == '~')
    ensures FenceEnds(s, 0, c, n, FenceBody(s, c, n))
    decreases |s|
  {
    hide Closing, Line, ClosesFence, LineAt;
    EmptyLineIsNone(c, n);
    if s == "" {
      NoLineButEmpty(s);
    } else {
      var e := FirstLine(s);
      ClosingExactly(s, e, c, n);
      assert s[0..e] == s[..e];
      if Closing(s, c, n) == 0 {
        FenceBodyExactly(s[Line(s)..], c, n);
        EndsLater(s, c, n, FenceBody(s[Line(s)..], c, n));
        FromTheStart(s, e, c, n, FenceBody(s, c, n));
      } else {
        assert CloserAt(s, 0, e, c, n);
      }
    }
  }

  lemma NoLineButEmpty(s: string)
    requires s == ""
    ensures forall j: nat, e: nat :: LineAt(s, j, e) ==> j == e == 0 && s[j..e] == ""
  {
  }

  /** The end found in the rest of a text is the one found from its second line on. */
  lemma EndsLater(s: string, c: char, n: nat, k: nat)
    requires n > 0 && s != "" && FenceEnds(s[Line(s)..], 0, c, n, k)
    ensures FenceEnds(s, 1, c, n, Line(s) + k)
  {
    hide CloserAt, Line;
    var l := Line(s);
    var rest := s[l..];
    forall j: nat, e: nat | 1 <= j && CloserAt(s, j, e, c, n) ensures l <= j <= e && CloserAt(rest, j - l, e - l, c, n) {
      LaterCloser(s, l, j, e, c, n);
    }
    if j: nat, e: nat :| CloserAt(rest, j, e, c, n) && k == (if e < |rest| then e + 1 else e)
                         && (forall j': nat, e': nat :: j' < j ==> !CloserAt(rest, j', e', c, n)) {
      LaterCloser(s, l, l + j, l + e, c, n);
    }
  }

  lemma FromTheStart(s: string, e: nat, c: char, n: nat, k: nat)
    requires LineAt(s, 0, e) && !ClosesFence(s[..e], c, n) && FenceEnds(s, 1, c, n, k)
    ensures FenceEnds(s, 0, c, n, k)
  {
    hide ClosesFence;
    assert s[0..e] == s[..e];
    forall e': nat | LineAt(s, 0, e') ensures e' == e {
      OneEnd(s, e, e');
    }
  }

  lemma OneEnd(s: string, e: nat, e': nat)
    requires LineAt(s, 0, e) && LineAt(s, 0, e')
    ensures e == e'
  {
    LineStop(s, e);
    LineStop(s, e');
  }

  /** A fenced block: three or more of its character after the quote markers, up to the first later line that closes it. */
  lemma FenceExactly(s: string)
    ensures Fence(s) > 0 <==> exists q: nat, c: char, n: nat :: n >= 3 && Fences(s, q, c, n)
    ensures forall q: nat, c: char, n: nat :: n >= 3 && Fences(s, q, c, n) ==> FenceEnds(s, 1, c, n, Fence(s))
  {
    hide Quote, Run, FenceBody, Line, Fences, FenceEnds;
    var q := Quote(s);
    if Fence(s) > 0 {
      FencesThere(s, s[q]);
      assert Fences(s, q, s[q], Run(s[q..], s[q]));
    }
    forall q': nat, c: char, n: nat | n >= 3 && Fences(s, q', c, n)
      ensures Fence(s) > 0 && FenceEnds(s, 1, c, n, Fence(s))
    {
      FencesAt(s, q', c, n);
      FenceCharacter(s, q', c, n);
      FenceBodyExactly(s[Line(s)..], c, n);
      EndsLater(s, c, n, FenceBody(s[Line(s)..], c, n));
    }
  }

  lemma FenceCharacter(s: string, q: nat, c: char, n: nat)
    requires Fences(s, q, c, n) && n > 0
    ensures q < |s| && s[q] == c && (c == '`' || c == '~')
  {
    assert s[q..q + n][0] == s[q];
  }

  // ---- Code spans and links ----

  /** A run of exactly `n` backticks. */
  predicate TicksAt(s: string, j: nat, n: nat) {
    && j + n <= |s| && AllAre(s[j..j + n], '`')
    && (j > 0 ==> s[j - 1] != '`') && (j + n < |s| ==> s[j + n] != '`')
  }

  /** A code span ends with the first later run of as many backticks as it begins with; without one it is a backtick. */
  lemma SpanExactly(s: string, n: nat)
    requires n > 0 && TicksAt(s, 0, n)
    ensures forall j: nat :: n < j && TicksAt(s, j, n) && (forall i: nat :: n < i < j ==> !TicksAt(s, i, n)) ==> Span(s) == j + n
    ensures (forall j: nat :: n < j ==> !TicksAt(s, j, n)) ==> Span(s) == 1
  {
    hide Run, SpanClose, TicksAt;
    OpeningRun(s, n);
    var rest := s[n..];
    SpanCloseExactly(rest, n);
    forall j: nat | n < j ensures TicksAt(s, j, n) <==> TicksAt(rest, j - n, n) {
      TicksShift(s, n, j, n);
    }
    NoTicksHere(s, n);
    var k := SpanClose(rest, n);
    if k >= 0 {
      assert TicksAt(rest, k - n, n) && TicksAt(s, k, n);
    }
  }

  lemma TicksAre(s: string, i: nat, n: nat)
    requires TicksAt(s, i, n)
    ensures forall t :: i <= t < i + n ==> s[t] == '`'
  {
    forall t | i <= t < i + n ensures s[t] == '`' {
      assert s[i..i + n][t - i] == s[t];
    }
  }

  lemma OpeningRun(s: string, n: nat)
    requires n > 0 && TicksAt(s, 0, n)
    ensures s[0] == '`' && Run(s, '`') == n
  {
    assert s[0..n][0] == s[0];
    forall i | 0 <= i < n ensures s[i] == '`' {
      assert s[0..n][i] == s[i];
    }
    RunIs(s, '`', n);
  }

  lemma NoTicksHere(s: string, n: nat)
    requires n > 0 && TicksAt(s, 0, n)
    ensures !TicksAt(s[n..], 0, n)
  {
    if TicksAt(s[n..], 0, n) {
      TicksAre(s[n..], 0, n);
    }
  }

  /** The first run of exactly `n` backticks. */
  ghost predicate FirstTicks(s: string, n: nat, k: int) {
    if k >= 0 then n <= k && TicksAt(s, k - n, n) && forall i: nat :: i < k - n ==> !TicksAt(s, i, n)
    else k == -1 && forall i: nat :: !TicksAt(s, i, n)
  }

  lemma {:induction false} SpanCloseExactly(s: string, n: nat)
    requires n > 0
    ensures FirstTicks(s, n, SpanClose(s, n))
    decreases |s|
  {
    hide Run, TicksAt, FirstTicks;
    if s == "" {
      NoTicksAtAll(n);
    } else {
      var m := Run(s, '`');
      if m == n {
        RunIsTicks(s, n);
      } else {
        var step := if m == 0 then 1 else m;
        SpanCloseExactly(s[step..], n);
        FirstTicksLater(s, step, m, n, SpanClose(s[step..], n));
      }
    }
  }

  lemma NoTicksAtAll(n: nat)
    requires n > 0
    ensures FirstTicks("", n, -1)
  {
  }

  lemma RunIsTicks(s: string, n: nat)
    requires n == Run(s, '`') > 0
    ensures FirstTicks(s, n, n)
  {
    hide Run;
    RunAll(s, '`');
  }

  lemma FirstTicksLater(s: string, step: nat, m: nat, n: nat, k: int)
    requires n > 0 && s != "" && m == Run(s, '`') != n && step == (if m == 0 then 1 else m)
    requires FirstTicks(s[step..], n, k)
    ensures FirstTicks(s, n, if k < 0 then -1 else step + k)
  {
    hide Run, TicksAt;
    forall i: nat ensures i < step ==> !TicksAt(s, i, n)
                  ensures i >= step ==> (TicksAt(s, i, n) <==> TicksAt(s[step..], i - step, n))
    {
      if i < step {
        TicksWithin(s, step, m, i, n);
      } else {
        AfterTheRun(s, step, m, i, n);
      }
    }
  }

  lemma TicksWithin(s: string, step: nat, m: nat, i: nat, n: nat)
    requires n > 0 && s != "" && m == Run(s, '`') != n && step == (if m == 0 then 1 else m) && i < step
    ensures !TicksAt(s, i, n)
  {
    hide Run;
    RunAll(s, '`');
    if TicksAt(s, i, n) {
      TicksAre(s, i, n);
    }
  }

  lemma AfterTheRun(s: string, step: nat, m: nat, i: nat, n: nat)
    requires n > 0 && s != "" && m == Run(s, '`') && step == (if m == 0 then 1 else m) && step <= i
    ensures TicksAt(s, i, n) <==> TicksAt(s[step..], i - step, n)
  {
    hide Run;
    RunAll(s, '`');
    if i == step && m > 0 && i + n <= |s| {
      assert s[i..i + n][0] == s[i];
      assert s[step..][0..n][0] == s[i];
    } else if i > step {
      TicksShift(s, step, i, n);
    } else if i + n <= |s| {
      assert s[i..i + n] == s[step..][0..n];
    }
  }

  lemma TicksShift(s: string, step: nat, i: nat, n: nat)
    requires step < i && step <= |s|
    ensures TicksAt(s, i, n) <==> TicksAt(s[step..], i - step, n)
  {
    if i + n <= |s| {
      assert s[i..i + n] == s[step..][i - step..i - step + n];
    }
  }

  /** A link's brackets close at `k`: the first ones, on its line. */
  predicate ClosesLink(s: string, k: nat) {
    && k + 2 <= |s| && s[k] == ']' && s[k + 1] == ']'
    && forall i :: 0 <= i < k ==> s[i] != '\n' && !(s[i] == ']' && s[i + 1] == ']')
  }

  lemma {:induction false} CloseExactly(s: string, k: nat)
    ensures Close(s) == k <==> ClosesLink(s, k)
    decreases |s|
  {
    hide ClosesLink;
    if |s| >= 2 && s[0] != '\n' && !(s[0] == ']' && s[1] == ']') {
      if k > 0 {
        CloseExactly(s[1..], k - 1);
      }
      ClosesLater(s, k);
    } else {
      ClosesNow(s, k);
    }
  }

  lemma ClosesNow(s: string, k: nat)
    requires |s| < 2 || s[0] == '\n' || (s[0] == ']' && s[1] == ']')
    ensures ClosesLink(s, k) <==> |s| >= 2 && s[0] == ']' && k == 0
  {
  }

  lemma ClosesLater(s: string, k: nat)
    requires |s| >= 2 && s[0] != '\n' && !(s[0] == ']' && s[1] == ']')
    ensures ClosesLink(s, k) <==> k > 0 && ClosesLink(s[1..], k - 1)
  {
    if k > 0 && ClosesLink(s[1..], k - 1) {
      forall i | 0 <= i < k ensures s[i] != '\n' && !(s[i] == ']' && s[i + 1] == ']') {
        assert i > 0 ==> s[1..][i - 1] == s[i] && s[1..][i] == s[i + 1];
      }
    }
    if ClosesLink(s, k) {
      forall i | 0 <= i < k - 1 ensures s[1..][i] != '\n' && !(s[1..][i] == ']' && s[1..][i + 1] == ']') {
        assert s[1..][i] == s[i + 1] && s[1..][i + 1] == s[i + 2];
      }
    }
  }

  ghost predicate StartsFence(s: string) {
    exists q: nat, c: char, n: nat :: n >= 3 && Fences(s, q, c, n)
  }

  /** A fence where a line starts, else a code span, else a link that closes on its line, else one character. */
  lemma NextExactly(s: string, lineStart: bool)
    requires s != ""
    ensures lineStart && StartsFence(s) ==> Next(s, lineStart) == Code(s[..Fence(s)])
    ensures !(lineStart && StartsFence(s)) && s[0] == '`' ==> Next(s, lineStart) == Code(s[..Span(s)])
    ensures !(lineStart && StartsFence(s)) && s[0] != '`' ==>
              && (forall k: nat :: "[[" <= s && ClosesLink(s[2..], k) ==> Next(s, lineStart) == Link(s[2..2 + k]))
              && (!("[[" <= s) || (forall k: nat :: !ClosesLink(s[2..], k)) ==> Next(s, lineStart) == Plain(s[0]))
  {
    hide Fence, Span, Close, Fences, ClosesLink;
    FenceExactly(s);
    if "[[" <= s {
      forall k: nat ensures Close(s[2..]) == k <==> ClosesLink(s[2..], k) {
        CloseExactly(s[2..], k);
      }
      if Close(s[2..]) >= 0 {
        assert ClosesLink(s[2..], Close(s[2..]));
      }
    }
  }
}

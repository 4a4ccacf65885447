/** Rewriting concept links in wiki pages, outside Markdown code (cmd/olw_worker/concept_reconcile.go). */
module Wikilinks {
  import opened Options
  import opened Texts
  import opened WikiIndex
  import opened ByteStrings

  // ---- Scanning ----

  /** How many copies of `c` the text begins with. */
  function Run(s: string, c: char): (n: nat)
    ensures n <= |s|
  {
    if s != "" && s[0] == c then 1 + Run(s[1..], c) else 0
  }

  function Spaces(s: string, max: nat): (n: nat)
    ensures n <= |s|
  {
    if max > 0 && s != "" && s[0] == ' ' then 1 + Spaces(s[1..], max - 1) else 0
  }

  /** Nested quote markers, each with up to three spaces after it. */
  function Markers(s: string): (n: nat)
    ensures n <= |s|
    decreases |s|
  {
    if s != "" && s[0] == '>' then
      var k := Spaces(s[1..], 3);
      1 + k + Markers(s[1 + k..])
    else 0
  }

  /** skipMarkdownBlockquotePrefix. */
  function Quote(s: string): (n: nat)
    ensures n <= |s|
  {
    var k := Spaces(s, 3);
    k + Markers(s[k..])
  }

  function Blanks(s: string): (n: nat)
    ensures n <= |s|
  {
    if s != "" && (s[0] == ' ' || s[0] == '\t') then 1 + Blanks(s[1..]) else 0
  }

  /** The length of the first line, its newline included. */
  function Line(s: string): (n: nat)
    ensures n <= |s| && (s != "" ==> n > 0)
  {
    if s == "" then 0 else if s[0] == '\n' then 1 else 1 + Line(s[1..])
  }

  /** Where quote markers, a run of `c` and blanks end. */
  function Tail(s: string, c: char): (k: nat)
    ensures k <= |s|
  {
    var q := Quote(s);
    var m := Run(s[q..], c);
    q + m + Blanks(s[q + m..])
  }

  /** The length of a line that closes a fence of `n` times `c`; 0 when the first line does not. */
  function Closing(s: string, c: char, n: nat): (k: nat)
    ensures k <= |s|
  {
    var k := Tail(s, c);
    if Run(s[Quote(s)..], c) < n then 0 else if k == |s| then k else if s[k] == '\n' then k + 1 else 0
  }

  /** What a fence takes after its opening line: all lines up to the closing one, or everything. */
  function FenceBody(s: string, c: char, n: nat): (k: nat)
    requires n > 0
    ensures k <= |s|
    decreases |s|
  {
    if s == "" then 0
    else if Closing(s, c, n) > 0 then Closing(s, c, n)
    else Line(s) + FenceBody(s[Line(s)..], c, n)
  }

  /** scanFencedCodeBlock: the length of the fenced block that the text begins with, or 0. */
  function Fence(s: string): (k: nat)
    ensures k <= |s|
  {
    var q := Quote(s);
    if q < |s| && (s[q] == '`' || s[q] == '~') && Run(s[q..], s[q]) >= 3 then
      Line(s) + FenceBody(s[Line(s)..], s[q], Run(s[q..], s[q]))
    else 0
  }

  /** The end of the first backtick run of length exactly `n`, or -1. */
  function SpanClose(s: string, n: nat): (k: int)
    ensures -1 <= k <= |s|
    decreases |s|
  {
    if s == "" then -1
    else
      var m := Run(s, '`');
      if m == n && n > 0 then m
      else
        var step := if m == 0 then 1 else m;
        var k := SpanClose(s[step..], n);
        if k < 0 then -1 else step + k
  }

  /** scanInlineCodeSpan: the length of the code span, or 1 when it is never closed. */
  function Span(s: string): (k: nat)
    requires s != "" && s[0] == '`'
    ensures 1 <= k <= |s|
  {
    var n := Run(s, '`');
    var k := SpanClose(s[n..], n);
    if k < 0 then 1 else n + k
  }

  /** indexWikilinkClose: the first "]]" on this line, or -1. */
  function Close(s: string): (k: int)
    ensures -1 <= k && k + 2 <= |s| + if k < 0 then 1 else 0
  {
    if |s| < 2 || s[0] == '\n' then -1
    else if s[0] == ']' && s[1] == ']' then 0
    else
      var k := Close(s[1..]);
      if k < 0 then -1 else k + 1
  }

  // ---- Segments ----

  datatype Segment = Code(text: string) | Link(inner: string) | Plain(c: char)

  function Text(g: Segment): string {
    match g
    case Code(text) => text
    case Link(inner) => "[[" + inner + "]]"
    case Plain(c) => [c]
  }

  /** The next segment of a text; fences only count at the start of a line. */
  function Next(s: string, lineStart: bool): Segment
    requires s != ""
  {
    if lineStart && Fence(s) > 0 then Code(s[..Fence(s)])
    else if s[0] == '`' then Code(s[..Span(s)])
    else if |s| > 1 && s[0] == '[' && s[1] == '[' && Close(s[2..]) >= 0 then Link(s[2..2 + Close(s[2..])])
    else Plain(s[0])
  }

  predicate StartsLine(g: Segment) {
    match g
    case Code(text) => text != "" && text[|text| - 1] == '\n'
    case Link(_) => false
    case Plain(c) => c == '\n'
  }

  lemma NextIsThere(s: string, lineStart: bool)
    requires s != ""
    ensures var text := Text(Next(s, lineStart)); 0 < |text| <= |s| && s[..|text|] == text
  {
    hide Fence, Span;
    if Next(s, lineStart).Link? {
      CloseAt(s[2..]);
      var k := Close(s[2..]);
      assert s[..k + 4] == "[[" + s[2..2 + k] + "]]";
    }
  }

  lemma CloseAt(s: string)
    requires Close(s) >= 0
    ensures s[Close(s)] == ']' && s[Close(s) + 1] == ']'
  {
  }

  function Segments(s: string, lineStart: bool): seq<Segment>
    decreases |s|
  {
    if s == "" then []
    else
      var g := Next(s, lineStart);
      NextIsThere(s, lineStart);
      [g] + Segments(s[|Text(g)|..], StartsLine(g))
  }

  // ---- Routes ----

  type Routes = map<string, string>

  /** strings.Cut: the part before the first `c`. */
  function Before(s: string, c: char): (r: string)
    ensures r <= s
  {
    if s == "" || s[0] == c then "" else [s[0]] + Before(s[1..], c)
  }

  /** A link with its route replaced, if it has one. */
  function Rerouted(routes: Routes, inner: string): Option<string> {
    var target := Before(inner, '|');
    var base := Before(target, '#');
    if TrimSpace(base) !in routes then None
    else
      var anchor := if |base| < |target| then "#" + target[|base| + 1..] else "";
      var alias := if |target| < |inner| then "|" + inner[|target| + 1..] else "";
      Some(routes[TrimSpace(base)] + anchor + alias)
  }

  function Rewritten(routes: Routes, g: Segment): string {
    if g.Link? && Rerouted(routes, g.inner).Some? then "[[" + Rerouted(routes, g.inner).value + "]]" else Text(g)
  }

  /** The text after the links have been rewritten. */
  function Rewrite(routes: Routes, s: string, lineStart: bool): string
    decreases |s|
  {
    if s == "" then ""
    else
      var g := Next(s, lineStart);
      NextIsThere(s, lineStart);
      Rewritten(routes, g) + Rewrite(routes, s[|Text(g)|..], StartsLine(g))
  }

  // ---- The loops ----

  method CountRun(data: string, i: nat, c: char) returns (j: nat)
    requires i <= |data|
    ensures j == i + Run(data[i..], c)
  {
    j := i;
    while j < |data| && data[j] == c
      invariant i <= j <= |data| && i + Run(data[i..], c) == j + Run(data[j..], c)
    {
      DropDrop(data, j, 1);
      j := j + 1;
    }
  }

  method SkipSpaces(data: string, i: nat) returns (j: nat)
    requires i <= |data|
    ensures j == i + Spaces(data[i..], 3)
  {
    j := i;
    var spaces := 0;
    while j < |data| && data[j] == ' ' && spaces < 3
      invariant i <= j <= |data| && spaces <= 3
      invariant i + Spaces(data[i..], 3) == j + Spaces(data[j..], 3 - spaces)
    {
      DropDrop(data, j, 1);
      j := j + 1;
      spaces := spaces + 1;
    }
  }

  method SkipBlanks(data: string, i: nat) returns (j: nat)
    requires i <= |data|
    ensures j == i + Blanks(data[i..])
  {
    j := i;
    while j < |data| && (data[j] == ' ' || data[j] == '\t')
      invariant i <= j <= |data| && i + Blanks(data[i..]) == j + Blanks(data[j..])
    {
      DropDrop(data, j, 1);
      j := j + 1;
    }
  }

  method SkipLine(data: string, i: nat) returns (j: nat)
    requires i <= |data|
    ensures j == i + Line(data[i..])
  {
    j := i;
    while j < |data| && data[j] != '\n'
      invariant i <= j <= |data| && i + Line(data[i..]) == j + Line(data[j..])
    {
      DropDrop(data, j, 1);
      j := j + 1;
    }
    if j < |data| {
      j := j + 1;
    }
  }

  lemma MarkerStep(s: string)
    ensures s == "" || s[0] != '>' ==> Markers(s) == 0
    ensures s != "" && s[0] == '>' ==> var k := 1 + Spaces(s[1..], 3); Markers(s) == k + Markers(s[k..])
  {
  }

  method SkipQuotePrefix(data: string, i: nat) returns (j: nat)
    requires i <= |data|
    ensures j == i + Quote(data[i..])
  {
    hide Markers, Spaces;
    j := SkipSpaces(data, i);
    DropDrop(data, i, j - i);
    while j < |data| && data[j] == '>'
      invariant i <= j <= |data| && i + Quote(data[i..]) == j + Markers(data[j..])
    {
      MarkerStep(data[j..]);
      DropDrop(data, j, 1);
      var k := SkipSpaces(data, j + 1);
      DropDrop(data, j, k - j);
      j := k;
    }
    MarkerStep(data[j..]);
  }

  method ScanFencedCodeBlock(data: string, i: nat) returns (end: nat)
    requires i <= |data|
    ensures end == i + Fence(data[i..])
  {
    hide Run, Quote, Line, Blanks, FenceBody;
    var j := SkipQuotePrefix(data, i);
    DropDrop(data, i, j - i);
    if j >= |data| || (data[j] != '`' && data[j] != '~') {
      return i;
    }
    var c := data[j];
    var k := CountRun(data, j, c);
    var n := k - j;
    if n < 3 {
      return i;
    }
    j := SkipLine(data, i);
    DropDrop(data, i, j - i);
    end := ScanFenceBody(data, j, c, n);
  }

  /** The end of a line that closes the fence, or `i` when it does not. */
  method ScanClosing(data: string, i: nat, c: char, n: nat) returns (end: nat)
    requires i < |data| && n > 0
    ensures end == i + Closing(data[i..], c, n)
  {
    hide Run, Quote, Blanks;
    var q := SkipQuotePrefix(data, i);
    DropDrop(data, i, q - i);
    var m := CountRun(data, q, c);
    DropDrop(data, i, m - i);
    if m - q >= n {
      var k := SkipBlanks(data, m);
      if k >= |data| || data[k] == '\n' {
        return if k < |data| then k + 1 else k;
      }
    }
    end := i;
  }

  lemma FenceBodyStep(s: string, c: char, n: nat)
    requires s != "" && n > 0
    ensures Line(s) > 0
    ensures FenceBody(s, c, n) == if Closing(s, c, n) > 0 then Closing(s, c, n) else Line(s) + FenceBody(s[Line(s)..], c, n)
  {
  }

  lemma FenceBodyNone(c: char, n: nat)
    requires n > 0
    ensures FenceBody("", c, n) == 0
  {
  }

  method ScanFenceBody(data: string, i: nat, c: char, n: nat) returns (end: nat)
    requires i <= |data| && n > 0
    ensures end == i + FenceBody(data[i..], c, n)
  {
    hide FenceBody, Line, Closing;
    var j := i;
    while j < |data|
      invariant i <= j <= |data| && i + FenceBody(data[i..], c, n) == j + FenceBody(data[j..], c, n)
    {
      FenceBodyStep(data[j..], c, n);
      var k := ScanClosing(data, j, c, n);
      if k > j {
        return k;
      }
      var l := SkipLine(data, j);
      DropDrop(data, j, l - j);
      j := l;
    }
    FenceBodyNone(c, n);
    assert data[j..] == "";
    end := |data|;
  }

  lemma SpanCloseStep(s: string, n: nat)
    requires s != "" && n > 0
    ensures var m := Run(s, '`');
            var step := if m == 0 then 1 else m;
            && (m == 0 <==> s[0] != '`')
            && SpanClose(s, n) == if m == n then m else var k := SpanClose(s[step..], n); if k < 0 then -1 else step + k
  {
  }

  lemma SpanCloseNone(n: nat)
    ensures SpanClose("", n) == -1
  {
  }

  method ScanInlineCodeSpan(data: string, i: nat) returns (end: nat)
    requires i < |data| && data[i] == '`'
    ensures end == i + Span(data[i..])
  {
    hide SpanClose, Run;
    SpanCloseStep(data[i..], 1);
    var j := CountRun(data, i, '`');
    var n := j - i;
    DropDrop(data, i, n);
    var found := ScanSpanClose(data, j, n);
    end := if found < 0 then i + 1 else found;
  }

  method ScanSpanClose(data: string, i: nat, n: nat) returns (end: int)
    requires i <= |data| && n > 0
    ensures var k := SpanClose(data[i..], n); end == if k < 0 then -1 else i + k
  {
    hide SpanClose, Run;
    var j := i;
    while j < |data|
      invariant i <= j <= |data|
      invariant var k := SpanClose(data[j..], n); SpanClose(data[i..], n) == if k < 0 then -1 else j - i + k
    {
      SpanCloseStep(data[j..], n);
      if data[j] != '`' {
        DropDrop(data, j, 1);
        j := j + 1;
        continue;
      }
      var m := CountRun(data, j, '`');
      DropDrop(data, j, m - j);
      if m - j == n {
        return m;
      }
      j := m;
    }
    SpanCloseNone(n);
    assert data[j..] == "";
    end := -1;
  }

  method IndexWikilinkClose(data: string, from: nat) returns (at: int)
    requires from <= |data|
    ensures var k := Close(data[from..]); at == if k < 0 then -1 else from + k
  {
    var i := from;
    while i + 1 < |data|
      invariant from <= i <= |data|
      invariant var k := Close(data[i..]); Close(data[from..]) == if k < 0 then -1 else i - from + k
    {
      if data[i] == '\n' {
        return -1;
      }
      if data[i] == ']' && data[i + 1] == ']' {
        return i;
      }
      DropDrop(data, i, 1);
      i := i + 1;
    }
    at := -1;
  }

  /** One round of the main loop. */
  lemma RewriteStep(routes: Routes, s: string, lineStart: bool, g: Segment, rest: string)
    requires s != "" && g == Next(s, lineStart) && |Text(g)| <= |s| && rest == s[|Text(g)|..]
    ensures Rewrite(routes, s, lineStart) == Rewritten(routes, g) + Rewrite(routes, rest, StartsLine(g))
  {
  }

  method RewriteWikilinks(routes: Routes, data: string) returns (out: string)
    ensures out == Rewrite(routes, data, true)
  {
    hide Rewrite, Fence, Span, Close, Rerouted;
    out := "";
    var i := 0;
    var lineStart := true;
    while i < |data|
      invariant i <= |data|
      invariant Rewrite(routes, data, true) == out + Rewrite(routes, data[i..], lineStart)
    {
      var end, segment := ScanSegment(data, i, lineStart);
      ghost var g := Next(data[i..], lineStart);
      DropDrop(data, i, end - i);
      RewriteStep(routes, data[i..], lineStart, g, data[end..]);
      if segment.Link? {
        var replacement := Rerouted(routes, segment.inner);
        if replacement.Some? {
          out := Append(out, "[[" + replacement.value + "]]", Rewrite(routes, data[end..], false));
        } else {
          out := Append(out, data[i..end], Rewrite(routes, data[end..], false));
        }
        lineStart := false;
      } else {
        out := Append(out, data[i..end], Rewrite(routes, data[end..], StartsLine(g)));
        lineStart := data[end - 1] == '\n';
      }
      i := end;
    }
    RewriteNothing(routes, lineStart);
    assert data[i..] == "";
  }

  lemma RewriteNothing(routes: Routes, lineStart: bool)
    ensures Rewrite(routes, "", lineStart) == ""
  {
  }

  function Append(out: string, more: string, ghost later: string): (r: string)
    ensures r == out + more && r + later == out + (more + later)
  {
    out + more
  }

  /** The segment at offset `i`, and where it ends. */
  method ScanSegment(data: string, i: nat, lineStart: bool) returns (end: nat, g: Segment)
    requires i < |data|
    ensures g == Next(data[i..], lineStart) && i < end <= |data| && end == i + |Text(g)| && data[i..end] == Text(g)
  {
    hide Fence, Span, Close;
    NextIsThere(data[i..], lineStart);
    if lineStart {
      end := ScanFencedCodeBlock(data, i);
      if end > i {
        assert data[i..end] == data[i..][..end - i];
        return end, Code(data[i..end]);
      }
    }
    if data[i] == '`' {
      end := ScanInlineCodeSpan(data, i);
      assert data[i..end] == data[i..][..end - i];
      return end, Code(data[i..end]);
    }
    if i + 1 < |data| && data[i] == '[' && data[i + 1] == '[' {
      var closeAt := IndexWikilinkClose(data, i + 2);
      DropDrop(data, i, 2);
      if closeAt >= 0 {
        g := Link(data[i + 2..closeAt]);
        assert data[i..][2..2 + (closeAt - i - 2)] == data[i + 2..closeAt];
        end := closeAt + 2;
        assert data[i..end] == data[i..][..end - i];
        return;
      }
    }
    end, g := i + 1, Plain(data[i]);
  }
}

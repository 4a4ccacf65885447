/** Stripping gives back what the trailer was appended to. */
module AnnotationTheorems {
  import opened Options
  import opened Texts
  import opened WikiIndex
  import ByteStrings
  import opened Annotations

  // ---- Occurrences ----

  ghost predicate Absent(s: string, needle: string) {
    forall i :: !At(s, i, needle)
  }

  ghost predicate MarkerFree(s: string) {
    Absent(s, HEADING) && Absent(s, MARKER)
  }

  /** `needle` occurs at offset `p` and nowhere else. */
  ghost predicate Only(s: string, needle: string, p: int) {
    forall i :: At(s, i, needle) <==> i == p
  }

  lemma {:induction false} AbsentIsNotCounted(s: string, needle: string, i: nat)
    requires i <= |s| && needle != ""
    ensures (forall j :: i <= j ==> !At(s, j, needle)) <==> Count(s, needle, i) == 0
  {
  }

  lemma OnlyOneIsCounted(s: string, needle: string, p: nat)
    requires needle != "" && Only(s, needle, p)
    ensures Count(s, needle, 0) == 1
  {
    assert At(s, p, needle);
    assert Find(s, needle, 0) == p;
    AbsentIsNotCounted(s, needle, p + |needle|);
  }

  lemma AtChars(s: string, i: int, needle: string)
    ensures At(s, i, needle) <==> 0 <= i && i + |needle| <= |s| && forall k :: 0 <= k < |needle| ==> s[i + k] == needle[k]
  {
    if 0 <= i && i + |needle| <= |s| {
      var there := s[i..i + |needle|];
      assert forall k :: 0 <= k < |needle| ==> there[k] == s[i + k];
    }
  }

  /** Nothing straddles a character that the needle does not have. */
  lemma Apart(a: string, c: char, b: string, needle: string)
    requires c !in needle
    ensures forall i :: At(a + [c] + b, i, needle) <==> At(a, i, needle) || At(b, i - |a| - 1, needle)
  {
    forall i ensures At(a + [c] + b, i, needle) <==> At(a, i, needle) || At(b, i - |a| - 1, needle) {
      ApartAt(a, c, b, needle, i);
    }
  }

  lemma ApartAt(a: string, c: char, b: string, needle: string, i: int)
    requires c !in needle
    ensures At(a + [c] + b, i, needle) <==> At(a, i, needle) || At(b, i - |a| - 1, needle)
  {
    hide At;
    var s := a + [c] + b;
    AtChars(s, i, needle);
    AtChars(a, i, needle);
    AtChars(b, i - |a| - 1, needle);
    if |a| + 1 <= i && i + |needle| <= |s| {
      assert forall k :: 0 <= k < |needle| ==> (s[i + k] == needle[k] <==> b[i - |a| - 1 + k] == needle[k]);
    }
    if i <= |a| < i + |needle| {
      assert s[i + (|a| - i)] == c && needle[|a| - i] != c;
    }
  }

  lemma AbsentApart(a: string, c: char, b: string, needle: string)
    requires c !in needle && Absent(a, needle) && Absent(b, needle)
    ensures Absent(a + [c] + b, needle)
  {
    Apart(a, c, b, needle);
  }

  lemma OnlyBefore(a: string, c: char, b: string, needle: string, p: nat)
    requires c !in needle && Only(a, needle, p) && Absent(b, needle)
    ensures Only(a + [c] + b, needle, p)
  {
    Apart(a, c, b, needle);
  }

  lemma OnlyAfter(a: string, c: char, b: string, needle: string, p: nat)
    requires c !in needle && Absent(a, needle) && Only(b, needle, p)
    ensures Only(a + [c] + b, needle, |a| + 1 + p)
  {
    Apart(a, c, b, needle);
  }

  /** A text that lacks the needle's first character lacks the needle. */
  lemma AbsentByFirst(s: string, needle: string)
    requires needle != "" && needle[0] !in s
    ensures Absent(s, needle)
  {
    hide At;
    forall i ensures !At(s, i, needle) {
      AtChars(s, i, needle);
      assert 0 <= i < |s| ==> s[i + 0] in s;
    }
  }

  lemma ItselfOnly(needle: string)
    requires needle != ""
    ensures Only(needle, needle, 0)
  {
    forall i ensures At(needle, i, needle) <==> i == 0 {
      assert needle[0..|needle|] == needle;
    }
  }

  // ---- Where the markers are in a trailer ----

  lemma OpeningMarks()
    ensures Only(OPENING, HEADING, 9) && Absent(OPENING, MARKER)
  {
    hide Absent, Only, At;
    HeadingLineMarks();
    AbsentByFirst("\n---\n", HEADING);
    AbsentByFirst("\n---\n", MARKER);
    OnlyAfter("\n---\n", '\n', HEADING_LINE, HEADING, 3);
    AbsentApart("\n---\n", '\n', HEADING_LINE, MARKER);
    assert OPENING == "\n---\n" + ['\n'] + HEADING_LINE;
  }

  lemma HeadingLineMarks()
    ensures Only(HEADING_LINE, HEADING, 3) && Absent(HEADING_LINE, MARKER)
  {
    hide Absent, Only, At;
    ItselfOnly(HEADING);
    SpacedHeading();
    AbsentByFirst("#", HEADING);
    OnlyAfter("#", '#', " " + HEADING, HEADING, 1);
    assert HEADING_LINE == "#" + ['#'] + (" " + HEADING);
    AbsentByFirst(HEADING_LINE, MARKER);
  }

  lemma SpacedHeading()
    ensures Only(" " + HEADING, HEADING, 1)
  {
    var s := " " + HEADING;
    assert s[1..1 + |HEADING|] == HEADING;
    AtChars(s, 0, HEADING);
    assert s[0 + 0] == ' ';
  }

  lemma CommentHeadMarks()
    ensures Only("<!-- lwc-ann-v1 source_id", MARKER, 5) && Absent("<!-- lwc-ann-v1 source_id", HEADING)
  {
    var s := "<!-- lwc-ann-v1 source_id";
    hide Absent, Only, At;
    AbsentByFirst(s, HEADING);
    CommentHeadMarker();
    assert s == "<!--" + [' '] + (MARKER + [' '] + "source_id");
  }

  lemma CommentHeadMarker()
    ensures Only("<!--" + [' '] + (MARKER + [' '] + "source_id"), MARKER, 5)
  {
    hide Absent, Only, At;
    ItselfOnly(MARKER);
    AbsentByFirst("source_id", MARKER);
    AbsentByFirst("<!--", MARKER);
    OnlyBefore(MARKER, ' ', "source_id", MARKER, 0);
    OnlyAfter("<!--", ' ', MARKER + [' '] + "source_id", MARKER, 0);
  }

  /** An ID without the heading does not make one together with what follows it. */
  lemma IDMarks(id: string)
    requires MarkerFree(id)
    ensures MarkerFree(id + " ann_sha256")
  {
    var s := id + " ann_sha256";
    assert s == id + [' '] + "ann_sha256";
    AbsentByFirst("ann_sha256", MARKER);
    AbsentApart(id, ' ', "ann_sha256", MARKER);
    forall i ensures !At(s, i, HEADING) {
      Straddle(id, i);
    }
  }

  lemma Straddle(id: string, i: int)
    requires Absent(id, HEADING)
    ensures !At(id + " ann_sha256", i, HEADING)
  {
    hide At;
    var tail := " ann_sha256";
    var s := id + tail;
    AtChars(s, i, HEADING);
    AtChars(id, i, HEADING);
    var k := |id| - i;
    if 0 <= i && i + |HEADING| <= |s| && k < |HEADING| {
      assert forall j :: 0 <= j < |tail| ==> s[|id| + j] == tail[j];
      if 0 <= k {
        assert s[i + k] == tail[0] == ' ' && s[i + (k + 4)] == tail[4] == '_';
        HeadingSpaces(k);
      }
    }
  }

  /** The heading has two spaces, and neither is followed by " ann_". */
  lemma HeadingSpaces(k: int)
    requires 0 <= k < |HEADING|
    ensures HEADING[k] != ' ' || (k + 4 < |HEADING| && HEADING[k + 4] != '_')
  {
  }

  lemma DigestMarks(digest: string)
    requires Hex64(digest)
    ensures MarkerFree(digest + COMMENT_END)
  {
    var s := digest + COMMENT_END;
    assert forall i :: 0 <= i < 64 ==> HexDigit(digest[i]);
    assert forall i :: 0 <= i < |s| ==> s[i] == if i < 64 then digest[i] else COMMENT_END[i - 64];
    AbsentByFirst(s, HEADING);
    AbsentByFirst(s, MARKER);
  }

  lemma CommentMarks(id: string, digest: string)
    requires MarkerFree(id) && Hex64(digest)
    ensures Only(Comment(id, digest), MARKER, 5) && Absent(Comment(id, digest), HEADING)
  {
    var head, mid, end := "<!-- lwc-ann-v1 source_id", id + " ann_sha256", digest + COMMENT_END;
    CommentHeadMarks();
    IDMarks(id);
    DigestMarks(digest);
    hide Absent, Only;
    assert Comment(id, digest) == head + ['='] + (mid + ['='] + end);
    AbsentApart(mid, '=', end, HEADING);
    AbsentApart(mid, '=', end, MARKER);
    AbsentApart(head, '=', mid + ['='] + end, HEADING);
    OnlyBefore(head, '=', mid + ['='] + end, MARKER, 5);
  }

  lemma NothingMarks()
    ensures MarkerFree("")
  {
  }

  /** A page with a trailer has each marker once, where the trailer has it. */
  lemma TrailerMarks(page: string, id: string, digest: string, body: string)
    requires MarkerFree(page) && MarkerFree(id) && Hex64(digest) && MarkerFree(Normalize(body))
    ensures Only(page + Trailer(id, digest, body), HEADING, |page| + 1 + 9)
    ensures exists p: nat :: Only(page + Trailer(id, digest, body), MARKER, p)
  {
    var comment, text := Comment(id, digest), Normalize(body);
    OpeningMarks();
    CommentMarks(id, digest);
    NothingMarks();
    LinesMark(page, comment, text);
    assert page + Trailer(id, digest, body) == page + ['\n'] + (OPENING + ['\n'] + (comment + ['\n'] + (text + ['\n'] + "")));
  }

  lemma LinesMark(page: string, comment: string, text: string)
    requires Absent(page, HEADING) && Absent(page, MARKER)
    requires Only(OPENING, HEADING, 9) && Absent(OPENING, MARKER)
    requires Only(comment, MARKER, 5) && Absent(comment, HEADING)
    requires Absent(text, HEADING) && Absent(text, MARKER) && Absent("", HEADING) && Absent("", MARKER)
    ensures var s := page + ['\n'] + (OPENING + ['\n'] + (comment + ['\n'] + (text + ['\n'] + "")));
            Only(s, HEADING, |page| + 1 + 9) && Only(s, MARKER, |page| + 1 + (|OPENING| + 1 + 5))
  {
    hide Absent, Only;
    var d3 := text + ['\n'] + "";
    AbsentApart(text, '\n', "", HEADING);
    AbsentApart(text, '\n', "", MARKER);
    var d2 := comment + ['\n'] + d3;
    AbsentApart(comment, '\n', d3, HEADING);
    OnlyBefore(comment, '\n', d3, MARKER, 5);
    var d1 := OPENING + ['\n'] + d2;
    OnlyBefore(OPENING, '\n', d2, HEADING, 9);
    OnlyAfter(OPENING, '\n', d2, MARKER, 5);
    OnlyAfter(page, '\n', d1, HEADING, 9);
    OnlyAfter(page, '\n', d1, MARKER, |OPENING| + 1 + 5);
  }

  // ---- Normalised text ----

  lemma {:induction false} NormalizedHasNoReturn(body: string)
    ensures '\r' !in Normalize(body) && (body != "" ==> Normalize(body) != "")
    decreases |body|
  {
    if body != "" {
      NormalizedHasNoReturn(if body[0] == '\r' && |body| > 1 && body[1] == '\n' then body[2..] else body[1..]);
    }
  }

  lemma {:induction false} NormalizedIsNormal(text: string)
    requires '\r' !in text
    ensures Normalize(text) == text
  {
    if text != "" {
      assert text[0] in text;
      NormalizedIsNormal(text[1..]);
    }
  }

  predicate OneLine(needle: string) {
    needle != "" && '\n' !in needle && '\r' !in needle
  }

  lemma {:induction false} NormalizedPrefix(body: string, needle: string)
    requires '\n' !in needle && '\r' !in needle && needle <= Normalize(body)
    ensures needle <= body
    decreases |needle|
  {
    if needle != "" {
      assert needle[0] in needle && needle[0] == Normalize(body)[0];
      assert body[0] == needle[0];
      assert Normalize(body)[1..] == Normalize(body[1..]);
      NormalizedPrefix(body[1..], needle[1..]);
    }
  }

  /** Normalising makes no marker. */
  lemma {:induction false} NormalizedAbsent(body: string, needle: string)
    requires OneLine(needle) && Absent(body, needle)
    ensures Absent(Normalize(body), needle)
    decreases |body|
  {
    var text := Normalize(body);
    if body == "" {
      assert forall i :: !At("", i, needle);
    } else {
      var skip := if body[0] == '\r' && |body| > 1 && body[1] == '\n' then 2 else 1;
      var rest := body[skip..];
      assert text[1..] == Normalize(rest);
      AbsentAfter(body, skip, needle);
      NormalizedAbsent(rest, needle);
      forall i ensures !At(text, i, needle) {
        NormalizedAt(body, text, needle, i);
      }
    }
  }

  lemma NormalizedAt(body: string, text: string, needle: string, i: int)
    requires OneLine(needle) && Absent(body, needle) && text == Normalize(body) && text != ""
    requires Absent(text[1..], needle)
    ensures !At(text, i, needle)
  {
    if i == 0 {
      if needle <= text {
        NormalizedPrefix(body, needle);
      }
      assert needle <= body ==> At(body, 0, needle);
      assert At(text, 0, needle) ==> needle <= text;
    } else {
      AtTail(text, needle, i);
    }
  }

  lemma AtTail(text: string, needle: string, i: int)
    requires text != "" && i != 0
    ensures At(text, i, needle) ==> At(text[1..], i - 1, needle)
  {
    if 0 < i && i + |needle| <= |text| {
      ByteStrings.DropDrop(text, 1, i - 1);
      assert text[i..i + |needle|] == text[i..][..|needle|];
      assert text[1..][i - 1..i - 1 + |needle|] == text[1..][i - 1..][..|needle|];
    }
  }

  lemma AbsentAfter(s: string, k: nat, needle: string)
    requires k <= |s| && Absent(s, needle)
    ensures Absent(s[k..], needle)
  {
    forall i ensures !At(s[k..], i, needle) {
      if 0 <= i && i + |needle| <= |s| - k {
        assert s[k..][i..i + |needle|] == s[k + i..k + i + |needle|];
        assert !At(s, k + i, needle);
      }
    }
  }

  lemma NormalizedIsMarkerFree(body: string)
    requires MarkerFree(body)
    ensures MarkerFree(Normalize(body))
  {
    NormalizedAbsent(body, HEADING);
    NormalizedAbsent(body, MARKER);
  }

  // ---- The comment line ----

  lemma {:induction false} SeparatorFirst(id: string, digest: string)
    requires Absent(id, SEPARATOR)
    ensures Find(id + SEPARATOR + digest, SEPARATOR, 0) == |id|
  {
    var s := id + SEPARATOR + digest;
    assert s[|id|..|id| + |SEPARATOR|] == SEPARATOR;
    assert At(s, |id|, SEPARATOR);
    forall j | 0 <= j < |id| ensures !At(s, j, SEPARATOR) {
      SeparatorNotBefore(id, digest, j);
    }
  }

  lemma SeparatorNotBefore(id: string, digest: string, j: nat)
    requires Absent(id, SEPARATOR) && j < |id|
    ensures !At(id + SEPARATOR + digest, j, SEPARATOR)
  {
    hide At;
    var s := id + SEPARATOR + digest;
    AtChars(s, j, SEPARATOR);
    AtChars(id, j, SEPARATOR);
    var k := |id| - j;
    assert s[j + k] == SEPARATOR[0] == ' ';
    if k < |SEPARATOR| {
      assert SEPARATOR[k] != ' ';
    } else {
      assert forall i :: 0 <= i < |SEPARATOR| ==> (s[j + i] == SEPARATOR[i] <==> id[j + i] == SEPARATOR[i]);
    }
  }

  lemma HeaderReadsBack(id: string, digest: string)
    requires id != "" && Absent(id, SEPARATOR) && Hex64(digest)
    ensures HeaderOf(Comment(id, digest)) == Some((id, digest))
  {
    hide Absent, Hex64;
    var comment := Comment(id, digest);
    var header := id + SEPARATOR + digest;
    var open := COMMENT + header;
    assert comment == open + COMMENT_END;
    assert comment[..|comment| - |COMMENT_END|] == open && comment[|open|..] == COMMENT_END;
    assert HasPrefix(comment, COMMENT) && HasPrefix(open, COMMENT) && open[|COMMENT|..] == header;
    SeparatorFirst(id, digest);
    assert header[..|id|] == id && header[|id| + |SEPARATOR|..] == digest;
  }

  // ---- Lines ----

  /** A line ends at its first newline. */
  lemma {:induction false} EndIs(data: string, start: nat, end: nat)
    requires start < end <= |data| && data[end - 1] == '\n' && '\n' !in data[start..end - 1]
    ensures EndOfLine(data, start) == end
    decreases end - start
  {
    if start + 1 < end {
      assert data[start] == data[start..end - 1][0];
      assert data[start + 1..end - 1] == data[start..end - 1][1..];
      EndIs(data, start + 1, end);
    }
  }

  lemma LineIs(data: string, start: nat, content: string)
    requires start + |content| < |data| && data[start..start + |content|] == content && data[start + |content|] == '\n'
    requires '\n' !in content && !HasSuffix(content, "\r")
    ensures EndOfLine(data, start) == start + |content| + 1
    ensures LineOf(data, start) == SourceLine(start, start + |content| + 1, content, "\n")
  {
    var end := start + |content| + 1;
    EndIs(data, start, end);
    var line := data[start..end];
    assert line == content + "\n";
    assert line[..|line| - 1] == content && line[|line| - 1..] == "\n";
    if |content| > 0 {
      assert line[|line| - 2..] == [content[|content| - 1]] + "\n";
      assert content[|content| - 1..] == [content[|content| - 1]];
    }
  }

  /** How a line ends that ends at `m`. */
  function EndingAt(data: string, s: nat, m: nat): string
    requires s < m <= |data|
  {
    if m - 2 >= s && data[m - 2] == '\r' then "\r\n" else "\n"
  }

  /** The lines up to a newline, and what is known of the last of them. */
  lemma {:induction false} LinesUpTo(data: string, s: nat, m: nat) returns (front: seq<SourceLine>)
    requires s < m <= |data| && data[m - 1] == '\n'
    ensures LinesFrom(data, s) == front + LinesFrom(data, m) && front != []
    ensures front[|front| - 1].end == m && front[|front| - 1].eol == EndingAt(data, s, m)
    ensures forall k :: 0 <= k < |front| ==> s <= front[k].start < m
    decreases m - s
  {
    hide LinesFrom, LineOf, EndOfLine, EndingAt;
    NextLine(data, s);
    var end := EndOfLine(data, s);
    var line := LineOf(data, s);
    LineParts(data, s);
    if end >= m {
      EndsAt(data, s, m);
      front := [line];
      LastEnding(data, s, m);
    } else {
      var more := LinesUpTo(data, end, m);
      EndingMoves(data, s, end, m);
      ByteStrings.Assoc([line], more, LinesFrom(data, m));
      front := [line] + more;
    }
  }

  lemma LineParts(data: string, s: nat)
    requires s < |data|
    ensures LineOf(data, s).start == s && LineOf(data, s).end == EndOfLine(data, s)
    ensures LineOf(data, s).eol == LineEnding(data[s..EndOfLine(data, s)])
  {
  }

  lemma EndingMoves(data: string, s: nat, end: nat, m: nat)
    requires s < end < m <= |data| && data[end - 1] == '\n'
    ensures EndingAt(data, s, m) == EndingAt(data, end, m)
  {
  }

  lemma EndsAt(data: string, s: nat, m: nat)
    requires s < m <= |data| && data[m - 1] == '\n' && EndOfLine(data, s) >= m
    ensures EndOfLine(data, s) == m
  {
  }

  lemma LastEnding(data: string, s: nat, m: nat)
    requires s < m <= |data| && data[m - 1] == '\n'
    ensures LineEnding(data[s..m]) == EndingAt(data, s, m)
  {
    var line := data[s..m];
    assert line[|line| - 1..] == "\n";
    if m - 2 >= s {
      assert line[|line| - 2..] == [data[m - 2], '\n'];
    }
  }

  /** Lines come in the order of their starts. */
  lemma {:induction false} StartsFrom(data: string, s: nat)
    requires s <= |data|
    ensures forall k :: 0 <= k < |LinesFrom(data, s)| ==> LinesFrom(data, s)[k].start >= s
    decreases |data| - s
  {
    hide LineWithoutEnding, LineEnding;
    if s < |data| {
      NextLine(data, s);
      StartsFrom(data, EndOfLine(data, s));
    }
  }

  // ---- Finding the trailer ----

  lemma {:induction false} ScanPast(sha: Hash, owner: Option<string>, data: string, lines: seq<SourceLine>, i: nat, j: nat, candidate: Option<nat>)
    requires i <= j <= |lines| && forall k :: 0 <= k < |lines| ==> InText(data, lines[k])
    requires candidate.Some? ==> candidate.value <= |data|
    requires forall k :: i <= k < j ==> lines[k].content != HEADING_LINE
    ensures Scan(sha, owner, data, lines, i, candidate) == Scan(sha, owner, data, lines, j, candidate)
    decreases j - i
  {
    hide Inspect;
    if i < j {
      ScanPast(sha, owner, data, lines, i + 1, j, candidate);
    }
  }

  /** One heading, rightly framed, is what the scan finds. */
  lemma ScanFinds(sha: Hash, owner: Option<string>, data: string, lines: seq<SourceLine>, t: nat)
    requires t < |lines| && forall k :: 0 <= k < |lines| ==> InText(data, lines[k])
    requires forall k :: 0 <= k < |lines| ==> (lines[k].content == HEADING_LINE <==> k == t)
    requires Inspect(sha, owner, data, lines, t).Found?
    ensures Scan(sha, owner, data, lines, 0, None) == Some(Some(Inspect(sha, owner, data, lines, t).start))
  {
    hide Inspect;
    var found := Inspect(sha, owner, data, lines, t);
    ScanPast(sha, owner, data, lines, 0, t, None);
    ScanPast(sha, owner, data, lines, t + 1, |lines|, Some(found.start));
  }

  /** The only heading says that the trailer is someone else's, or says nothing. */
  lemma ScanRefuses(sha: Hash, owner: Option<string>, data: string, lines: seq<SourceLine>, t: nat)
    requires t < |lines| && forall k :: 0 <= k < |lines| ==> InText(data, lines[k])
    requires forall k :: 0 <= k < |lines| ==> (lines[k].content == HEADING_LINE <==> k == t)
    requires !Inspect(sha, owner, data, lines, t).Found?
    ensures var r := Scan(sha, owner, data, lines, 0, None); r == None || r == Some(None)
  {
    hide Inspect;
    ScanPast(sha, owner, data, lines, 0, t, None);
    if Inspect(sha, owner, data, lines, t).Nothing? {
      ScanPast(sha, owner, data, lines, t + 1, |lines|, None);
    }
  }

  /** The parts of a trailer, whatever digest it states. */
  ghost predicate Enclosed(page: string, id: string, digest: string, body: string) {
    && MarkerFree(page) && MarkerFree(id) && MarkerFree(body)
    && ValidSourceID(id) && '\n' !in id && Absent(id, SEPARATOR) && Hex64(digest) && !Blank(body)
  }

  /** The same with the digest that the body has. */
  ghost predicate Annotated(sha: Hash, page: string, id: string, digest: string, body: string) {
    Enclosed(page, id, digest, body) && digest == Digest(sha, body)
  }

  function L(line: string): string {
    line + "\n"
  }

  /** The page with its trailer, line by line. */
  function Whole(page: string, comment: string, text: string): string {
    (page + "\n") + (L("") + (L("---") + (L("") + (L(HEADING_LINE) + (L(comment) + L(text))))))
  }

  lemma OpeningLines()
    ensures "\n" + OPENING + "\n" == "\n" + (L("") + (L("---") + (L("") + L(HEADING_LINE))))
  {
  }

  lemma Regroup(page: string, n: string, l0: string, l1: string, l2: string, l3: string, t: string)
    ensures page + ((n + (l0 + (l1 + (l2 + l3)))) + t) == (page + n) + (l0 + (l1 + (l2 + (l3 + t))))
  {
  }

  lemma TrailerIs(id: string, digest: string, body: string)
    ensures Trailer(id, digest, body) == ("\n" + OPENING + "\n") + (L(Comment(id, digest)) + L(Normalize(body)))
  {
    hide Comment, Normalize;
  }

  lemma WholeIs(page: string, id: string, digest: string, body: string)
    ensures page + Trailer(id, digest, body) == Whole(page, Comment(id, digest), Normalize(body))
  {
    hide Comment, Normalize, L, Trailer;
    var comment, text := Comment(id, digest), Normalize(body);
    OpeningLines();
    TrailerIs(id, digest, body);
    Regroup(page, "\n", L(""), L("---"), L(""), L(HEADING_LINE), L(comment) + L(text));
  }

  /** What is found at an offset of a concatenation. */
  lemma Slice(data: string, a: string, b: string, c: string)
    requires data == a + (b + c)
    ensures data[|a|..|a| + |b|] == b && data[|a| + |b|..] == c
    ensures data == (a + b) + c
    ensures c != "" ==> data[|a| + |b|] == c[0]
  {
  }

  /** The five lines from the blank one to the comment, and where the body starts. */
  ghost predicate TrailerLines(data: string, from: nat, comment: string, body: nat, lines: seq<SourceLine>) {
    && |lines| == 5
    && lines[0].content == "" && lines[1].content == "---" && lines[2].content == ""
    && lines[3] == SourceLine(from + 6, from + 7 + |HEADING_LINE|, HEADING_LINE, "\n")
    && lines[4].content == comment && lines[4].end == body
    && forall k :: 0 <= k < 5 ==> from <= lines[k].start && (k != 3 ==> lines[k].start != from + 6)
  }

  lemma LineFound(data: string, start: nat, content: string)
    requires start + |content| < |data| && data[start..start + |content|] == content && data[start + |content|] == '\n'
    requires '\n' !in content && !HasSuffix(content, "\r")
    ensures LinesFrom(data, start)
            == [SourceLine(start, start + |content| + 1, content, "\n")] + LinesFrom(data, start + |content| + 1)
  {
    hide LinesFrom, LineOf, EndOfLine;
    LineIs(data, start, content);
    NextLine(data, start);
  }

  /** A line's text and its newline at an offset. */
  ghost predicate HasLine(data: string, start: nat, content: string) {
    start + |content| < |data| && data[start..start + |content|] == content && data[start + |content|] == '\n'
  }

  ghost predicate Laid(data: string, p: nat, comment: string, text: string) {
    && HasLine(data, p + 1, "") && HasLine(data, p + 2, "---") && HasLine(data, p + 6, "") && HasLine(data, p + 7, HEADING_LINE)
    && HasLine(data, p + 8 + |HEADING_LINE|, comment)
    && var body := p + 8 + |HEADING_LINE| + |comment| + 1;
       body <= |data| && data[body..] == text + "\n"
  }

  lemma Peel(data: string, a: string, content: string, c: string)
    requires data == a + (L(content) + c)
    ensures HasLine(data, |a|, content) && data == (a + L(content)) + c && |a + L(content)| == |a| + |content| + 1
  {
    ByteStrings.Assoc(content, "\n", c);
    ByteStrings.Assoc(a, content + "\n", c);
    Slice(data, a, content, "\n" + c);
  }

  lemma WholeIsLaid(page: string, comment: string, text: string)
    ensures var data := Whole(page, comment, text);
            |page| < |data| && data[..|page|] == page && data[|page|] == '\n' && Laid(data, |page|, comment, text)
  {
    hide L, HasLine;
    var data := Whole(page, comment, text);
    var c4 := L(text);
    var c3 := L(comment) + c4;
    var c2 := L(HEADING_LINE) + c3;
    var c1 := L("") + c2;
    var c0 := L("---") + c1;
    var a0 := page + "\n";
    Peel(data, a0, "", c0);
    var a1 := a0 + L("");
    Peel(data, a1, "---", c1);
    var a2 := a1 + L("---");
    Peel(data, a2, "", c2);
    var a3 := a2 + L("");
    Peel(data, a3, HEADING_LINE, c3);
    var a4 := a3 + L(HEADING_LINE);
    Peel(data, a4, comment, c4);
    var a5 := a4 + L(comment);
    WholeEnds(data, page, a5, text, L("") + c0);
  }

  lemma WholeEnds(data: string, page: string, a: string, text: string, c: string)
    requires data == a + L(text) && data == (page + "\n") + c
    ensures data[|a|..] == text + "\n" && |page| < |data| && data[..|page|] == page && data[|page|] == '\n'
  {
  }

  lemma FixedLines(data: string, p: nat, comment: string, text: string) returns (lines: seq<SourceLine>)
    requires Laid(data, p, comment, text) && '\n' !in comment && !HasSuffix(comment, "\r")
    ensures var body := p + 8 + |HEADING_LINE| + |comment| + 1;
            p + 1 <= |data| && LinesFrom(data, p + 1) == lines + LinesFrom(data, body)
            && TrailerLines(data, p + 1, comment, body, lines)
  {
    hide LinesFrom, HasSuffix;
    NoReturns();
    LineFound(data, p + 1, "");
    LineFound(data, p + 2, "---");
    LineFound(data, p + 6, "");
    LineFound(data, p + 7, HEADING_LINE);
    LineFound(data, p + 8 + |HEADING_LINE|, comment);
    var h := p + 7 + |HEADING_LINE|;
    lines := [SourceLine(p + 1, p + 2, "", "\n"), SourceLine(p + 2, p + 6, "---", "\n"), SourceLine(p + 6, p + 7, "", "\n"),
              SourceLine(p + 7, h + 1, HEADING_LINE, "\n"), SourceLine(h + 1, h + 1 + |comment| + 1, comment, "\n")];
  }

  lemma NoReturns()
    ensures !HasSuffix("", "\r") && !HasSuffix("---", "\r") && !HasSuffix(HEADING_LINE, "\r")
    ensures '\n' !in HEADING_LINE
  {
    assert HEADING_LINE[|HEADING_LINE| - 1] == ')';
    assert HEADING_LINE[|HEADING_LINE| - 1..][0] == ')';
  }

  lemma {:induction false} LinesAre(data: string, s: nat, k: nat)
    requires s <= |data| && k < |LinesFrom(data, s)|
    ensures LinesFrom(data, s)[k].start < |data| && LinesFrom(data, s)[k] == LineOf(data, LinesFrom(data, s)[k].start)
    decreases |data| - s
  {
    hide LineWithoutEnding, LineEnding;
    if s < |data| {
      NextLine(data, s);
      if k > 0 {
        LinesAre(data, EndOfLine(data, s), k - 1);
      }
    }
  }

  /** What is found in the first part of a line is found in the text. */
  lemma PrefixAt(data: string, s: nat, end: nat, prefix: string, k: nat, needle: string)
    requires s <= end <= |data| && prefix <= data[s..end] && k + |needle| <= |prefix| && prefix[k..k + |needle|] == needle
    ensures At(data, s + k, needle)
  {
    var line := data[s..end];
    var here, there := line[k..k + |needle|], data[s + k..s + k + |needle|];
    assert forall i :: 0 <= i < |needle| ==> there[i] == data[s + k + i] && here[i] == line[k + i] == data[s + (k + i)];
    assert line[..|prefix|] == prefix;
    assert line[k..k + |needle|] == line[..|prefix|][k..k + |needle|];
  }

  lemma HeadingOffset()
    ensures HEADING_LINE[3..3 + |HEADING|] == HEADING
  {
  }

  lemma MarkerOffset()
    ensures COMMENT[5..5 + |MARKER|] == MARKER
  {
  }

  lemma BareLine(line: string)
    ensures LineWithoutEnding(line) <= line
  {
  }

  lemma HeadingInLine(data: string, s: nat)
    requires s < |data| && LineOf(data, s).content == HEADING_LINE
    ensures At(data, s + 3, HEADING)
  {
    hide LineWithoutEnding, At;
    HeadingOffset();
    BareLine(data[s..EndOfLine(data, s)]);
    PrefixAt(data, s, EndOfLine(data, s), HEADING_LINE, 3, HEADING);
  }

  /** A heading line has the heading in it. */
  lemma HeadingAt(data: string, s: nat, p: int)
    requires s < |data| && LineOf(data, s).content == HEADING_LINE && Only(data, HEADING, p)
    ensures s + 3 == p
  {
    HeadingInLine(data, s);
  }

  /** The lines of a page with a trailer: those of the page, the five fixed ones, and those of the body. */
  ghost predicate Shape(data: string, p: nat, comment: string, body: nat, front: seq<SourceLine>, five: seq<SourceLine>) {
    && p + 1 <= |data| && body < |data| && p + 7 < body
    && LinesFrom(data, 0) == front + (five + LinesFrom(data, body))
    && front != [] && (forall k :: 0 <= k < |front| ==> front[k].start < p + 1)
    && front[|front| - 1].end == p + 1 && front[|front| - 1].eol == EndingAt(data, 0, p + 1)
    && TrailerLines(data, p + 1, comment, body, five)
  }

  lemma ShapeOf(page: string, comment: string, text: string, data: string) returns (front: seq<SourceLine>, five: seq<SourceLine>)
    requires data == Whole(page, comment, text) && '\n' !in comment && !HasSuffix(comment, "\r")
    ensures var body := |page| + 8 + |HEADING_LINE| + |comment| + 1;
            Shape(data, |page|, comment, body, front, five) && data[..|page|] == page && data[body..] == text + "\n"
  {
    hide LinesFrom, TrailerLines, EndingAt, Whole, HasSuffix, HasLine;
    WholeIsLaid(page, comment, text);
    front := LinesUpTo(data, 0, |page| + 1);
    five := FixedLines(data, |page|, comment, text);
  }

  lemma OneHeading(data: string, p: nat, comment: string, body: nat, front: seq<SourceLine>, five: seq<SourceLine>)
    requires Shape(data, p, comment, body, front, five) && Only(data, HEADING, p + 10)
    ensures var lines, t := LinesFrom(data, 0), |front| + 3;
            && t < |lines| && forall k :: 0 <= k < |lines| ==> (lines[k].content == HEADING_LINE <==> k == t)
  {
    hide LinesFrom, LineOf, Only;
    var lines, t, tail := LinesFrom(data, 0), |front| + 3, LinesFrom(data, body);
    forall k | 0 <= k < |lines| ensures lines[k].content == HEADING_LINE <==> k == t {
      LinesAre(data, 0, k);
      StartsFrom(data, body);
      if k < |front| {
        assert lines[k] == front[k];
      } else if k < |front| + 5 {
        assert lines[k] == five[k - |front|];
      } else {
        assert lines[k] == tail[k - |front| - 5];
      }
      if lines[k].content == HEADING_LINE {
        HeadingAt(data, lines[k].start, p + 10);
      }
    }
  }

  lemma Neighbours(data: string, p: nat, comment: string, body: nat, front: seq<SourceLine>, five: seq<SourceLine>)
    requires Shape(data, p, comment, body, front, five)
    ensures var lines, t := LinesFrom(data, 0), |front| + 3;
            && Framed(lines, t)
            && lines[t + 1].content == comment && lines[t + 2].start == body
            && lines[t - 4].end == p + 1 && lines[t - 4].eol == EndingAt(data, 0, p + 1)
  {
    hide LinesFrom, EndingAt, LineOf, EndOfLine;
    var lines, t, tail := LinesFrom(data, 0), |front| + 3, LinesFrom(data, body);
    NextLine(data, body);
    LineParts(data, body);
    assert lines[t - 1] == five[2] && lines[t - 2] == five[1] && lines[t - 3] == five[0] && lines[t + 1] == five[4];
    assert lines[t + 2] == tail[0] && lines[t - 4] == front[|front| - 1];
  }

  lemma InspectTells(sha: Hash, owner: Option<string>, data: string, lines: seq<SourceLine>, t: nat, id: string, digest: string, text: string)
    requires t < |lines| && (forall k :: 0 <= k < |lines| ==> InText(data, lines[k])) && Framed(lines, t)
    requires HeaderOf(lines[t + 1].content) == Some((id, digest)) && ValidSourceID(id)
    requires HasSuffix(data, "\n") && BodyFrom(data, lines[t + 2].start) == text != ""
    ensures Inspect(sha, owner, data, lines, t) ==
              if owner != None && owner.value != id then Foreign
              else if Digest(sha, text) != digest then Nothing
              else Found(lines[t - 4].end - |lines[t - 4].eol|)
  {
    hide HeaderOf, ValidSourceID, BodyFrom, Digest, HasSuffix;
  }

  lemma TrailerTells(sha: Hash, owner: Option<string>, data: string, page: string, id: string, digest: string, body: string,
                     front: seq<SourceLine>, five: seq<SourceLine>)
    requires Enclosed(page, id, digest, body)
    requires var at := |page| + 8 + |HEADING_LINE| + |Comment(id, digest)| + 1;
             && Shape(data, |page|, Comment(id, digest), at, front, five) && data[..|page|] == page
             && data[at..] == Normalize(body) + "\n"
    ensures var lines, t := LinesFrom(data, 0), |front| + 3;
            && t < |lines| && (forall k :: 0 <= k < |lines| ==> InText(data, lines[k]))
            && Inspect(sha, owner, data, lines, t) ==
                 if owner != None && owner.value != id then Foreign
                 else if Digest(sha, body) != digest then Nothing
                 else Found(if HasSuffix(page, "\r") then |page| - 1 else |page|)
  {
    hide LinesFrom, Comment, MarkerFree, Absent, Hex64, Normalize, HeaderOf, ValidSourceID, Blank, Inspect, Framed, EndingAt,
         TrailerLines, Digest, BodyFrom, HasSuffix;
    var at := |page| + 8 + |HEADING_LINE| + |Comment(id, digest)| + 1;
    var lines, t := LinesFrom(data, 0), |front| + 3;
    Neighbours(data, |page|, Comment(id, digest), at, front, five);
    FramedIn(lines, t);
    HeaderReads(id, digest);
    BodyReads(sha, data, at, body);
    PageEnds(data, page);
    InspectTells(sha, owner, data, lines, t, id, digest, Normalize(body));
  }

  lemma FramedIn(lines: seq<SourceLine>, t: nat)
    requires Framed(lines, t)
    ensures 4 <= t && t + 2 < |lines|
  {
  }

  lemma HeaderReads(id: string, digest: string)
    requires ValidSourceID(id) && Absent(id, SEPARATOR) && Hex64(digest)
    ensures HeaderOf(Comment(id, digest)) == Some((id, digest))
  {
    HeaderReadsBack(id, digest);
  }

  lemma BodyReads(sha: Hash, data: string, at: nat, body: string)
    requires at < |data| && data[at..] == Normalize(body) + "\n" && !Blank(body)
    ensures HasSuffix(data, "\n") && BodyFrom(data, at) == Normalize(body) != ""
    ensures Digest(sha, BodyFrom(data, at)) == Digest(sha, body)
  {
    hide Normalize;
    var text := Normalize(body);
    NormalizedHasNoReturn(body);
    NormalizedIsNormal(text);
    assert body != "" by {
      if body == "" {
        BlankNothing();
      }
    }
    assert |data| == at + |text| + 1;
    assert data[|data| - 1..] == data[at..][|text|..] == "\n";
    assert data[|data| - 2] == data[at..][|text| - 1] == text[|text| - 1];
    assert text[|text| - 1] in text;
    assert data[|data| - 2..][0] == data[|data| - 2];
    assert data[at..|data| - 1] == data[at..][..|text|] == text;
  }

  lemma BlankNothing()
    ensures Blank("")
  {
  }

  lemma PageEnds(data: string, page: string)
    requires |page| < |data| && data[..|page|] == page
    ensures EndingAt(data, 0, |page| + 1) == if HasSuffix(page, "\r") then "\r\n" else "\n"
  {
    if page != "" {
      assert data[|page| - 1] == data[..|page|][|page| - 1] == page[|page| - 1];
      assert page[|page| - 1..] == [page[|page| - 1]];
    }
  }

  lemma CommentIsOneLine(id: string, digest: string)
    requires '\n' !in id && Hex64(digest)
    ensures '\n' !in Comment(id, digest) && !HasSuffix(Comment(id, digest), "\r")
  {
    var comment := Comment(id, digest);
    assert '\n' !in digest;
    assert comment[|comment| - 1..] == ">";
  }

  /**
   * A page with an appended trailer is refused exactly when the trailer is another source's, or its body is not
   * the one that its digest was taken of; otherwise the trailer is taken off.
   */
  lemma ForeignOrAlteredIsRefused(sha: Hash, owner: Option<string>, page: string, id: string, digest: string, body: string)
    requires Enclosed(page, id, digest, body)
    ensures Strip(sha, owner, page + Trailer(id, digest, body)) ==
              if (owner != None && owner.value != id) || sha(Normalize(body)) != digest then Invalid
              else Stripped(if HasSuffix(page, "\r") then page[..|page| - 1] else page)
  {
    hide LinesFrom, Comment, Normalize, Inspect, Scan, Trailer, Absent, Only, Hex64, ValidSourceID, Blank, Count, Shape, Whole;
    var data, comment, text := page + Trailer(id, digest, body), Comment(id, digest), Normalize(body);
    WholeIs(page, id, digest, body);
    CommentIsOneLine(id, digest);
    var front, five := ShapeOf(page, comment, text, data);
    NormalizedIsMarkerFree(body);
    TrailerMarks(page, id, digest, body);
    var p: nat :| Only(data, MARKER, p);
    OnlyOneIsCounted(data, HEADING, |page| + 10);
    OnlyOneIsCounted(data, MARKER, p);
    OneHeading(data, |page|, comment, |page| + 8 + |HEADING_LINE| + |comment| + 1, front, five);
    TrailerTells(sha, owner, data, page, id, digest, body, front, five);
    var lines, t := LinesFrom(data, 0), |front| + 3;
    if Inspect(sha, owner, data, lines, t).Found? {
      ScanFinds(sha, owner, data, lines, t);
    } else {
      ScanRefuses(sha, owner, data, lines, t);
    }
    Cut(data, page);
  }

  /**
   * Stripping a page with an appended trailer finds the trailer and takes it off. What it gives back is the page, exactly
   * unless the page ends in a carriage return, which it then takes for half of a line end.
   */
  lemma StrippingUndoesAppending(sha: Hash, owner: Option<string>, page: string, id: string, digest: string, body: string)
    requires Annotated(sha, page, id, digest, body) && (owner == None || owner == Some(id))
    ensures var r := Strip(sha, owner, page + Trailer(id, digest, body));
            && r == Stripped(if HasSuffix(page, "\r") then page[..|page| - 1] else page)
            && (r == Stripped(page) <==> !HasSuffix(page, "\r"))
  {
    hide Strip, Trailer, Enclosed;
    ForeignOrAlteredIsRefused(sha, owner, page, id, digest, body);
  }

  lemma Cut(data: string, page: string)
    requires |page| <= |data| && data[..|page|] == page
    ensures page != "" ==> data[..|page| - 1] == page[..|page| - 1]
  {
    if page != "" {
      assert data[..|page| - 1] == data[..|page|][..|page| - 1];
    }
  }

  // ---- Stripping any page ----

  /** A page without markers is left alone. */
  lemma StrippingNothing(sha: Hash, owner: Option<string>, page: string)
    requires MarkerFree(page)
    ensures Strip(sha, owner, page) == Stripped(page)
  {
    hide LinesFrom, Scan, LineOf;
    var lines := LinesFrom(page, 0);
    AbsentIsNotCounted(page, HEADING, 0);
    AbsentIsNotCounted(page, MARKER, 0);
    forall k | 0 <= k < |lines| ensures lines[k].content != HEADING_LINE {
      LinesAre(page, 0, k);
      NoHeadingLine(page, lines[k].start);
    }
    ScanPast(sha, owner, page, lines, 0, |lines|, None);
    ScanEnds(sha, owner, page, lines, None);
  }

  lemma ScanEnds(sha: Hash, owner: Option<string>, data: string, lines: seq<SourceLine>, candidate: Option<nat>)
    requires forall k :: 0 <= k < |lines| ==> InText(data, lines[k])
    requires candidate.Some? ==> candidate.value <= |data|
    ensures Scan(sha, owner, data, lines, |lines|, candidate) == Some(candidate)
  {
  }

  lemma NoHeadingLine(page: string, s: nat)
    requires s < |page| && Absent(page, HEADING)
    ensures LineOf(page, s).content != HEADING_LINE
  {
    hide LineOf, At;
    if LineOf(page, s).content == HEADING_LINE {
      HeadingInLine(page, s);
    }
  }

  lemma PrefixPrefix(a: string, b: string, c: string)
    requires a <= b <= c
    ensures a <= c
  {
  }

  lemma MarkerInLine(data: string, s: nat)
    requires s < |data| && HasPrefix(LineOf(data, s).content, COMMENT)
    ensures At(data, s + 5, MARKER)
  {
    hide LineWithoutEnding, At;
    var line := data[s..EndOfLine(data, s)];
    MarkerOffset();
    BareLine(line);
    PrefixPrefix(COMMENT, LineWithoutEnding(line), line);
    PrefixAt(data, s, EndOfLine(data, s), COMMENT, 5, MARKER);
  }

  lemma {:induction false} LinesInOrder(data: string, s: nat, a: nat, b: nat)
    requires s <= |data| && a < b < |LinesFrom(data, s)|
    ensures LinesFrom(data, s)[a].end <= LinesFrom(data, s)[b].start
    decreases |data| - s
  {
    hide LineWithoutEnding, LineEnding;
    if s < |data| {
      NextLine(data, s);
      StartsFrom(data, EndOfLine(data, s));
      if a > 0 {
        LinesInOrder(data, EndOfLine(data, s), a - 1, b - 1);
      }
    }
  }

  /** What the scan returns was found at some heading. */
  lemma {:induction false} ScanOrigin(sha: Hash, owner: Option<string>, data: string, lines: seq<SourceLine>, i: nat, candidate: Option<nat>)
      returns (t: nat)
    requires i <= |lines| && forall k :: 0 <= k < |lines| ==> InText(data, lines[k])
    requires candidate.Some? ==> candidate.value <= |data|
    requires var r := Scan(sha, owner, data, lines, i, candidate); r.Some? && r.value.Some? && r.value != candidate
    ensures t < |lines| && lines[t].content == HEADING_LINE
    ensures Inspect(sha, owner, data, lines, t) == Found(Scan(sha, owner, data, lines, i, candidate).value.value)
    decreases |lines| - i
  {
    hide Inspect;
    t := i;
    if lines[i].content == HEADING_LINE && Inspect(sha, owner, data, lines, i).Found? {
      var next := Some(Inspect(sha, owner, data, lines, i).start);
      if Scan(sha, owner, data, lines, i + 1, next).value != next {
        t := ScanOrigin(sha, owner, data, lines, i + 1, next);
      }
    } else {
      t := ScanOrigin(sha, owner, data, lines, i + 1, candidate);
    }
  }

  lemma TwoAreCounted(s: string, needle: string, j: int, h: int)
    requires needle != "" && At(s, j, needle) && At(s, h, needle) && j + |needle| <= h
    ensures Count(s, needle, 0) >= 2
  {
    var r := Find(s, needle, 0);
    AbsentIsNotCounted(s, needle, r + |needle|);
  }

  /** What comes before the only occurrence has none. */
  lemma BeforeTheOnlyOne(s: string, needle: string, start: nat, h: nat)
    requires needle != "" && Count(s, needle, 0) == 1 && At(s, h, needle) && start <= h && start <= |s|
    ensures Absent(s[..start], needle)
  {
    forall j ensures !At(s[..start], j, needle) {
      if 0 <= j && j + |needle| <= start {
        assert s[..start][j..j + |needle|] == s[j..j + |needle|];
        if At(s, j, needle) {
          TwoAreCounted(s, needle, j, h);
        }
      }
    }
  }

  lemma CandidateIsAhead(sha: Hash, owner: Option<string>, data: string, t: nat)
    requires var lines := LinesFrom(data, 0); t < |lines| && lines[t].content == HEADING_LINE
    requires Inspect(sha, owner, data, LinesFrom(data, 0), t).Found?
    ensures var start := Inspect(sha, owner, data, LinesFrom(data, 0), t).start;
            && (exists h :: start <= h && At(data, h, HEADING)) && (exists h :: start <= h && At(data, h, MARKER))
  {
    hide LinesFrom, LineOf, At, Digest, BodyFrom, ParseHeader, ValidSourceID, HasPrefix, HasSuffix;
    var lines := LinesFrom(data, 0);
    LinesAre(data, 0, t);
    LinesAre(data, 0, t + 1);
    HeadingInLine(data, lines[t].start);
    LinesInOrder(data, 0, t - 4, t);
    LinesInOrder(data, 0, t, t + 1);
    assert HasPrefix(lines[t + 1].content, COMMENT);
    MarkerInLine(data, lines[t + 1].start);
  }

  /** Whatever page stripping accepts, what it gives back has no marker left, so that stripping again changes nothing. */
  lemma StrippingLeavesNoMarker(sha: Hash, owner: Option<string>, data: string)
    requires Strip(sha, owner, data).Stripped?
    ensures MarkerFree(Strip(sha, owner, data).page)
    ensures Strip(sha, owner, Strip(sha, owner, data).page) == Strip(sha, owner, data)
  {
    hide Scan, Inspect, LinesFrom, Count;
    AbsentIsNotCounted(data, HEADING, 0);
    AbsentIsNotCounted(data, MARKER, 0);
    if Count(data, HEADING, 0) != 0 || Count(data, MARKER, 0) != 0 {
      var t := ScanOrigin(sha, owner, data, LinesFrom(data, 0), 0, None);
      CandidateIsAhead(sha, owner, data, t);
      var start := Inspect(sha, owner, data, LinesFrom(data, 0), t).start;
      var h :| start <= h && At(data, h, HEADING);
      var m :| start <= m && At(data, m, MARKER);
      BeforeTheOnlyOne(data, HEADING, start, h);
      BeforeTheOnlyOne(data, MARKER, start, m);
    }
    StrippingNothing(sha, owner, Strip(sha, owner, data).page);
  }

  // ---- The two writers of the trailer ----

  /**
   * Doing the strip-then-append transform twice is doing it once, exactly when nothing is appended or the stripped page
   * does not end in a carriage return.
   */
  lemma TransformingTwiceIsOnce(sha: Hash, page: string, id: string, digest: string, body: string)
    requires var bare := Strip(sha, Some(id), page);
             bare.Stripped? && (Blank(body) || Annotated(sha, bare.page, id, digest, body))
    ensures var bare, once := Strip(sha, Some(id), page), Transform(sha, page, id, digest, body);
            once.Stripped? && (Transform(sha, once.page, id, digest, body) == once <==> Blank(body) || !HasSuffix(bare.page, "\r"))
  {
    hide Strip, Trailer, Annotated, MarkerFree, Blank;
    var bare := Strip(sha, Some(id), page);
    StrippingLeavesNoMarker(sha, Some(id), page);
    if !Blank(body) {
      StrippingUndoesAppending(sha, Some(id), bare.page, id, digest, body);
      if HasSuffix(bare.page, "\r") {
        assert |bare.page[..|bare.page| - 1] + Trailer(id, digest, body)| < |bare.page + Trailer(id, digest, body)|;
      }
    }
  }

  /** For a page without markers: the plain statement. */
  lemma TransformingPlainPages(sha: Hash, page: string, id: string, digest: string, body: string)
    requires MarkerFree(page) && !HasSuffix(page, "\r") && (Blank(body) || Annotated(sha, page, id, digest, body))
    ensures Transform(sha, page, id, digest, body) == Stripped(Materialized(page, id, digest, body))
    ensures Transform(sha, Materialized(page, id, digest, body), id, digest, body) == Stripped(Materialized(page, id, digest, body))
  {
    hide Strip, Trailer, Annotated, MarkerFree, Blank, HasSuffix;
    StrippingNothing(sha, Some(id), page);
    TransformingTwiceIsOnce(sha, page, id, digest, body);
  }

  /** The raw source can be had back from what was materialised for the child. */
  lemma MaterializedSourcesStrip(sha: Hash, raw: string, id: string, digest: string, body: string)
    requires MarkerFree(raw) && (Blank(body) || Annotated(sha, raw, id, digest, body))
    ensures Strip(sha, Some(id), Materialized(raw, id, digest, body)) == Stripped(raw) <==> Blank(body) || !HasSuffix(raw, "\r")
  {
    hide Strip, Trailer, Annotated, MarkerFree, Blank, HasSuffix;
    if Blank(body) {
      StrippingNothing(sha, Some(id), raw);
    } else {
      StrippingUndoesAppending(sha, Some(id), raw, id, digest, body);
    }
  }
}

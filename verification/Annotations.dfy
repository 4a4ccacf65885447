/** The annotation trailer of source pages: written, found again and stripped (cmd/olw_worker/source_reconcile.go). */
module Annotations {
  import opened Options
  import opened Texts
  import opened WikiIndex
  import ByteStrings

  // ---- Searching text ----

  predicate At(s: string, i: int, needle: string) {
    0 <= i && i + |needle| <= |s| && s[i..i + |needle|] == needle
  }

  /** strings.Index, from offset `i` on. */
  function Find(s: string, needle: string, i: nat): (r: int)
    requires i <= |s|
    ensures r < 0 ==> r == -1 && forall j :: i <= j ==> !At(s, j, needle)
    ensures r >= 0 ==> i <= r && At(s, r, needle) && forall j :: i <= j < r ==> !At(s, j, needle)
    decreases |s| - i
  {
    if At(s, i, needle) then i else if i == |s| then -1 else Find(s, needle, i + 1)
  }

  /** strings.Count of a non-empty needle, from offset `i` on. */
  function Count(s: string, needle: string, i: nat): nat
    requires i <= |s| && needle != ""
    decreases |s| - i
  {
    var r := Find(s, needle, i);
    if r < 0 then 0 else 1 + Count(s, needle, r + |needle|)
  }

  // ---- The annotation ----

  /** Line ends become newlines. */
  function Normalize(body: string): string {
    if body == "" then ""
    else if body[0] == '\r' then "\n" + Normalize(if |body| > 1 && body[1] == '\n' then body[2..] else body[1..])
    else [body[0]] + Normalize(body[1..])
  }

  type Hash = string -> string

  function Digest(sha: Hash, body: string): string {
    sha(Normalize(body))
  }

  predicate HexDigit(c: char) {
    '0' <= c <= '9' || 'a' <= c <= 'f' || 'A' <= c <= 'F'
  }

  predicate Hex64(s: string) {
    |s| == 64 && forall i :: 0 <= i < 64 ==> HexDigit(s[i])
  }

  const HEADING := "Human annotations (system)"
  const MARKER := "lwc-ann-v1"
  const HEADING_LINE := "## " + HEADING
  const OPENING := "\n---\n\n" + HEADING_LINE
  const COMMENT := "<!-- lwc-ann-v1 source_id="
  const SEPARATOR := " ann_sha256="
  const COMMENT_END := " -->"

  function Comment(id: string, digest: string): string {
    COMMENT + id + SEPARATOR + digest + COMMENT_END
  }

  /** The trailer as it is appended: the blank lines, the rule, the heading, the comment and the body. */
  function Trailer(id: string, digest: string, body: string): string {
    "\n" + OPENING + "\n" + Comment(id, digest) + "\n" + Normalize(body) + "\n"
  }

  predicate Blank(body: string) {
    TrimSpace(body) == ""
  }

  // ---- Lines ----

  datatype SourceLine = SourceLine(start: nat, end: nat, content: string, eol: string)

  function EndOfLine(data: string, start: nat): (end: nat)
    requires start < |data|
    ensures start < end <= |data|
    ensures end < |data| ==> data[end - 1] == '\n'
    ensures forall i :: start <= i < end - 1 ==> data[i] != '\n'
    decreases |data| - start
  {
    if data[start] == '\n' || start + 1 == |data| then start + 1 else EndOfLine(data, start + 1)
  }

  function LineEnding(line: string): string {
    if HasSuffix(line, "\r\n") then "\r\n" else if HasSuffix(line, "\n") then "\n" else ""
  }

  function LineWithoutEnding(line: string): string {
    var bare := if HasSuffix(line, "\n") then line[..|line| - 1] else line;
    if HasSuffix(bare, "\r") then bare[..|bare| - 1] else bare
  }

  function LineOf(data: string, start: nat): (l: SourceLine)
    requires start < |data|
    ensures InText(data, l)
  {
    var end := EndOfLine(data, start);
    SourceLine(start, end, LineWithoutEnding(data[start..end]), LineEnding(data[start..end]))
  }

  predicate InText(data: string, l: SourceLine) {
    l.start < l.end <= |data| && |l.eol| <= l.end - l.start
  }

  function LinesFrom(data: string, start: nat): (lines: seq<SourceLine>)
    requires start <= |data|
    ensures forall k :: 0 <= k < |lines| ==> InText(data, lines[k])
    decreases |data| - start
  {
    if start == |data| then [] else [LineOf(data, start)] + LinesFrom(data, EndOfLine(data, start))
  }

  /** bytes.IndexByte for the newline. */
  method FindLineEnd(data: string, start: nat) returns (end: nat)
    requires start < |data|
    ensures end == EndOfLine(data, start)
  {
    end := start;
    while end < |data| && data[end] != '\n'
      invariant start <= end <= |data|
      invariant if end < |data| then EndOfLine(data, end) == EndOfLine(data, start) else EndOfLine(data, start) == |data|
    {
      end := end + 1;
    }
    if end < |data| {
      end := end + 1;
    }
  }

  method SplitSourceLines(data: string) returns (lines: seq<SourceLine>)
    ensures lines == LinesFrom(data, 0)
  {
    hide LinesFrom, LineEnding, LineWithoutEnding, EndOfLine;
    lines := [];
    var start := 0;
    while start < |data|
      invariant start <= |data| && LinesFrom(data, 0) == lines + LinesFrom(data, start)
    {
      var end := FindLineEnd(data, start);
      NextLine(data, start);
      ByteStrings.Assoc(lines, [LineOf(data, start)], LinesFrom(data, end));
      lines := lines + [SourceLine(start, end, LineWithoutEnding(data[start..end]), LineEnding(data[start..end]))];
      start := end;
    }
    NoMoreLines(data);
  }

  lemma NextLine(data: string, start: nat)
    requires start < |data|
    ensures LinesFrom(data, start) == [LineOf(data, start)] + LinesFrom(data, EndOfLine(data, start))
  {
  }

  lemma NoMoreLines(data: string)
    ensures LinesFrom(data, |data|) == []
  {
  }

  // ---- Stripping ----

  datatype Stripped = Stripped(page: string) | Invalid

  /** What one line says about a trailer: nothing, that it is someone else's, or where it starts. */
  datatype Finding = Nothing | Foreign | Found(start: nat)

  /** parseAnnotationHeader, on the text between the comment's ends. */
  function ParseHeader(header: string): Option<(string, string)> {
    var i := Find(header, SEPARATOR, 0);
    if i <= 0 then None
    else
      var id, digest := header[..i], header[i + |SEPARATOR|..];
      if Hex64(digest) then Some((id, digest)) else None
  }

  function HeaderOf(comment: string): Option<(string, string)> {
    if !HasPrefix(comment, COMMENT) || !HasSuffix(comment, COMMENT_END) then None
    else
      var open := comment[..|comment| - |COMMENT_END|];
      ParseHeader(if HasPrefix(open, COMMENT) then open[|COMMENT|..] else open)
  }

  /** Blank line, rule and blank line above, a comment and a body below. */
  predicate Framed(lines: seq<SourceLine>, i: nat) {
    && 4 <= i && i + 2 < |lines|
    && lines[i - 1].content == "" && lines[i - 2].content == "---" && lines[i - 3].content == ""
  }

  /** Everything from a line on, without the final line end. */
  function BodyFrom(data: string, start: nat): string {
    var final := if HasSuffix(data, "\r\n") then 2 else 1;
    if start >= |data| - final then "" else data[start..|data| - final]
  }

  function BeforeEnding(data: string, l: SourceLine): (start: nat)
    requires InText(data, l)
    ensures start <= |data|
  {
    l.end - |l.eol|
  }

  /** The heading at line `i`, with what must surround it. */
  function Inspect(sha: Hash, owner: Option<string>, data: string, lines: seq<SourceLine>, i: nat): (r: Finding)
    requires i < |lines| && forall k :: 0 <= k < |lines| ==> InText(data, lines[k])
    ensures r.Found? ==> r.start <= |data|
  {
    if !Framed(lines, i) then Nothing
    else
      var header := HeaderOf(lines[i + 1].content);
      if header == None || !ValidSourceID(header.value.0) then Nothing
      else if owner != None && header.value.0 != owner.value then Foreign
      else if !HasSuffix(data, "\n") then Nothing
      else
        var body := BodyFrom(data, lines[i + 2].start);
        if body == "" || Digest(sha, body) != header.value.1 then Nothing
        else Found(BeforeEnding(data, lines[i - 4]))
  }

  /** The loop over the lines: None when it fails, else the candidate. */
  function Scan(sha: Hash, owner: Option<string>, data: string, lines: seq<SourceLine>, i: nat, candidate: Option<nat>): (r: Option<Option<nat>>)
    requires i <= |lines| && forall k :: 0 <= k < |lines| ==> InText(data, lines[k])
    requires candidate.Some? ==> candidate.value <= |data|
    ensures r.Some? && r.value.Some? ==> r.value.value <= |data|
    decreases |lines| - i
  {
    if i == |lines| then Some(candidate)
    else if lines[i].content != HEADING_LINE then Scan(sha, owner, data, lines, i + 1, candidate)
    else if candidate != None then None
    else
      match Inspect(sha, owner, data, lines, i)
      case Nothing => Scan(sha, owner, data, lines, i + 1, candidate)
      case Foreign => None
      case Found(start) => Scan(sha, owner, data, lines, i + 1, Some(start))
  }

  function Strip(sha: Hash, owner: Option<string>, data: string): Stripped {
    var headings, markers := Count(data, HEADING, 0), Count(data, MARKER, 0);
    var scanned := Scan(sha, owner, data, LinesFrom(data, 0), 0, None);
    if scanned == None then Invalid
    else if headings == 0 && markers == 0 then Stripped(data)
    else if scanned.value == None || headings != 1 || markers != 1 then Invalid
    else Stripped(data[..scanned.value.value])
  }

  method CountAll(s: string, needle: string) returns (n: nat)
    requires needle != ""
    ensures n == Count(s, needle, 0)
  {
    n := 0;
    var i := 0;
    while i <= |s|
      invariant i <= |s| && Count(s, needle, 0) == n + Count(s, needle, i)
      decreases |s| - i
    {
      var r := Find(s, needle, i);
      if r < 0 {
        return;
      }
      n := n + 1;
      i := r + |needle|;
    }
  }

  method StripSystemAnnotationTrailer(sha: Hash, owner: Option<string>, data: string) returns (r: Stripped)
    ensures r == Strip(sha, owner, data)
  {
    hide Inspect, Count;
    var lines := SplitSourceLines(data);
    var headings := CountAll(data, HEADING);
    var markers := CountAll(data, MARKER);
    var candidate: Option<nat> := None;
    for i := 0 to |lines|
      invariant candidate.Some? ==> candidate.value <= |data|
      invariant Scan(sha, owner, data, lines, 0, None) == Scan(sha, owner, data, lines, i, candidate)
    {
      if lines[i].content != HEADING_LINE {
        continue;
      }
      if candidate != None {
        return Invalid;
      }
      var finding := Inspect(sha, owner, data, lines, i);
      if finding.Foreign? {
        return Invalid;
      }
      if finding.Found? {
        candidate := Some(finding.start);
      }
    }
    if headings == 0 && markers == 0 {
      return Stripped(data);
    }
    if candidate == None || headings != 1 || markers != 1 {
      return Invalid;
    }
    r := Stripped(data[..candidate.value]);
  }

  /** planSourceAnnotationTransform: strip what is there, append what should be. */
  function Transform(sha: Hash, page: string, id: string, digest: string, body: string): Stripped {
    var bare := Strip(sha, Some(id), page);
    if bare.Invalid? || Blank(body) then bare else Stripped(bare.page + Trailer(id, digest, body))
  }

  /** materializedSourceBytes. */
  function Materialized(raw: string, id: string, digest: string, body: string): string {
    if Blank(body) then raw else raw + Trailer(id, digest, body)
  }
}

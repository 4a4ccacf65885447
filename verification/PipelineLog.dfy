/** The bounded pipeline log: failure records and the child's diagnostics (cmd/olw_worker/cloud_publish.go, cmd/olw_worker/main.go). */
module PipelineLog {
  import opened ByteStrings

  function Ascii(s: string): (r: Bytes)
    requires forall i :: 0 <= i < |s| ==> s[i] < '\U{80}'
    ensures |r| == |s|
  {
    if s == "" then [] else [s[0] as int as Byte] + Ascii(s[1..])
  }

  const MAX_LOG: nat := 4194304
  const MARKER: Bytes := Ascii("\n[output truncated at 4194304 bytes]\n")
  const NEWLINE: Byte := 10

  predicate EndsWith(data: Bytes, suffix: Bytes) {
    |suffix| <= |data| && data[|data| - |suffix|..] == suffix
  }

  predicate AtLineStart(data: Bytes) {
    data == [] || data[|data| - 1] == NEWLINE
  }

  /** boundedPipelineLogData. */
  function Bounded(data: Bytes): Bytes {
    if |data| <= MAX_LOG then data else data[..MAX_LOG - |MARKER|] + MARKER
  }

  lemma BoundedTwice(data: Bytes)
    ensures |Bounded(data)| <= MAX_LOG && Bounded(Bounded(data)) == Bounded(data)
    ensures Bounded(data) == data || (|Bounded(data)| == MAX_LOG && EndsWith(Bounded(data), MARKER))
  {
    hide Ascii;
  }

  // ---- The failure record ----

  /** How much of the child's log is kept, what separates it from the record, and whether the marker follows. */
  datatype Layout = Layout(kept: nat, separator: Bytes, marked: bool)

  /** The record is whole, on a line of its own, after as much of the child's log as fits. */
  ghost predicate Composed(child: Bytes, record: Bytes, overflow: bool, out: Bytes, l: Layout) {
    && l.kept <= |child| && l.separator in {[], [NEWLINE]}
    && out == child[..l.kept] + l.separator + record + (if l.marked then MARKER else [])
    && AtLineStart(child[..l.kept] + l.separator)
    && |out| <= MAX_LOG
    && (l.marked <==> overflow || |child| + (if AtLineStart(child) then 0 else 1) + |record| > MAX_LOG)
    && (l.kept < |child| ==> l.marked && |out| == MAX_LOG)
    && (l.kept == |child| ==> (l.separator == [] <==> AtLineStart(child)))
  }

  /** composeWorkerFailurePipelineLog. */
  method Compose(child: Bytes, record: Bytes, overflow: bool) returns (r: bool, out: Bytes, ghost l: Layout)
    ensures r <==> |record| + |MARKER| <= MAX_LOG
    ensures r ==> Composed(child, record, overflow, out, l)
  {
    hide Ascii;
    out, l := [], Layout(0, [], false);
    if |record| + |MARKER| > MAX_LOG {
      r := false;
      return;
    }
    r := true;
    var separator := if |child| > 0 && child[|child| - 1] != NEWLINE then 1 else 0;
    if !overflow && |child| + separator + |record| <= MAX_LOG {
      out := child;
      if separator != 0 {
        out := out + [NEWLINE];
      }
      l := Layout(|child|, if separator != 0 then [NEWLINE] else [], false);
      assert child[..|child|] == child && child + l.separator == out && out + record + [] == out + record;
      out := out + record;
      return;
    }
    var available := MAX_LOG - |record| - |MARKER|;
    var keep := if |child| > available then available else |child|;
    var prefix := child[..keep];
    l := Layout(keep, [], true);
    assert prefix + [] == prefix;
    if |prefix| > 0 && prefix[|prefix| - 1] != NEWLINE {
      if |prefix| == available {
        prefix := prefix[..|prefix| - 1];
        assert prefix == child[..keep - 1];
        l := Layout(keep - 1, [NEWLINE], true);
      } else {
        l := Layout(keep, [NEWLINE], true);
      }
      prefix := prefix + [NEWLINE];
    }
    out := prefix + record + MARKER;
  }

  // ---- Appending it once ----

  /** bytes.Split at newlines. */
  function Lines(data: Bytes): (lines: seq<Bytes>)
    ensures lines != []
  {
    if data == [] then [[]]
    else
      var rest := Lines(data[1..]);
      if data[0] == NEWLINE then [[]] + rest else [[data[0]] + rest[0]] + rest[1..]
  }

  /** hasWorkerFailureEvent, given what counts as an event line. */
  predicate HasEvent(isEvent: Bytes -> bool, data: Bytes) {
    exists line :: line in Lines(data) && isEvent(line)
  }

  /** A newline starts a new line, whatever comes before it. */
  lemma {:induction false} LinesSplit(a: Bytes, b: Bytes)
    ensures Lines(a + [NEWLINE] + b) == Lines(a) + Lines(b)
    decreases |a|
  {
    var all := a + [NEWLINE] + b;
    if a == [] {
      assert all[1..] == b && all[0] == NEWLINE;
    } else {
      assert all[1..] == a[1..] + [NEWLINE] + b && all[0] == a[0];
      LinesSplit(a[1..], b);
    }
  }

  lemma {:induction false} OneLine(line: Bytes)
    requires NEWLINE !in line
    ensures Lines(line) == [line]
  {
    if line != [] {
      OneLine(line[1..]);
      assert [line[0]] + line[1..] == line;
    }
  }

  /** A whole record at the start of a line is found again. */
  lemma RecordIsFound(isEvent: Bytes -> bool, before: Bytes, event: Bytes, after: Bytes)
    requires AtLineStart(before) && NEWLINE !in event && isEvent(event)
    ensures HasEvent(isEvent, before + (event + [NEWLINE]) + after)
  {
    OneLine(event);
    LinesSplit(event, after);
    var rest := event + [NEWLINE] + after;
    if before == [] {
      assert before + (event + [NEWLINE]) + after == rest;
    } else {
      var init := before[..|before| - 1];
      LinesSplit(init, rest);
      assert before == init + [NEWLINE];
      assert before + (event + [NEWLINE]) + after == init + [NEWLINE] + rest;
    }
    assert event in Lines(event) + Lines(after);
  }

  /** The markers that earlier cuts left at the end. */
  function Unmarked(data: Bytes): Bytes
    decreases |data|
  {
    MarkerIsThere();
    if EndsWith(data, MARKER) then Unmarked(data[..|data| - |MARKER|]) else data
  }

  lemma MarkerIsThere()
    ensures 0 < |MARKER| < MAX_LOG
  {
    hide Ascii;
  }

  /** The child's part of a log, and whether it is known to have been cut. */
  function ChildPart(data: Bytes): (Bytes, bool) {
    var cut := if |data| > MAX_LOG then data[..MAX_LOG] else data;
    (Unmarked(cut), |data| > MAX_LOG || EndsWith(cut, MARKER))
  }

  function Markers(n: nat): Bytes {
    if n == 0 then [] else Markers(n - 1) + MARKER
  }

  lemma {:induction false} UnmarkedExactly(data: Bytes) returns (n: nat)
    ensures data == Unmarked(data) + Markers(n) && !EndsWith(Unmarked(data), MARKER)
    ensures n > 0 <==> EndsWith(data, MARKER)
    decreases |data|
  {
    hide Ascii;
    MarkerIsThere();
    if EndsWith(data, MARKER) {
      var init := data[..|data| - |MARKER|];
      var m := UnmarkedExactly(init);
      n := m + 1;
      assert data == init + MARKER;
      Assoc(Unmarked(init), Markers(m), MARKER);
    } else {
      n := 0;
      assert data + [] == data;
    }
  }

  /** The child's part is the log, cut at the limit, without the markers at its end; it was cut if there were any, or it is too long. */
  lemma ChildPartExactly(data: Bytes) returns (n: nat)
    ensures (if |data| > MAX_LOG then data[..MAX_LOG] else data) == ChildPart(data).0 + Markers(n)
    ensures !EndsWith(ChildPart(data).0, MARKER)
    ensures ChildPart(data).1 <==> |data| > MAX_LOG || n > 0
  {
    hide Ascii, EndsWith, Unmarked, Markers;
    n := UnmarkedExactly(if |data| > MAX_LOG then data[..MAX_LOG] else data);
  }

  /** What the log holds after a failure has been recorded. */
  ghost predicate Appended(isEvent: Bytes -> bool, data: Bytes, event: Bytes, out: Bytes, l: Layout) {
    if HasEvent(isEvent, data) then out == data
    else Composed(ChildPart(data).0, event + [NEWLINE], ChildPart(data).1, out, l)
  }

  /** appendWorkerFailurePipelineLogLocked, from the log that is there to the log that is written. */
  method AppendFailure(isEvent: Bytes -> bool, data: Bytes, event: Bytes) returns (ok: bool, out: Bytes, ghost l: Layout)
    ensures ok <==> HasEvent(isEvent, data) || |event| + 1 + |MARKER| <= MAX_LOG
    ensures ok ==> Appended(isEvent, data, event, out, l)
  {
    hide Ascii, Lines, Composed, EndsWith;
    l := Layout(0, [], false);
    if HasEvent(isEvent, data) {
      return true, data, l;
    }
    var overflow := |data| > MAX_LOG;
    var child := if overflow then data[..MAX_LOG] else data;
    ghost var cut := child;
    MarkerIsThere();
    while EndsWith(child, MARKER)
      invariant Unmarked(child) == Unmarked(cut)
      invariant || (child == cut && (overflow <==> |data| > MAX_LOG))
                || (|child| < |cut| && overflow && EndsWith(cut, MARKER))
      decreases |child|
    {
      Shorter(child);
      child := child[..|child| - |MARKER|];
      overflow := true;
    }
    ok, out, l := Compose(child, event + [NEWLINE], overflow);
  }

  lemma Shorter(data: Bytes)
    requires EndsWith(data, MARKER)
    ensures |data| >= |MARKER| > 0
  {
    MarkerIsThere();
  }

  lemma {:induction false} AsciiAt(s: string, i: nat)
    requires (forall k :: 0 <= k < |s| ==> s[k] < '\U{80}') && i < |s|
    ensures Ascii(s)[i] as int == s[i] as int
  {
    if i > 0 {
      AsciiAt(s[1..], i - 1);
    }
  }

  /** The marker is a line of its own, with the line end before it. */
  lemma MarkerShape()
    ensures |MARKER| == 37 && MARKER[0] == NEWLINE && MARKER[36] == NEWLINE
    ensures forall i :: 0 < i < 36 ==> MARKER[i] != NEWLINE
  {
    var text := "\n[output truncated at 4194304 bytes]\n";
    hide Ascii;
    assert |text| == 37;
    AsciiAt(text, 0);
    AsciiAt(text, 36);
    forall i | 0 < i < 36 ensures MARKER[i] != NEWLINE {
      AsciiAt(text, i);
      assert text[i] != '\n';
    }
  }

  /** The text of the marker is no record: a record is a JSON object, secrets in it replaced by another text. */
  predicate IsRecord(event: Bytes) {
    NEWLINE !in event && [NEWLINE] + event + [NEWLINE] != MARKER
  }

  /** Where the newlines are at the end of a text that ends in a record. */
  lemma RecordNewlines(before: Bytes, event: Bytes, all: Bytes)
    requires AtLineStart(before) && NEWLINE !in event && all == before + (event + [NEWLINE])
    ensures |all| == |before| + |event| + 1
    ensures before != [] ==> all[|before| - 1] == NEWLINE
    ensures forall i :: |before| <= i < |all| - 1 ==> all[i] != NEWLINE
  {
    forall i | |before| <= i < |all| - 1 ensures all[i] != NEWLINE {
      assert all[i] == event[i - |before|] && event[i - |before|] in event;
    }
  }

  lemma EndsInMarkerAt(all: Bytes, i: nat)
    requires i < |MARKER| <= |all|
    ensures EndsWith(all, MARKER) ==> all[|all| - |MARKER| + i] == MARKER[i]
  {
    hide Ascii;
    assert all[|all| - |MARKER|..][i] == all[|all| - |MARKER| + i];
  }

  lemma RecordIsNoMarker(before: Bytes, event: Bytes)
    requires AtLineStart(before) && IsRecord(event)
    ensures !EndsWith(before + (event + [NEWLINE]), MARKER)
  {
    hide Ascii;
    MarkerShape();
    var all := before + (event + [NEWLINE]);
    RecordNewlines(before, event, all);
    if |all| >= 37 {
      if |event| >= 36 {
        EndsInMarkerAt(all, 0);
      } else if |event| < 35 {
        EndsInMarkerAt(all, 35 - |event|);
      } else {
        assert before != [] && all[|all| - 37..] == [all[|before| - 1]] + event + [NEWLINE];
      }
    }
  }

  /** The last lines of equal texts are equal. */
  lemma LastLine(before: Bytes, event: Bytes, before': Bytes, event': Bytes)
    requires AtLineStart(before) && AtLineStart(before') && NEWLINE !in event && NEWLINE !in event'
    requires before + (event + [NEWLINE]) == before' + (event' + [NEWLINE])
    ensures event == event'
  {
    var all := before + (event + [NEWLINE]);
    RecordNewlines(before, event, all);
    RecordNewlines(before', event', all);
    assert |event| == |event'|;
    assert all[|before|..|before| + |event|] == event && all[|before'|..|before'| + |event'|] == event';
  }

  /** The child's part of a log that was composed: everything but its marker. */
  lemma ChildPartOfComposed(before: Bytes, event: Bytes, marked: bool, out: Bytes)
    requires AtLineStart(before) && IsRecord(event) && |out| <= MAX_LOG
    requires out == before + (event + [NEWLINE]) + (if marked then MARKER else [])
    ensures ChildPart(out) == (before + (event + [NEWLINE]), marked)
    ensures EndsWith(out, MARKER) <==> marked
  {
    hide Ascii, AtLineStart, IsRecord;
    RecordIsNoMarker(before, event);
    var b := before + (event + [NEWLINE]);
    if marked {
      assert out[|out| - |MARKER|..] == MARKER && out[..|out| - |MARKER|] == b;
      assert Unmarked(out) == Unmarked(b) == b;
    } else {
      assert out == b;
    }
  }

  /** Recording another failure on a full log gives the same log exactly when the record is the same. */
  lemma FullLogAgain(before: Bytes, event: Bytes, out: Bytes, other: Bytes, out': Bytes, l': Layout)
    requires AtLineStart(before) && NEWLINE !in event && NEWLINE !in other
    requires out == before + (event + [NEWLINE]) + MARKER
    requires Composed(before + (event + [NEWLINE]), other + [NEWLINE], true, out', l')
    ensures out' == out <==> |out| == MAX_LOG && other == event
  {
    hide Ascii;
    var b, rec := before + (event + [NEWLINE]), other + [NEWLINE];
    var before' := b[..l'.kept] + l'.separator;
    assert out' == before' + rec + MARKER;
    if out' == out {
      assert (before' + rec)[..] == out'[..|out'| - |MARKER|] == out[..|out| - |MARKER|] == b;
      LastLine(before, event, before', other);
    }
    if |out| == MAX_LOG && other == event {
      assert |before'| == |before|;
      assert before' == before;
    }
  }

  /**
   * After a failure was recorded, recording another one changes nothing exactly when the log then has an event line, or
   * is full-sized and the other record is the same. A record that is still an event line itself is enough.
   */
  lemma AppendingIsOnce(isEvent: Bytes -> bool, data: Bytes, event: Bytes, out: Bytes, l: Layout, other: Bytes, out': Bytes, l': Layout)
    requires IsRecord(event) && NEWLINE !in other
    requires Appended(isEvent, data, event, out, l)
    requires Appended(isEvent, out, other, out', l')
    ensures out' == out <==> HasEvent(isEvent, out) || (|out| == MAX_LOG && EndsWith(out, MARKER) && other == event)
    ensures isEvent(event) ==> HasEvent(isEvent, out)
    ensures !HasEvent(isEvent, data) ==> |out| <= MAX_LOG && Bounded(out) == out
  {
    hide HasEvent, ChildPart, Ascii, Lines, IsRecord;
    if !HasEvent(isEvent, data) {
      var child := ChildPart(data).0;
      var before := child[..l.kept] + l.separator;
      var tail := if l.marked then MARKER else [];
      assert out == before + (event + [NEWLINE]) + tail;
      RecordHasNoNewline(event);
      if isEvent(event) {
        RecordIsFound(isEvent, before, event, tail);
      }
      ChildPartOfComposed(before, event, l.marked, out);
      if !HasEvent(isEvent, out) {
        AgainWithoutEvent(before, event, l.marked, out, other, out', l');
      }
    }
  }

  lemma RecordHasNoNewline(event: Bytes)
    requires IsRecord(event)
    ensures NEWLINE !in event
  {
  }

  lemma AgainWithoutEvent(before: Bytes, event: Bytes, marked: bool, out: Bytes, other: Bytes, out': Bytes, l': Layout)
    requires AtLineStart(before) && IsRecord(event) && NEWLINE !in other && |out| <= MAX_LOG
    requires out == before + (event + [NEWLINE]) + (if marked then MARKER else [])
    requires Composed(ChildPart(out).0, other + [NEWLINE], ChildPart(out).1, out', l')
    ensures out' == out <==> |out| == MAX_LOG && marked && other == event
  {
    hide Ascii, ChildPart;
    ChildPartOfComposed(before, event, marked, out);
    if marked {
      FullLogAgain(before, event, out, other, out', l');
    } else {
      RecordIsNoMarker(before, event);
      var b := before + (event + [NEWLINE]);
      assert out == b;
      if l'.marked {
        assert out'[|out'| - |MARKER|..] == MARKER;
      } else {
        assert |out'| > |b|;
      }
    }
  }

  // ---- A record that its own redaction has spoiled ----

  const EVENT_LINE := Ascii("{\"event\":\"worker_failure\"}")

  /** The same record when "worker_failure" happens to be a secret. */
  const SPOILED := Ascii("{\"event\":\"[REDACTED]\"}")

  /** Such a record is not found again, and a second recording adds a second one. */
  lemma SpoiledRecordIsRepeated(isEvent: Bytes -> bool)
    requires forall line :: isEvent(line) <==> line == EVENT_LINE
    ensures var once := SPOILED + [NEWLINE];
            && Appended(isEvent, [], SPOILED, once, Layout(0, [], false))
            && Appended(isEvent, once, SPOILED, once + once, Layout(|once|, [], false))
            && once + once != once && IsRecord(SPOILED)
  {
    hide Ascii, Lines, ChildPart;
    var once := SPOILED + [NEWLINE];
    SpoiledShape();
    SpoiledLines();
    MarkerShape();
    assert |[NEWLINE] + SPOILED + [NEWLINE]| < 37;
    SmallChild([]);
    SmallChild(once);
    assert once[..|once|] + [] == once;
  }

  lemma SpoiledLines()
    ensures Lines([]) == [[]] && Lines(SPOILED + [NEWLINE]) == [SPOILED, []]
  {
    SpoiledShape();
    hide Ascii;
    var none: Bytes := [];
    assert Lines(none) == [[]];
    LinesSplit(SPOILED, none);
    OneLine(SPOILED);
    assert SPOILED + [NEWLINE] + none == SPOILED + [NEWLINE];
  }

  lemma SmallChild(data: Bytes)
    requires |data| < 37
    ensures ChildPart(data) == (data, false)
  {
    hide Ascii;
    MarkerShape();
  }

  lemma SpoiledShape()
    ensures |SPOILED| == 22 && |EVENT_LINE| == 26 && NEWLINE !in SPOILED
  {
    var text := "{\"event\":\"[REDACTED]\"}";
    hide Ascii;
    assert |text| == 22;
    forall i | 0 <= i < 22 ensures SPOILED[i] != NEWLINE {
      AsciiAt(text, i);
      assert text[i] != '\n';
    }
  }

  // ---- The diagnostic sink ----

  const MAX_PENDING: nat := 8192
  const MAX_BUFFERED: nat := 8192 + 4096

  type Redactor = Bytes -> Bytes

  /** Everything emitted so far, each stretch redacted on its own. */
  function Redacted(redact: Redactor, emitted: seq<Bytes>): Bytes {
    if emitted == [] then [] else Redacted(redact, emitted[..|emitted| - 1]) + redact(emitted[|emitted| - 1])
  }

  lemma OneMore(redact: Redactor, emitted: seq<Bytes>, data: Bytes)
    ensures Redacted(redact, emitted + [data]) == Redacted(redact, emitted) + redact(data)
  {
    assert (emitted + [data])[..|emitted|] == emitted;
  }

  class DiagnosticSink {
    const redact: Redactor
    const secrets: seq<Bytes>
    var pending: Bytes
    var output: Bytes
    var truncated: bool
    var closed: bool
    /** What the destinations have been given. */
    var written: Bytes
    /** The stretches that were emitted, in order. */
    ghost var emitted: seq<Bytes>

    ghost predicate Valid()
      reads this
    {
      var full := Redacted(redact, emitted);
      && |pending| <= MAX_BUFFERED
      && (truncated <==> |full| > MAX_LOG)
      && output == Bounded(full)
    }

    constructor (redact: Redactor, secrets: seq<Bytes>)
      ensures Valid() && !closed && pending == [] && emitted == [] && written == []
      ensures this.redact == redact && this.secrets == secrets
    {
      this.redact, this.secrets := redact, secrets;
      pending, output, truncated, closed, written, emitted := [], [], false, false, [], [];
    }

    /** Emits the first `n` pending bytes. */
    method Emit(n: nat)
      requires Valid() && n <= |pending|
      modifies this`pending, this`output, this`truncated, this`emitted
      ensures Valid()
      ensures emitted == if n > 0 then old(emitted) + [old(pending)[..n]] else old(emitted)
      ensures pending == old(pending)[n..]
    {
      hide Ascii, Redacted, Bounded;
      var data := pending[..n];
      ghost var full := Redacted(redact, emitted);
      if |data| > 0 {
        var text := redact(data);
        OneMore(redact, emitted, data);
        emitted := emitted + [data];
        if !truncated {
          Grown(full, text);
          var remaining := MAX_LOG - |output|;
          if |text| > remaining {
            output := output + text[..remaining];
            truncated := true;
            output := output[..MAX_LOG - |MARKER|] + MARKER;
          } else {
            output := output + text;
          }
        } else {
          GrownPastLimit(full, text);
        }
      }
      pending := pending[n..];
    }

    lemma Grown(full: Bytes, text: Bytes)
      requires |full| <= MAX_LOG
      ensures Bounded(full) == full && (|full + text| <= MAX_LOG ==> Bounded(full + text) == full + text)
      ensures |full + text| > MAX_LOG ==>
                Bounded(full + text) == (full + text[..MAX_LOG - |full|])[..MAX_LOG - |MARKER|] + MARKER
    {
      hide Ascii;
      if |full + text| > MAX_LOG {
        assert (full + text)[..MAX_LOG - |MARKER|] == (full + text[..MAX_LOG - |full|])[..MAX_LOG - |MARKER|];
      }
    }

    lemma GrownPastLimit(full: Bytes, text: Bytes)
      requires |full| > MAX_LOG
      ensures Bounded(full + text) == Bounded(full)
    {
      hide Ascii;
      assert (full + text)[..MAX_LOG - |MARKER|] == full[..MAX_LOG - |MARKER|];
    }

    /** What is pending from `start` on is a secret, or the beginning of one, that goes on past `n`. */
    predicate Crosses(secret: Bytes, start: nat, n: nat)
      reads this`pending
    {
      && start < n <= |pending| && start + |secret| > n
      && var m := if |secret| < |pending| - start then |secret| else |pending| - start;
         m > 0 && pending[start..start + m] == secret[..m]
    }

    /** The first place before `n` from which this secret goes on past it, or `n` itself. */
    method CutFor(secret: Bytes, n: nat) returns (r: nat)
      requires n <= |pending|
      ensures r <= n && (r < n ==> Crosses(secret, r, n))
      ensures forall start: nat :: start < r ==> !Crosses(secret, start, n)
    {
      if secret == [] {
        return n;
      }
      r := if n + 1 < |secret| then 0 else n + 1 - |secret|;
      while r < n
        invariant r <= n
        invariant forall start: nat :: start < r ==> !Crosses(secret, start, n)
      {
        var m := if |secret| < |pending| - r then |secret| else |pending| - r;
        if m > 0 && pending[r..r + m] == secret[..m] && r + |secret| > n {
          return;
        }
        r := r + 1;
      }
    }

    /** safeDiagnosticEmit: all of the `n` bytes unless a secret may go on past them; then up to where one may begin. */
    method SafeEmit(n: nat) returns (r: nat)
      requires n <= |pending|
      ensures r <= n
      ensures r == n <==> forall s, start: nat :: s in secrets ==> !Crosses(s, start, n)
      ensures r < n ==> exists s, end: nat :: s in secrets && Crosses(s, r, end)
    {
      hide Crosses;
      r := n;
      ghost var first: Bytes, last: Bytes := [], [];
      ghost var at: nat, end: nat := 0, 0;
      for k := 0 to |secrets|
        invariant r <= n
        invariant r == n ==> forall i, start: nat :: 0 <= i < k ==> !Crosses(secrets[i], start, n)
        invariant r < n ==> first in secrets && Crosses(first, at, n)
        invariant r < n ==> last in secrets && Crosses(last, r, end)
      {
        var cut := CutFor(secrets[k], r);
        NoneAfter(secrets[k], n);
        if cut < r {
          if r == n {
            first, at := secrets[k], cut;
          }
          last, end := secrets[k], r;
        }
        r := cut;
      }
      assert forall s :: s in secrets ==> exists i :: 0 <= i < |secrets| && secrets[i] == s;
    }

    lemma NoneAfter(secret: Bytes, n: nat)
      ensures forall start: nat :: n <= start ==> !Crosses(secret, start, n)
    {
    }

    /** Takes data in portions; what it takes is pending or emitted, in order. */
    method Write(data: Bytes) returns (ok: bool, ghost taken: nat)
      requires Valid()
      modifies this`pending, this`output, this`truncated, this`emitted
      ensures Valid()
      ensures old(closed) ==> !ok && pending == old(pending) && emitted == old(emitted)
      ensures !old(closed) && old(truncated) ==> ok && pending == old(pending) && emitted == old(emitted)
      ensures ok && !old(truncated) ==> Concat(emitted) + pending == Concat(old(emitted)) + old(pending) + data
      ensures !ok && !old(closed) ==>
                && !old(truncated) && |pending| == MAX_BUFFERED && taken < |data|
                && Concat(emitted) + pending == Concat(old(emitted)) + old(pending) + data[..taken]
    {
      hide Ascii, Redacted, Bounded;
      taken := 0;
      if closed {
        return false, 0;
      }
      if truncated {
        return true, 0;
      }
      var todo := data;
      ghost var goal := Concat(emitted) + pending + data;
      while |todo| > 0
        invariant Valid() && Concat(emitted) + pending + todo == goal
        invariant taken == |data| - |todo| && todo == data[taken..]
        invariant Concat(emitted) + pending == Concat(old(emitted)) + old(pending) + data[..taken]
        decreases |todo|
      {
        var n := MAX_PENDING;
        var room := MAX_BUFFERED - |pending|;
        n := if room < n then room else n;
        n := if n > |todo| then |todo| else n;
        if n <= 0 {
          return false, taken;
        }
        Assoc(Concat(emitted) + pending, todo[..n], todo[n..]);
        Assoc(Concat(emitted), pending, todo[..n]);
        assert todo == todo[..n] + todo[n..];
        TakesMore(Concat(old(emitted)) + old(pending), data, taken, n);
        pending := pending + todo[..n];
        todo := todo[n..];
        taken := taken + n;
        if |pending| > MAX_PENDING {
          var emit := SafeEmit(|pending| - MAX_PENDING);
          if emit > 0 {
            ghost var before, held := emitted, pending;
            Emit(emit);
            ConcatSnoc(before, held[..emit]);
            Assoc(Concat(before), held[..emit], held[emit..]);
            assert held == held[..emit] + held[emit..];
          }
        }
      }
      assert Concat(emitted) + pending + [] == Concat(emitted) + pending;
      ok := true;
    }

    lemma TakesMore(before: Bytes, data: Bytes, taken: nat, n: nat)
      requires taken + n <= |data|
      ensures before + data[..taken] + data[taken..][..n] == before + data[..taken + n]
      ensures data[taken..][n..] == data[taken + n..]
    {
    }

    /** Closing emits what is pending and hands everything over at once. */
    method Close()
      requires Valid()
      modifies this
      ensures Valid() && closed
      ensures old(closed) ==> written == old(written) && emitted == old(emitted)
      ensures !old(closed) ==>
                && Concat(emitted) == Concat(old(emitted)) + old(pending)
                && written == old(written) + Bounded(Redacted(redact, emitted))
    {
      hide Ascii, Redacted, Bounded;
      if closed {
        return;
      }
      closed := true;
      ghost var before, held := emitted, pending;
      Emit(|pending|);
      assert held[..|held|] == held;
      ConcatSnoc(before, held);
      assert Concat(before) + [] == Concat(before);
      written := written + output;
      pending := [];
    }
  }

  lemma {:induction false} ConcatSnoc(parts: seq<Bytes>, last: Bytes)
    ensures Concat(parts + [last]) == Concat(parts) + last
  {
    if parts == [] {
      assert [] + [last] == [last] && [last][1..] == [] && last + [] == last;
    } else {
      assert (parts + [last])[1..] == parts[1..] + [last];
      ConcatSnoc(parts[1..], last);
      Assoc(parts[0], Concat(parts[1..]), last);
    }
  }

  /** What a closed sink has handed over: all of the redacted text, or a full-sized log that ends in the marker. */
  lemma SinkOutputIsWholeOrMarked(redact: Redactor, emitted: seq<Bytes>)
    ensures var full, out := Redacted(redact, emitted), Bounded(Redacted(redact, emitted));
            && |out| <= MAX_LOG
            && (|full| <= MAX_LOG ==> out == full)
            && (|full| > MAX_LOG ==>
                  |out| == MAX_LOG && EndsWith(out, MARKER) && out[..MAX_LOG - |MARKER|] == full[..MAX_LOG - |MARKER|])
  {
    hide Ascii, Redacted;
    var full := Redacted(redact, emitted);
    BoundedTwice(full);
  }
}

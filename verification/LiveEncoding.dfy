/** The escaped, line-bounded live encoding (cmd/olw_worker/live_stream.go). */
module LiveEncoding {
  import opened ByteStrings
  import opened Utf8

  const FRAME_BYTES: nat := 16384
  const NL: Byte := 0x0A
  /** The escape rune U+241E. */
  const ESC: Bytes := [0xE2, 0x90, 0x9E]
  /** The escape rune, "c" and a newline: the line goes on. */
  const CONTINUED: Bytes := [0xE2, 0x90, 0x9E, 0x63, 0x0A]

  function HexDigit(n: Byte): Byte
    requires n < 16
  {
    if n < 10 then 0x30 + n else 0x37 + n
  }

  /** The escape rune, "x" and two upper-case hexadecimal digits. */
  function HexToken(b: Byte): Bytes {
    ESC + [0x78, HexDigit(b / 16), HexDigit(b % 16)]
  }

  /** How many bytes the next token takes from `p`: one when they decode to nothing. */
  function Consumed(p: Bytes): (n: nat)
    requires p != []
    ensures 1 <= n <= |p|
  {
    var n := DecodedSize(p); if n == 0 then 1 else n
  }

  function Token(p: Bytes): Bytes
    requires p != []
  {
    var n := DecodedSize(p);
    if n == 0 then HexToken(p[0]) else if p[..n] == ESC then ESC + ESC else p[..n]
  }

  /** How much of `p` its first token takes, and that token; a rune cut off at the end goes byte by byte. */
  function Used(p: Bytes): (n: nat)
    requires p != []
    ensures 1 <= n <= |p|
  {
    if FullRune(p) then Consumed(p) else 1
  }

  function FirstToken(p: Bytes): Bytes
    requires p != []
  {
    if FullRune(p) then Token(p) else HexToken(p[0])
  }

  /** The tokens that `p` yields. */
  function Tokens(p: Bytes, final: bool): seq<Bytes>
    decreases |p|
  {
    if p == [] || (!FullRune(p) && !final) then [] else [FirstToken(p)] + Tokens(p[Used(p)..], final)
  }

  /** The incomplete rune at the end of `p` that waits for more input. */
  function Waits(p: Bytes, final: bool): Bytes
    decreases |p|
  {
    if p == [] || (!FullRune(p) && !final) then p else Waits(p[Used(p)..], final)
  }

  function Encoded(p: Bytes, final: bool): (seq<Bytes>, Bytes) {
    (Tokens(p, final), Waits(p, final))
  }

  /** What one token adds to a line that already holds `column` bytes. */
  function Placed(column: nat, token: Bytes): Bytes {
    if token != [NL] && column > 0 && |token| + |CONTINUED| + column > FRAME_BYTES
    then CONTINUED + token
    else token
  }

  function ColumnAfter(column: nat, token: Bytes): nat {
    if token == [NL] then 0
    else if column > 0 && |token| + |CONTINUED| + column > FRAME_BYTES then |token|
    else column + |token|
  }

  /** Tokens laid out on lines, starting at a column. */
  function Lines(column: nat, tokens: seq<Bytes>): Bytes
    decreases |tokens|
  {
    if tokens == [] then [] else Placed(column, tokens[0]) + Lines(ColumnAfter(column, tokens[0]), tokens[1..])
  }

  function EndColumn(column: nat, tokens: seq<Bytes>): nat
    decreases |tokens|
  {
    if tokens == [] then column else EndColumn(ColumnAfter(column, tokens[0]), tokens[1..])
  }

  function Framed(column: nat, tokens: seq<Bytes>): (Bytes, nat) {
    (Lines(column, tokens), EndColumn(column, tokens))
  }

  /** The encoder state between emissions, together with all output so far. */
  datatype EncoderState = EncoderState(waiting: Bytes, column: nat, output: Bytes)

  /** The state after `data` has been emitted. */
  function Fed(s: EncoderState, data: Bytes): EncoderState {
    var e := Encoded(s.waiting + data, false);
    var f := Framed(s.column, e.0);
    EncoderState(e.1, f.1, s.output + f.0)
  }

  /** The state after the stream has been closed. */
  function Flushed(s: EncoderState): EncoderState {
    var e := Encoded(s.waiting, true);
    var f := Framed(s.column, e.0);
    EncoderState(e.1, f.1, s.output + f.0)
  }

  ghost predicate Fresh(s: EncoderState) {
    s == EncoderState([], 0, [])
  }

  /** A token as the encoder makes them: a newline alone, or a few bytes without one. */
  predicate IsToken(token: Bytes) {
    1 <= |token| <= 6 && (token == [NL] || NL !in token)
  }

  lemma TokenIsToken(p: Bytes)
    requires p != []
    ensures IsToken(HexToken(p[0])) && IsToken(Token(p))
  {
  }

  /** Notes one more token as laid out; `later` are the tokens still to come. */
  ghost function Took(column: nat, done: seq<Bytes>, token: Bytes, later: seq<Bytes>, before: Bytes): (r: seq<Bytes>)
    ensures r == done + [token]
    ensures r + later == done + ([token] + later)
    ensures before + Framed(column, r).0 == (before + Framed(column, done).0) + Placed(Framed(column, done).1, token)
    ensures Framed(column, r).1 == ColumnAfter(Framed(column, done).1, token)
  {
    FramedSnoc(column, done, token);
    Assoc(before, Framed(column, done).0, Placed(Framed(column, done).1, token));
    done + [token]
  }

  /** One stream's live destination and its encoder state. */
  class LiveStream {
    var utf8Pending: Bytes
    var framePending: Bytes
    var frameBytes: nat
    /** Everything the destination has been given. */
    var sink: Bytes

    constructor ()
      ensures utf8Pending == framePending == sink == [] && frameBytes == 0
    {
      utf8Pending, framePending, frameBytes, sink := [], [], 0, [];
    }

    function State(): EncoderState
      reads this
    {
      EncoderState(utf8Pending, frameBytes, sink)
    }

    method Emit(data: Bytes)
      requires framePending == []
      modifies this
      ensures framePending == [] && State() == Fed(old(State()), data)
    {
      EncodeLiveData(data, false);
      if |framePending| > 0 {
        WritePhysicalLine(framePending);
        framePending := [];
      } else {
        assert sink == sink + framePending;
      }
    }

    method Flush()
      requires framePending == []
      modifies this
      ensures framePending == [] && State() == Flushed(old(State()))
    {
      assert utf8Pending + [] == utf8Pending;
      EncodeLiveData([], true);
      if |framePending| > 0 {
        WritePhysicalLine(framePending);
        framePending := [];
      } else {
        assert sink == sink + framePending;
      }
    }

    method EncodeLiveData(data: Bytes, final: bool)
      requires framePending == []
      modifies this
      ensures utf8Pending == Encoded(old(utf8Pending) + data, final).1
      ensures sink + framePending == old(sink) + Framed(old(frameBytes), Encoded(old(utf8Pending) + data, final).0).0
      ensures frameBytes == Framed(old(frameBytes), Encoded(old(utf8Pending) + data, final).0).1
    {
      utf8Pending := utf8Pending + data;
      var input := utf8Pending;
      ghost var all := Encoded(input, final);
      ghost var done: seq<Bytes> := [];
      assert done + all.0 == all.0;
      while |input| > 0
        invariant all.0 == done + Encoded(input, final).0
        invariant all.1 == Encoded(input, final).1
        invariant sink + framePending == old(sink) + Framed(old(frameBytes), done).0
        invariant frameBytes == Framed(old(frameBytes), done).1
        decreases |input|
      {
        TokenIsToken(input);
        if !FullRune(input) {
          if !final {
            break;
          }
          AppendToken(HexToken(input[0]));
          done := Took(old(frameBytes), done, HexToken(input[0]), Encoded(input[1..], final).0, old(sink));
          input := input[1..];
          continue;
        }
        var size := DecodedSize(input);
        if size == 0 {
          AppendToken(HexToken(input[0]));
          size := 1;
        } else if input[..size] == ESC {
          AppendToken(ESC + ESC);
        } else {
          AppendToken(input[..size]);
        }
        done := Took(old(frameBytes), done, Token(input), Encoded(input[size..], final).0, old(sink));
        input := input[size..];
      }
      assert Encoded(input, final) == ([], input) && all.0 == done + [] == done;
      utf8Pending := if |input| == 0 then [] else input;
    }

    method AppendToken(token: Bytes)
      requires IsToken(token)
      modifies this
      ensures utf8Pending == old(utf8Pending)
      ensures sink + framePending == old(sink + framePending) + Placed(old(frameBytes), token)
      ensures frameBytes == ColumnAfter(old(frameBytes), token)
    {
      var rest := token;
      while |rest| > 0
        invariant utf8Pending == old(utf8Pending)
        invariant rest == token || rest == []
        invariant rest == token ==> sink == old(sink) && framePending == old(framePending) && frameBytes == old(frameBytes)
        invariant rest == [] ==> sink + framePending == old(sink + framePending) + Placed(old(frameBytes), token)
        invariant rest == [] ==> frameBytes == ColumnAfter(old(frameBytes), token)
      {
        if rest[0] == NL {
          framePending := framePending + [NL];
          frameBytes := frameBytes + 1;
          WritePhysicalLine(framePending);
          frameBytes := 0;
          framePending := [];
          rest := rest[1..];
          continue;
        }
        if frameBytes > 0 && |rest| > FRAME_BYTES - |CONTINUED| - frameBytes {
          framePending := framePending + CONTINUED;
          WritePhysicalLine(framePending);
          frameBytes := 0;
          framePending := [];
        }
        framePending := framePending + rest;
        frameBytes := frameBytes + |rest|;
        rest := [];
      }
    }

    method WritePhysicalLine(data: Bytes)
      modifies this`sink
      ensures sink == old(sink) + data
    {
      sink := sink + data;
    }
  }

  lemma {:induction false} FramedConcat(column: nat, a: seq<Bytes>, b: seq<Bytes>)
    ensures Framed(column, a + b).0 == Framed(column, a).0 + Framed(Framed(column, a).1, b).0
    ensures Framed(column, a + b).1 == Framed(Framed(column, a).1, b).1
    decreases |a|
  {
    if a == [] {
      assert a + b == b;
    } else {
      FramedConcat(ColumnAfter(column, a[0]), a[1..], b);
      assert (a + b)[1..] == a[1..] + b;
      var rest := Framed(ColumnAfter(column, a[0]), a[1..]);
      Assoc(Placed(column, a[0]), rest.0, Framed(rest.1, b).0);
    }
  }

  lemma FramedSnoc(column: nat, tokens: seq<Bytes>, token: Bytes)
    ensures Framed(column, tokens + [token]).0 == Framed(column, tokens).0 + Placed(Framed(column, tokens).1, token)
    ensures Framed(column, tokens + [token]).1 == ColumnAfter(Framed(column, tokens).1, token)
  {
    FramedConcat(column, tokens, [token]);
    var c := EndColumn(column, tokens);
    assert [token][1..] == [];
    assert Lines(c, [token]) == Placed(c, token) + Lines(ColumnAfter(c, token), []) == Placed(c, token);
    assert EndColumn(c, [token]) == EndColumn(ColumnAfter(c, token), []) == ColumnAfter(c, token);
  }
}

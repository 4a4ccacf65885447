/** The live encoding loses nothing, does not depend on how writes are cut, and bounds every line. */
module LiveTheorems {
  import opened ByteStrings
  import opened Utf8
  import opened LiveEncoding

  // ---- A reader for the encoding ----

  datatype Decoded = Decoded(bytes: Bytes) | Malformed {
    function After(first: Bytes): Decoded {
      if Malformed? then Malformed else Decoded(first + bytes)
    }
  }

  predicate IsHex(c: Byte) {
    0x30 <= c <= 0x39 || 0x41 <= c <= 0x46
  }

  function HexValue(c: Byte): (n: Byte)
    requires IsHex(c)
    ensures n < 16
  {
    if c <= 0x39 then c - 0x30 else c - 0x37
  }

  /** Undoes the three escapes; everything else stands for itself. */
  function Decode(o: Bytes): Decoded
    decreases |o|
  {
    if o == [] then Decoded([])
    else if !(ESC <= o) then Decode(o[1..]).After([o[0]])
    else if CONTINUED <= o then Decode(o[5..])
    else if ESC + ESC <= o then Decode(o[6..]).After(ESC)
    else if |o| >= 6 && o[3] == 0x78 && IsHex(o[4]) && IsHex(o[5]) then
      Decode(o[6..]).After([16 * HexValue(o[4]) + HexValue(o[5])])
    else Malformed
  }

  lemma DecodeContinued(o: Bytes)
    ensures Decode(CONTINUED + o) == Decode(o)
  {
    var c := CONTINUED + o;
    assert c[..3] == ESC && c[5..] == o && CONTINUED <= c;
  }

  lemma DecodeHex(b: Byte, o: Bytes)
    ensures Decode(HexToken(b) + o) == Decode(o).After([b])
  {
    var c := HexToken(b) + o;
    assert c[..3] == ESC && c[6..] == o;
    assert c[3] == 0x78 && c[4] == HexDigit(b / 16) && c[5] == HexDigit(b % 16);
    assert HexValue(HexDigit(b / 16)) == b / 16 && HexValue(HexDigit(b % 16)) == b % 16;
    assert !(CONTINUED <= c) && !(ESC + ESC <= c) by {
      assert CONTINUED[3] != c[3] && (ESC + ESC)[3] != c[3];
    }
  }

  lemma DecodeEscape(o: Bytes)
    ensures Decode((ESC + ESC) + o) == Decode(o).After(ESC)
  {
    var c := (ESC + ESC) + o;
    assert c[..3] == ESC && c[..6] == ESC + ESC && c[6..] == o;
    assert !(CONTINUED <= c) by {
      assert CONTINUED[3] != c[3];
    }
  }

  lemma DecodeOne(b: Byte, o: Bytes)
    requires !(ESC <= [b] + o)
    ensures Decode([b] + o) == Decode(o).After([b])
  {
    assert ([b] + o)[1..] == o;
  }

  lemma AfterTwice(d: Decoded, a: Bytes, b: Bytes)
    ensures d.After(b).After(a) == d.After(a + b)
    ensures d.After([]) == d
  {
    if d.Decoded? {
      Assoc(a, b, d.bytes);
      assert [] + d.bytes == d.bytes;
    }
  }

  /** Bytes that cannot begin the escape rune are copied. */
  lemma {:induction false} DecodeTail(t: Bytes, o: Bytes)
    requires 0xE2 !in t
    ensures Decode(t + o) == Decode(o).After(t)
    decreases |t|
  {
    if t == [] {
      assert t + o == o;
      AfterTwice(Decode(o), [], []);
    } else {
      var head, tail := [t[0]], t[1..];
      assert t == head + tail;
      DecodeTail(tail, o);
      Assoc(head, tail, o);
      assert !(ESC <= head + (tail + o)) by {
        assert (head + (tail + o))[0] == t[0] != ESC[0];
      }
      DecodeOne(t[0], tail + o);
      AfterTwice(Decode(o), head, tail);
    }
  }

  lemma RuneShape(p: Bytes)
    requires p != [] && DecodedSize(p) > 0
    ensures 0xE2 !in p[1..DecodedSize(p)]
    ensures p[0] == 0xE2 ==> DecodedSize(p) == 3
  {
  }

  lemma NotEscaped(p: Bytes, c: Bytes)
    requires p != [] && DecodedSize(p) > 0 && p[..DecodedSize(p)] != ESC
    requires DecodedSize(p) <= |c| && c[..DecodedSize(p)] == p[..DecodedSize(p)]
    ensures !(ESC <= c)
  {
    RuneShape(p);
    if DecodedSize(p) == 3 {
      assert c[..3] != ESC;
    } else {
      assert c[0] == c[..DecodedSize(p)][0] == p[0] != ESC[0];
    }
  }

  /** A complete rune other than the escape rune is copied: the escape rune appears neither in it nor across it. */
  lemma DecodeRune(p: Bytes, o: Bytes)
    requires p != [] && DecodedSize(p) > 0 && p[..DecodedSize(p)] != ESC
    ensures Decode(p[..DecodedSize(p)] + o) == Decode(o).After(p[..DecodedSize(p)])
  {
    var n := DecodedSize(p);
    var head, tail := [p[0]], p[1..n];
    assert p[..n] == head + tail;
    RuneShape(p);
    DecodeTail(tail, o);
    Assoc(head, tail, o);
    NotEscaped(p, head + (tail + o));
    DecodeOne(p[0], tail + o);
    AfterTwice(Decode(o), head, tail);
  }

  lemma DecodeToken(p: Bytes, o: Bytes)
    requires p != []
    ensures Decode(Token(p) + o) == Decode(o).After(p[..Consumed(p)])
  {
    var n := DecodedSize(p);
    if n == 0 {
      DecodeHex(p[0], o);
      assert p[..1] == [p[0]];
    } else if p[..n] == ESC {
      DecodeEscape(o);
    } else {
      DecodeRune(p, o);
    }
  }

  lemma DecodePlaced(column: nat, token: Bytes, o: Bytes)
    ensures Decode(Placed(column, token) + o) == Decode(token + o)
  {
    if Placed(column, token) != token {
      Assoc(CONTINUED, token, o);
      DecodeContinued(token + o);
    }
  }

  /** One token in front: the reader first gets back what the token stands for. */
  lemma ReadToken(column: nat, p: Bytes, o: Bytes)
    requires p != []
    ensures Decode(Placed(column, FirstToken(p)) + o) == Decode(o).After(p[..Used(p)])
  {
    DecodePlaced(column, FirstToken(p), o);
    if FullRune(p) {
      DecodeToken(p, o);
    } else {
      DecodeHex(p[0], o);
      assert p[..1] == [p[0]];
    }
  }

  lemma DecodeNothing()
    ensures Decode([]) == Decoded([])
  {
  }

  /** The reader gets back exactly the bytes that were encoded, whatever they are. */
  lemma {:induction false} RoundTrip(column: nat, p: Bytes)
    ensures Decode(Lines(column, Tokens(p, true))) == Decoded(p)
    decreases |p|
  {
    hide FirstToken, Used, Placed, ColumnAfter, Decode, FullRune;
    if p == [] {
      DecodeNothing();
    } else {
      var token, tail := FirstToken(p), p[Used(p)..];
      var next := ColumnAfter(column, token);
      RoundTrip(next, tail);
      LinesCons(column, token, Tokens(tail, true));
      ReadToken(column, p, Lines(next, Tokens(tail, true)));
      assert p[..Used(p)] + tail == p;
    }
  }

  lemma LinesCons(column: nat, token: Bytes, tokens: seq<Bytes>)
    ensures Lines(column, [token] + tokens) == Placed(column, token) + Lines(ColumnAfter(column, token), tokens)
  {
    assert ([token] + tokens)[1..] == tokens;
  }

  // ---- Cutting the stream differently changes nothing ----

  lemma {:induction false} EncodedConcat(p: Bytes, q: Bytes, final: bool)
    ensures Encoded(p + q, final).0 == Encoded(p, false).0 + Encoded(Encoded(p, false).1 + q, final).0
    ensures Encoded(p + q, final).1 == Encoded(Encoded(p, false).1 + q, final).1
    decreases |p|
  {
    if p == [] || !FullRune(p) {
      assert [] + Encoded(p + q, final).0 == Encoded(p + q, final).0;
    } else {
      FullRuneIsStable(p, q);
      var n := Consumed(p);
      EncodedConcat(p[n..], q, final);
      CutConcat(p, q, n);
      var rest := Encoded(p[n..], false);
      assert Token(p + q) == Token(p);
      Assoc([Token(p)], rest.0, Encoded(rest.1 + q, final).0);
    }
  }

  /** Two emissions are one: only their concatenation matters. */
  lemma FedTwice(s: EncoderState, a: Bytes, b: Bytes)
    ensures Fed(Fed(s, a), b) == Fed(s, a + b)
  {
    Assoc(s.waiting, a, b);
    EncodedConcat(s.waiting + a, b, false);
    var e := Encoded(s.waiting + a, false);
    var t := Encoded(e.1 + b, false).0;
    FramedConcat(s.column, e.0, t);
    Assoc(s.output, Framed(s.column, e.0).0, Framed(Framed(s.column, e.0).1, t).0);
  }

  lemma FedThenFlushed(s: EncoderState, a: Bytes)
    requires s.waiting == []
    ensures Flushed(Fed(s, a)).output == s.output + Framed(s.column, Encoded(a, true).0).0
  {
    assert a + [] == a && [] + a == a;
    EncodedConcat(a, [], true);
    var e := Encoded(a, false);
    assert e.1 + [] == e.1;
    var t := Encoded(e.1, true).0;
    FramedConcat(s.column, e.0, t);
    Assoc(s.output, Framed(s.column, e.0).0, Framed(Framed(s.column, e.0).1, t).0);
  }

  /** A state that emissions can reach: what waits is not yet a full rune. */
  ghost predicate Waiting(s: EncoderState) {
    Encoded(s.waiting, false) == ([], s.waiting)
  }

  lemma FedNothing(s: EncoderState)
    requires Waiting(s)
    ensures Fed(s, []) == s
  {
    assert s.waiting + [] == s.waiting && s.output + [] == s.output;
  }

  lemma {:induction false} FedWaits(p: Bytes)
    ensures Encoded(Encoded(p, false).1, false) == ([], Encoded(p, false).1)
    decreases |p|
  {
    if p != [] && FullRune(p) {
      FedWaits(p[Consumed(p)..]);
    }
  }

  lemma {:induction false} FlushLeavesNothing(p: Bytes)
    ensures Encoded(p, true).1 == []
    decreases |p|
  {
    if p != [] {
      FlushLeavesNothing(p[if FullRune(p) then Consumed(p) else 1..]);
    }
  }

  // ---- Lines are bounded ----

  /** The number of bytes since the last newline. */
  function Column(o: Bytes): nat {
    if o == [] || o[|o| - 1] == NL then 0 else 1 + Column(o[..|o| - 1])
  }

  /** Every line, its newline included, takes at most FRAME_BYTES bytes. */
  ghost predicate LinesBounded(o: Bytes) {
    forall i, j :: 0 <= i <= j <= |o| && NL !in o[i..j] ==> j - i < FRAME_BYTES
  }

  ghost predicate ColumnsBounded(o: Bytes) {
    forall k :: 0 <= k <= |o| ==> Column(o[..k]) < FRAME_BYTES
  }

  lemma {:induction false} ColumnSince(o: Bytes, i: nat, j: nat)
    requires i <= j <= |o| && NL !in o[i..j]
    ensures Column(o[..j]) >= j - i
    decreases j
  {
    if i < j {
      assert o[j - 1] in o[i..j];
      assert o[..j][..j - 1] == o[..j - 1];
      assert forall b :: b in o[i..j - 1] ==> b in o[i..j];
      ColumnSince(o, i, j - 1);
    }
  }

  lemma ColumnsBoundLines(o: Bytes)
    requires ColumnsBounded(o)
    ensures LinesBounded(o)
  {
    forall i, j | 0 <= i <= j <= |o| && NL !in o[i..j] ensures j - i < FRAME_BYTES {
      ColumnSince(o, i, j);
    }
  }

  /** Appending bytes without a newline moves the column along. */
  lemma {:induction false} ColumnExtend(o: Bytes, t: Bytes)
    requires ColumnsBounded(o) && NL !in t && Column(o) + |t| < FRAME_BYTES
    ensures ColumnsBounded(o + t) && Column(o + t) == Column(o) + |t|
    decreases |t|
  {
    if t == [] {
      assert o + t == o;
    } else {
      var init, last := t[..|t| - 1], t[|t| - 1];
      ColumnExtend(o, init);
      assert o + t == (o + init) + [last];
      assert last in t;
      ColumnSnoc(o + init, last);
    }
  }

  lemma ColumnSnoc(o: Bytes, b: Byte)
    requires ColumnsBounded(o) && (b != NL ==> Column(o) + 1 < FRAME_BYTES)
    ensures ColumnsBounded(o + [b])
    ensures Column(o + [b]) == if b == NL then 0 else Column(o) + 1
  {
    var all := o + [b];
    assert all[..|all| - 1] == o && all[..|all|] == all;
    forall k | 0 <= k <= |all| ensures Column(all[..k]) < FRAME_BYTES {
      if k <= |o| {
        assert all[..k] == o[..k];
      }
    }
  }

  /** The encoder's own bound on its column. */
  const ROOM: nat := FRAME_BYTES - |CONTINUED|

  lemma PlacedBounded(o: Bytes, token: Bytes)
    requires ColumnsBounded(o) && Column(o) <= ROOM && IsToken(token)
    ensures ColumnsBounded(o + Placed(Column(o), token))
    ensures Column(o + Placed(Column(o), token)) == ColumnAfter(Column(o), token) <= ROOM
  {
    var column := Column(o);
    if token == [NL] {
      ColumnSnoc(o, NL);
    } else if Placed(column, token) == token {
      ColumnExtend(o, token);
    } else {
      var tag := CONTINUED[..4];
      ColumnExtend(o, tag);
      ColumnSnoc(o + tag, NL);
      assert o + CONTINUED == (o + tag) + [NL];
      ColumnExtend(o + CONTINUED, token);
      Assoc(o, CONTINUED, token);
    }
  }

  lemma {:induction false} FramedBounded(o: Bytes, tokens: seq<Bytes>)
    requires ColumnsBounded(o) && Column(o) <= ROOM
    requires forall t :: t in tokens ==> IsToken(t)
    ensures ColumnsBounded(o + Framed(Column(o), tokens).0)
    ensures Column(o + Framed(Column(o), tokens).0) == Framed(Column(o), tokens).1 <= ROOM
    decreases |tokens|
  {
    if tokens == [] {
      assert o + [] == o;
    } else {
      PlacedBounded(o, tokens[0]);
      FramedBounded(o + Placed(Column(o), tokens[0]), tokens[1..]);
      Assoc(o, Placed(Column(o), tokens[0]), Framed(ColumnAfter(Column(o), tokens[0]), tokens[1..]).0);
    }
  }

  lemma {:induction false} EncodedAreTokens(p: Bytes, final: bool)
    ensures forall t :: t in Encoded(p, final).0 ==> IsToken(t)
    decreases |p|
  {
    if p != [] && (FullRune(p) || final) {
      TokenIsToken(p);
      EncodedAreTokens(p[if FullRune(p) then Consumed(p) else 1..], final);
    }
  }
}

/** Ordinary text reaches the live destination as it is. */
module LiveTransparency {
  import opened ByteStrings
  import opened Utf8
  import opened LiveEncoding
  import opened LiveTheorems
  import opened StreamRedactor
  import LivePipeline

  // ---- UTF-8 ----

  /** A Unicode scalar value. */
  predicate Scalar(r: nat) {
    r < 0xD800 || 0xE000 <= r < 0x110000
  }

  /** Its encoding, by section 3 of RFC 3629. */
  function EncodeRune(r: nat): (p: Bytes)
    requires Scalar(r)
  {
    if r < 0x80 then [r as Byte]
    else if r < 0x800 then [(0xC0 + r / 0x40) as Byte, (0x80 + r % 0x40) as Byte]
    else if r < 0x10000 then [(0xE0 + r / 0x1000) as Byte, (0x80 + r / 0x40 % 0x40) as Byte, (0x80 + r % 0x40) as Byte]
    else
      [(0xF0 + r / 0x40000) as Byte, (0x80 + r / 0x1000 % 0x40) as Byte, (0x80 + r / 0x40 % 0x40) as Byte,
       (0x80 + r % 0x40) as Byte]
  }

  /** The scalar value that a valid encoding stands for. */
  function RuneOf(p: Bytes): nat
    requires p != [] && DecodedSize(p) > 0
  {
    var n := DecodedSize(p);
    if n == 1 then p[0] as nat
    else if n == 2 then Digits(p[0] as nat - 0xC0, p[1] as nat - 0x80)
    else if n == 3 then Digits(Digits(p[0] as nat - 0xE0, p[1] as nat - 0x80), p[2] as nat - 0x80)
    else Digits(Digits(Digits(p[0] as nat - 0xF0, p[1] as nat - 0x80), p[2] as nat - 0x80), p[3] as nat - 0x80)
  }

  /** One more group of six bits. */
  function Digits(high: nat, low: nat): (r: nat)
    requires low < 0x40
    ensures r / 0x40 == high && r % 0x40 == low
  {
    high * 0x40 + low
  }

  lemma Shifts(r: nat)
    ensures r / 0x1000 == r / 0x40 / 0x40 && r / 0x40000 == r / 0x40 / 0x40 / 0x40
  {
  }

  lemma RuneEncodes(p: Bytes)
    requires p != [] && DecodedSize(p) > 0
    ensures Scalar(RuneOf(p)) && EncodeRune(RuneOf(p)) == p[..DecodedSize(p)]
  {
    var n := DecodedSize(p);
    if n == 2 {
      TwoBytes(p[0], p[1]);
    } else if n == 3 {
      ThreeBytes(p[0], p[1], p[2]);
    } else if n == 4 {
      FourBytes(p[0], p[1], p[2], p[3]);
    }
  }

  lemma TwoBytes(a: Byte, b: Byte)
    requires 0xC2 <= a <= 0xDF && Continuation(b)
    ensures var r := Digits(a as nat - 0xC0, b as nat - 0x80);
            0x80 <= r < 0x800 && EncodeRune(r) == [a, b]
  {
  }

  lemma ThreeBytes(a: Byte, b: Byte, d: Byte)
    requires 0xE0 <= a <= 0xEF && Second(a, b) && Continuation(b) && Continuation(d)
    ensures var r := Digits(Digits(a as nat - 0xE0, b as nat - 0x80), d as nat - 0x80);
            0x800 <= r < 0x10000 && Scalar(r) && EncodeRune(r) == [a, b, d]
  {
    Shifts(Digits(Digits(a as nat - 0xE0, b as nat - 0x80), d as nat - 0x80));
  }

  lemma FourBytes(a: Byte, b: Byte, d: Byte, e: Byte)
    requires 0xF0 <= a <= 0xF4 && Second(a, b) && Continuation(b) && Continuation(d) && Continuation(e)
    ensures var r := Digits(Digits(Digits(a as nat - 0xF0, b as nat - 0x80), d as nat - 0x80), e as nat - 0x80);
            0x10000 <= r && Scalar(r) && EncodeRune(r) == [a, b, d, e]
  {
    Shifts(Digits(Digits(Digits(a as nat - 0xF0, b as nat - 0x80), d as nat - 0x80), e as nat - 0x80));
  }

  lemma RuneDecodes(r: nat, more: Bytes)
    requires Scalar(r)
    ensures FullRune(EncodeRune(r) + more) && DecodedSize(EncodeRune(r) + more) == |EncodeRune(r)|
  {
  }

  /** A size is decoded exactly when the bytes begin with the encoding of a scalar value, and then it is that one's. */
  lemma DecodesExactly(p: Bytes)
    requires p != []
    ensures DecodedSize(p) > 0 <==> exists r :: Scalar(r) && EncodeRune(r) <= p
    ensures forall r :: Scalar(r) && EncodeRune(r) <= p ==> DecodedSize(p) == |EncodeRune(r)|
  {
    hide DecodedSize, FullRune, EncodeRune;
    forall r | Scalar(r) && EncodeRune(r) <= p ensures DecodedSize(p) == |EncodeRune(r)| > 0 {
      RuneDecodes(r, p[|EncodeRune(r)|..]);
      assert EncodeRune(r) + p[|EncodeRune(r)|..] == p;
      RuneIsThere(r);
    }
    if DecodedSize(p) > 0 {
      RuneEncodes(p);
    }
  }

  lemma RuneIsThere(r: nat)
    requires Scalar(r)
    ensures 1 <= |EncodeRune(r)| <= 4
  {
  }

  /** The least bytes that may follow `p` in an encoding of `n` bytes. */
  function Completed(p: Bytes, n: nat): (q: Bytes)
    requires p != [] && |p| <= n
    ensures p <= q && |q| == n
    decreases n - |p|
  {
    if |p| == n then p
    else if |p| == 1 then Completed(p + [if p[0] == 0xE0 then 0xA0 else if p[0] == 0xF0 then 0x90 else 0x80], n)
    else Completed(p + [0x80], n)
  }

  /** Bytes wait for more exactly when they are the beginning of an encoding, and not all of it. */
  lemma WaitsExactly(p: Bytes)
    requires p != []
    ensures !FullRune(p) <==> exists r :: Scalar(r) && p < EncodeRune(r)
  {
    hide EncodeRune, DecodedSize;
    if !FullRune(p) {
      var q := Completed(p, RuneSize(p[0]));
      CompletedDecodes(p);
      RuneEncodes(q);
      assert q[..|q|] == q && p < q;
    }
    forall r | Scalar(r) && p < EncodeRune(r) ensures !FullRune(p) {
      NotYetFull(p, r);
    }
  }

  lemma CompletedDecodes(p: Bytes)
    requires p != [] && !FullRune(p)
    ensures var q := Completed(p, RuneSize(p[0])); q != [] && DecodedSize(q) == |q|
  {
    var n, q := RuneSize(p[0]), Completed(p, RuneSize(p[0]));
    if |p| == 1 {
      var p1 := p + [if p[0] == 0xE0 then 0xA0 else if p[0] == 0xF0 then 0x90 else 0x80];
      assert q == Completed(p1, n) && (n > 2 ==> Completed(p1, n) == Completed(p1 + [0x80], n));
      assert n > 3 ==> Completed(p1 + [0x80], n) == Completed(p1 + [0x80] + [0x80], n);
    } else if |p| == 2 {
      assert q == Completed(p + [0x80], n) && (n > 3 ==> Completed(p + [0x80], n) == Completed(p + [0x80] + [0x80], n));
    }
  }

  lemma NotYetFull(p: Bytes, r: nat)
    requires p != [] && Scalar(r) && p < EncodeRune(r)
    ensures !FullRune(p)
  {
    var q := EncodeRune(r);
    assert p == q[..|p|] && p[0] == q[0];
  }

  // ---- Text ----

  /** A text of scalar values, the escape rune not among them. */
  predicate Ordinary(rs: seq<nat>) {
    forall i :: 0 <= i < |rs| ==> Scalar(rs[i]) && rs[i] != 0x241E
  }

  function TextOf(rs: seq<nat>): Bytes
    requires Ordinary(rs)
  {
    if rs == [] then [] else EncodeRune(rs[0]) + TextOf(rs[1..])
  }

  function Runes(rs: seq<nat>): seq<Bytes>
    requires Ordinary(rs)
  {
    if rs == [] then [] else [EncodeRune(rs[0])] + Runes(rs[1..])
  }

  lemma RuneIsItsToken(r: nat, more: Bytes)
    requires Scalar(r) && r != 0x241E
    ensures var p := EncodeRune(r) + more; p != [] && FirstToken(p) == EncodeRune(r) && Used(p) == |EncodeRune(r)|
  {
    hide FullRune, DecodedSize;
    RuneDecodes(r, more);
    RuneIsThere(r);
    var p := EncodeRune(r) + more;
    assert p[..|EncodeRune(r)|] == EncodeRune(r);
    OneEscape(r);
  }

  lemma OneEscape(r: nat)
    requires Scalar(r)
    ensures EncodeRune(r) == ESC ==> r == 0x241E
  {
    var p := EncodeRune(r);
    if p == ESC {
      assert p[0] == 0xE2 && p[1] == 0x90 && p[2] == 0x9E;
    }
  }

  lemma {:induction false} TokensOfText(rs: seq<nat>)
    requires Ordinary(rs)
    ensures Tokens(TextOf(rs), true) == Runes(rs)
  {
    hide FirstToken, Used, FullRune, EncodeRune;
    if rs != [] {
      var r, rest := EncodeRune(rs[0]), TextOf(rs[1..]);
      RuneIsItsToken(rs[0], rest);
      TokensOfText(rs[1..]);
      assert (r + rest)[|r|..] == rest;
    }
  }

  lemma {:induction false} ColumnGrows(o: Bytes, t: Bytes)
    requires NL !in t
    ensures Column(o + t) == Column(o) + |t|
    decreases |t|
  {
    if t == [] {
      assert o + t == o;
    } else {
      var init, last := t[..|t| - 1], t[|t| - 1];
      assert last in t && (o + t)[..|o + t| - 1] == o + init;
      ColumnGrows(o, init);
    }
  }

  /** No line of the text, from its first `k` bytes on, needs to be continued. */
  ghost predicate Narrow(o: Bytes, k: nat) {
    forall i :: k <= i <= |o| ==> Column(o[..i]) <= ROOM
  }

  lemma RuneOnLine(o: Bytes, r: nat, rest: Bytes)
    requires Scalar(r) && Narrow(o + (EncodeRune(r) + rest), |o|)
    ensures Placed(Column(o), EncodeRune(r)) == EncodeRune(r)
    ensures ColumnAfter(Column(o), EncodeRune(r)) == Column(o + EncodeRune(r))
    ensures Narrow((o + EncodeRune(r)) + rest, |o + EncodeRune(r)|)
  {
    var t := EncodeRune(r);
    var all := o + (t + rest);
    assert all == (o + t) + rest && all[..|o + t|] == o + t;
    if t == [NL] {
      assert (o + t)[|o + t| - 1] == NL;
    } else {
      NoNewlineInside(r);
      ColumnGrows(o, t);
    }
  }

  lemma NoNewlineInside(r: nat)
    requires Scalar(r) && EncodeRune(r) != [NL]
    ensures NL !in EncodeRune(r)
  {
  }

  lemma {:induction false} TextOnLines(o: Bytes, rs: seq<nat>)
    requires Ordinary(rs) && Narrow(o + TextOf(rs), |o|)
    ensures Lines(Column(o), Runes(rs)) == TextOf(rs)
    decreases |rs|
  {
    hide EncodeRune, Placed, ColumnAfter, Narrow;
    if rs != [] {
      var r, rest := EncodeRune(rs[0]), rs[1..];
      RuneOnLine(o, rs[0], TextOf(rest));
      TextOnLines(o + r, rest);
      LinesCons(Column(o), r, Runes(rest));
    }
  }

  /**
   * Redacted text that is valid UTF-8 without the escape rune, and whose lines leave room for a continuation mark, is
   * what the live destination gets, byte for byte.
   */
  lemma OrdinaryTextIsCopied(secrets: seq<Bytes>, writes: seq<Bytes>, rs: seq<nat>)
    requires Ordinary(rs) && Render(Streamed(secrets, [], writes)) == TextOf(rs)
    requires forall k :: 0 <= k <= |TextOf(rs)| ==> Column(TextOf(rs)[..k]) <= FRAME_BYTES - |CONTINUED|
    ensures LivePipeline.LiveOutput(secrets, writes) == TextOf(rs)
  {
    hide Fed, Flushed, Tokens, Lines;
    var text := TextOf(rs);
    LivePipeline.LifeIsStream(secrets, [], EncoderState([], 0, []), writes);
    FedThenFlushed(EncoderState([], 0, []), text);
    TokensOfText(rs);
    assert [] + text == text;
    TextOnLines([], rs);
    assert [] + Lines(0, Runes(rs)) == Lines(0, Runes(rs));
  }
}

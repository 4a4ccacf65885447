/** Go's utf8.FullRune and utf8.DecodeRune, as far as their sizes go. */
module Utf8 {
  import opened ByteStrings

  /** Length of the encoding that a lead byte announces; 1 for ASCII and for bytes that lead nothing. */
  function RuneSize(b: Byte): (n: nat)
    ensures 1 <= n <= 4
  {
    if 0xC2 <= b <= 0xDF then 2
    else if 0xE0 <= b <= 0xEF then 3
    else if 0xF0 <= b <= 0xF4 then 4
    else 1
  }

  predicate Continuation(b: Byte) {
    0x80 <= b <= 0xBF
  }

  /** The second byte is in the range that the lead byte accepts. */
  predicate Second(lead: Byte, b: Byte) {
    (if lead == 0xE0 then 0xA0 else if lead == 0xF0 then 0x90 else 0x80) <= b
    && b <= (if lead == 0xED then 0x9F else if lead == 0xF4 then 0x8F else 0xBF)
  }

  /** utf8.FullRune: `p` begins with a complete encoding, possibly an invalid one. */
  predicate FullRune(p: Bytes) {
    p != [] &&
    var n := RuneSize(p[0]);
    || |p| >= n
    || (|p| > 1 && !Second(p[0], p[1]))
    || (|p| > 2 && !Continuation(p[2]))
  }

  /** utf8.DecodeRune: the size of the valid encoding `p` begins with, or 0 for (RuneError, 1). */
  function DecodedSize(p: Bytes): (n: nat)
    requires p != []
    ensures n <= |p|
  {
    var n := RuneSize(p[0]);
    if n == 1 then if p[0] < 0x80 then 1 else 0
    else if |p| < n || !Second(p[0], p[1]) then 0
    else if n > 2 && !Continuation(p[2]) then 0
    else if n > 3 && !Continuation(p[3]) then 0
    else n
  }

  /** Once a rune is full, what follows it does not matter. */
  lemma FullRuneIsStable(p: Bytes, more: Bytes)
    requires FullRune(p)
    ensures FullRune(p + more) && DecodedSize(p + more) == DecodedSize(p)
  {
  }
}

/** Byte strings and the handful of searches over them that the worker takes from Go's library. */
module ByteStrings {

  newtype Byte = x: int | 0 <= x < 256

  type Bytes = seq<Byte>

  /** `s` occurs in `data` at offset `i`. */
  predicate At(data: Bytes, i: int, s: Bytes) {
    0 <= i && i + |s| <= |data| && data[i..i + |s|] == s
  }

  /** `s` occurs somewhere in `data`. */
  ghost predicate Contains(data: Bytes, s: Bytes) {
    exists i :: At(data, i, s)
  }

  function Concat(parts: seq<Bytes>): Bytes {
    if parts == [] then [] else parts[0] + Concat(parts[1..])
  }

  /** strings.Index restricted to offsets from `i` on: the leftmost occurrence, or -1. */
  function IndexFrom(data: Bytes, s: Bytes, i: nat): (r: int)
    requires i <= |data|
    ensures r < 0 ==> r == -1 && forall j :: i <= j ==> !At(data, j, s)
    ensures r >= 0 ==> i <= r && At(data, r, s) && forall j :: i <= j < r ==> !At(data, j, s)
    decreases |data| - i
  {
    if At(data, i, s) then i
    else if i == |data| then -1
    else IndexFrom(data, s, i + 1)
  }

  lemma AtShift(data: Bytes, k: nat, i: nat, s: Bytes)
    requires k <= |data|
    ensures At(data[k..], i, s) <==> At(data, k + i, s)
  {
    if i + |s| <= |data| - k {
      assert data[k..][i..i + |s|] == data[k + i..k + i + |s|];
    }
  }

  lemma AtPrefix(a: Bytes, b: Bytes, i: int, s: Bytes)
    requires i + |s| <= |a|
    ensures At(a + b, i, s) <==> At(a, i, s)
  {
    if 0 <= i {
      assert (a + b)[i..i + |s|] == a[i..i + |s|];
    }
  }

  lemma Assoc<T>(a: seq<T>, b: seq<T>, c: seq<T>)
    ensures (a + b) + c == a + (b + c)
  {
  }

  lemma DropDrop<T>(s: seq<T>, i: nat, j: nat)
    requires i + j <= |s|
    ensures s[i..][j..] == s[i + j..]
    ensures s[..i + j] == s[..i] + s[i..][..j]
  {
  }

  lemma CutConcat<T>(a: seq<T>, b: seq<T>, i: nat)
    requires i <= |a|
    ensures (a + b)[..i] == a[..i]
    ensures (a + b)[i..] == a[i..] + b
  {
  }
}

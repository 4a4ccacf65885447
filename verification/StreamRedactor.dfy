/** The streaming secret redactor of the live pipeline (cmd/olw_worker/live_stream.go). */
module StreamRedactor {
  import opened ByteStrings

  /** The ten bytes of "[REDACTED]". */
  const MARK: Bytes := [0x5B, 0x52, 0x45, 0x44, 0x41, 0x43, 0x54, 0x45, 0x44, 0x5D]

  const CHUNK_BYTES: nat := 32768

  /** One call of `emit`: either text passed through or the marker standing for a secret. */
  datatype Piece = Plain(text: Bytes) | Masked(secret: Bytes)

  function Shown(p: Piece): Bytes {
    if p.Plain? then p.text else MARK
  }

  function Meant(p: Piece): Bytes {
    if p.Plain? then p.text else p.secret
  }

  function Render(pieces: seq<Piece>): Bytes {
    if pieces == [] then [] else Shown(pieces[0]) + Render(pieces[1..])
  }

  /** The input the pieces stand for. */
  function Source(pieces: seq<Piece>): Bytes {
    if pieces == [] then [] else Meant(pieces[0]) + Source(pieces[1..])
  }

  /** The longest non-empty secret starting at offset `i`, or [] when there is none. */
  function LongestAt(secrets: seq<Bytes>, data: Bytes, i: nat): (r: Bytes)
    ensures r != [] ==> r in secrets && At(data, i, r)
  {
    if secrets == [] then []
    else
      var rest := LongestAt(secrets[1..], data, i);
      if At(data, i, secrets[0]) && |secrets[0]| > |rest| then secrets[0] else rest
  }

  /** The leftmost offset from `i` on at which a non-empty secret starts, or |data|. */
  function HitFrom(secrets: seq<Bytes>, data: Bytes, i: nat): (r: nat)
    requires i <= |data|
    ensures i <= r <= |data|
    ensures r < |data| ==> LongestAt(secrets, data, r) != []
    decreases |data| - i
  {
    if i == |data| || LongestAt(secrets, data, i) != [] then i else HitFrom(secrets, data, i + 1)
  }

  function Hit(secrets: seq<Bytes>, data: Bytes): nat {
    HitFrom(secrets, data, 0)
  }

  /** The last `m` bytes of `data` begin a secret that is longer than `m`. */
  predicate Held(secrets: seq<Bytes>, data: Bytes, m: nat) {
    m <= |data| && exists s :: s in secrets && m < |s| && data[|data| - m..] == s[..m]
  }

  function KeepFrom(secrets: seq<Bytes>, data: Bytes, m: nat): (r: nat)
    requires m <= |data|
    ensures r <= m
  {
    if m == 0 || Held(secrets, data, m) then m else KeepFrom(secrets, data, m - 1)
  }

  function Keep(secrets: seq<Bytes>, data: Bytes): nat {
    KeepFrom(secrets, data, |data|)
  }

  lemma {:induction false} LongestAtIsLongest(secrets: seq<Bytes>, data: Bytes, i: nat, s: Bytes)
    requires s in secrets && At(data, i, s)
    ensures |s| <= |LongestAt(secrets, data, i)|
  {
    if s != secrets[0] {
      LongestAtIsLongest(secrets[1..], data, i, s);
    }
  }

  lemma {:induction false} HitIsLeftmost(secrets: seq<Bytes>, data: Bytes, i: nat, j: nat)
    requires i <= |data| && i <= j < HitFrom(secrets, data, i)
    ensures LongestAt(secrets, data, j) == []
    decreases |data| - i
  {
    if i < j {
      HitIsLeftmost(secrets, data, i + 1, j);
    }
  }

  lemma {:induction false} KeepIsLongest(secrets: seq<Bytes>, data: Bytes, m: nat)
    requires m <= |data|
    ensures var r := KeepFrom(secrets, data, m); r > 0 ==> Held(secrets, data, r)
    ensures forall j :: KeepFrom(secrets, data, m) < j <= m ==> !Held(secrets, data, j)
  {
    if m > 0 && !Held(secrets, data, m) {
      KeepIsLongest(secrets, data, m - 1);
    }
  }

  /** What one pass over `data` emits. */
  function Emitted(secrets: seq<Bytes>, data: Bytes, final: bool): seq<Piece>
    decreases |data|
  {
    var i := Hit(secrets, data);
    if data == [] then []
    else if i < |data| then
      var s := LongestAt(secrets, data, i);
      [Plain(data[..i]), Masked(s)] + Emitted(secrets, data[i + |s|..], final)
    else if final then [Plain(data)]
    else [Plain(data[..|data| - Keep(secrets, data)])]
  }

  /** What one pass over `data` holds back. */
  function HeldBack(secrets: seq<Bytes>, data: Bytes, final: bool): Bytes
    decreases |data|
  {
    var i := Hit(secrets, data);
    if data == [] then []
    else if i < |data| then HeldBack(secrets, data[i + |LongestAt(secrets, data, i)|..], final)
    else if final then []
    else data[|data| - Keep(secrets, data)..]
  }

  function Processed(secrets: seq<Bytes>, data: Bytes, final: bool): (seq<Piece>, Bytes) {
    (Emitted(secrets, data, final), HeldBack(secrets, data, final))
  }

  /** The length of the next block of a write. */
  function Block(data: Bytes): nat {
    if |data| > CHUNK_BYTES then CHUNK_BYTES else |data|
  }

  /** What one `write` call emits: the data is taken in blocks, each joined to what was held back. */
  function WrittenOut(secrets: seq<Bytes>, pending: Bytes, data: Bytes, final: bool): seq<Piece>
    decreases |data|
  {
    if data == [] then if final then Emitted(secrets, pending, true) else []
    else
      var block := pending + data[..Block(data)];
      Emitted(secrets, block, false) + WrittenOut(secrets, HeldBack(secrets, block, false), data[Block(data)..], final)
  }

  function WrittenRest(secrets: seq<Bytes>, pending: Bytes, data: Bytes, final: bool): Bytes
    decreases |data|
  {
    if data == [] then if final then HeldBack(secrets, pending, true) else pending
    else WrittenRest(secrets, HeldBack(secrets, pending + data[..Block(data)], false), data[Block(data)..], final)
  }

  function Written(secrets: seq<Bytes>, pending: Bytes, data: Bytes, final: bool): (seq<Piece>, Bytes) {
    (WrittenOut(secrets, pending, data, final), WrittenRest(secrets, pending, data, final))
  }

  /** A whole stream: every write in turn, then the close. */
  function Streamed(secrets: seq<Bytes>, pending: Bytes, writes: seq<Bytes>): seq<Piece>
    decreases |writes|
  {
    if writes == [] then Written(secrets, pending, [], true).0
    else
      var step := Written(secrets, pending, writes[0], false);
      step.0 + Streamed(secrets, step.1, writes[1..])
  }

  /** Leftmost-longest replacement over the whole text at once. */
  function Mask(secrets: seq<Bytes>, data: Bytes): Bytes
    decreases |data|
  {
    var i := Hit(secrets, data);
    if i == |data| then data
    else data[..i] + (MARK + Mask(secrets, data[i + |LongestAt(secrets, data, i)|..]))
  }

  /** Appends one emission; `later` is what is still to come, for the caller's invariant. */
  function Extend(out: seq<Piece>, emitted: seq<Piece>, ghost later: seq<Piece>): (r: seq<Piece>)
    ensures r == out + emitted
    ensures r + later == out + (emitted + later)
  {
    out + emitted
  }

  /** The redactor object; `pending` is the only state kept between writes. */
  class Redactor {
    const secrets: seq<Bytes>
    var pending: Bytes

    constructor (secrets: seq<Bytes>)
      ensures this.secrets == secrets && pending == []
    {
      this.secrets := secrets;
      pending := [];
    }

    method Write(data: Bytes, final: bool) returns (out: seq<Piece>)
      modifies this`pending
      ensures out == Written(secrets, old(pending), data, final).0
      ensures pending == Written(secrets, old(pending), data, final).1
    {
      hide WrittenOut, WrittenRest, Emitted, HeldBack;
      var todo := data;
      out := [];
      ghost var text, rest := WrittenOut(secrets, pending, data, final), WrittenRest(secrets, pending, data, final);
      while |todo| > 0
        invariant text == out + WrittenOut(secrets, pending, todo, final)
        invariant rest == WrittenRest(secrets, pending, todo, final)
      {
        WrittenUnfolds(secrets, pending, todo, final);
        var n := Block(todo);
        var combined := pending + todo[..n];
        pending := [];
        var emitted := Process(combined, false);
        out := Extend(out, emitted, WrittenOut(secrets, pending, todo[n..], final));
        todo := todo[n..];
      }
      WrittenUnfolds(secrets, pending, [], final);
      assert todo == [] && out + [] == out;
      if final {
        var held := pending;
        pending := [];
        var emitted := Process(held, true);
        out := out + emitted;
      }
    }

    method Process(data: Bytes, final: bool) returns (out: seq<Piece>)
      requires pending == []
      modifies this`pending
      ensures out == Processed(secrets, data, final).0
      ensures pending == Processed(secrets, data, final).1
    {
      var todo := data;
      out := [];
      while |todo| > 0
        invariant pending == []
        invariant Processed(secrets, data, final).0 == out + Processed(secrets, todo, final).0
        invariant Processed(secrets, data, final).1 == Processed(secrets, todo, final).1
        decreases |todo|
      {
        var index, secret := FirstSecret(todo);
        if index >= 0 {
          out := Extend(out, [Plain(todo[..index]), Masked(secret)],
                        Processed(secrets, todo[index + |secret|..], final).0);
          todo := todo[index + |secret|..];
          continue;
        }
        if final {
          out := out + [Plain(todo)];
          return;
        }
        var keep := LongestSecretPrefixSuffix(todo);
        var cut := |todo| - keep;
        out := out + [Plain(todo[..cut])];
        pending := todo[cut..];
        return;
      }
      assert todo == [] && Emitted(secrets, todo, final) == [] && HeldBack(secrets, todo, final) == [];
    }

    method FirstSecret(data: Bytes) returns (index: int, found: Bytes)
      requires data != []
      ensures index < 0 <==> Hit(secrets, data) == |data|
      ensures index >= 0 ==> index == Hit(secrets, data) && found == LongestAt(secrets, data, index)
    {
      index, found := -1, [];
      for n := 0 to |secrets|
        invariant index < 0 ==> index == -1 && found == []
        invariant index < 0 ==> forall s, j :: s in secrets[..n] && s != [] ==> !At(data, j, s)
        invariant index >= 0 ==> found != [] && found in secrets[..n] && At(data, index, found)
        invariant index >= 0 ==>
          forall s, j :: s in secrets[..n] && s != [] && At(data, j, s) ==>
            index < j || (index == j && |s| <= |found|)
      {
        var secret := secrets[n];
        assert secrets[..n + 1] == secrets[..n] + [secret];
        if secret != [] {
          var candidate := IndexFrom(data, secret, 0);
          if candidate >= 0 && (index < 0 || candidate < index || (candidate == index && |secret| > |found|)) {
            index, found := candidate, secret;
          }
        }
      }
      assert secrets[..|secrets|] == secrets;
      FirstIsHit(secrets, data, index, found);
    }

    method LongestSecretPrefixSuffix(data: Bytes) returns (best: nat)
      ensures best == Keep(secrets, data)
    {
      best := 0;
      for n := 0 to |secrets|
        invariant best <= |data|
        invariant best > 0 ==> Held(secrets[..n], data, best)
        invariant forall m :: best < m ==> !Held(secrets[..n], data, m)
      {
        var secret := secrets[n];
        assert secrets[..n + 1] == secrets[..n] + [secret];
        forall m: nat { HeldSnoc(secrets[..n], secret, data, m); }
        if secret != [] {
          var limit := if |secret| - 1 > |data| then |data| else |secret| - 1;
          var m := limit;
          ghost var before := best;
          while m > best
            invariant best == before && before <= |data| && 0 <= m <= limit
            invariant forall j :: m < j <= limit && 0 <= j ==> data[|data| - j..] != secret[..j]
          {
            if data[|data| - m..] == secret[..m] {
              best := m;
              break;
            }
            m := m - 1;
          }
        }
      }
      assert secrets[..|secrets|] == secrets;
      KeepIsLongest(secrets, data, |data|);
    }
  }

  lemma WrittenUnfolds(secrets: seq<Bytes>, pending: Bytes, data: Bytes, final: bool)
    ensures data == [] ==>
              && WrittenOut(secrets, pending, data, final) == (if final then Emitted(secrets, pending, true) else [])
              && WrittenRest(secrets, pending, data, final) == if final then HeldBack(secrets, pending, true) else pending
    ensures data != [] ==>
              var block, tail := pending + data[..Block(data)], data[Block(data)..];
              var held := HeldBack(secrets, block, false);
              && WrittenOut(secrets, pending, data, final)
                 == Emitted(secrets, block, false) + WrittenOut(secrets, held, tail, final)
              && WrittenRest(secrets, pending, data, final) == WrittenRest(secrets, held, tail, final)
  {
    hide Emitted, HeldBack;
  }

  lemma HeldSnoc(secrets: seq<Bytes>, last: Bytes, data: Bytes, m: nat)
    ensures Held(secrets + [last], data, m) <==>
            Held(secrets, data, m) || (m <= |data| && m < |last| && data[|data| - m..] == last[..m])
  {
    if m <= |data| && m < |last| && data[|data| - m..] == last[..m] {
      assert last in secrets + [last];
    }
    if Held(secrets, data, m) {
      var s :| s in secrets && m < |s| && data[|data| - m..] == s[..m];
      assert s in secrets + [last];
    }
  }

  lemma FirstIsHit(secrets: seq<Bytes>, data: Bytes, index: int, found: Bytes)
    requires index < 0 ==> forall s, j :: s in secrets && s != [] ==> !At(data, j, s)
    requires index >= 0 ==> found != [] && found in secrets && At(data, index, found)
    requires index >= 0 ==>
      forall s, j :: s in secrets && s != [] && At(data, j, s) ==> index < j || (index == j && |s| <= |found|)
    ensures index < 0 <==> Hit(secrets, data) == |data|
    ensures index >= 0 ==> index == Hit(secrets, data) && found == LongestAt(secrets, data, index)
  {
    var h := Hit(secrets, data);
    if h < |data| {
      assert At(data, h, LongestAt(secrets, data, h));
    }
    if index >= 0 {
      LongestAtIsLongest(secrets, data, index, found);
      var s := LongestAt(secrets, data, index);
      assert s == data[index..index + |s|] && found == data[index..index + |found|];
      if index < h {
        HitIsLeftmost(secrets, data, 0, index);
      }
    }
  }
}

/** What the streaming redactor guarantees over a whole stream, however it was cut into writes. */
module RedactionTheorems {
  import opened ByteStrings
  import opened StreamRedactor

  ghost predicate Clear(secrets: seq<Bytes>, text: Bytes) {
    forall s, i :: s in secrets && s != [] ==> !At(text, i, s)
  }

  /** The text passed through since the last marker. */
  function Open(pieces: seq<Piece>): Bytes {
    if pieces == [] then []
    else
      var last := pieces[|pieces| - 1];
      if last.Masked? then [] else Open(pieces[..|pieces| - 1]) + last.text
  }

  /** Markers stand for secrets only, and no stretch between markers ever contains a secret. */
  ghost predicate Sound(secrets: seq<Bytes>, pieces: seq<Piece>) {
    && (forall p :: p in pieces && p.Masked? ==> p.secret in secrets && p.secret != [])
    && (forall k :: 0 <= k <= |pieces| ==> Clear(secrets, Open(pieces[..k])))
  }

  /** No secret can start inside `open` once `data` follows it. */
  ghost predicate Barrier(secrets: seq<Bytes>, open: Bytes, data: Bytes) {
    && (forall s, i :: s in secrets && s != [] && i < |open| ==> !At(open + data, i, s))
    && (forall m: nat :: |data| < m ==> !Held(secrets, open + data, m))
  }

  /** The state between writes: what is out is sound, and what is held back completes nothing yet. */
  ghost predicate Safe(secrets: seq<Bytes>, out: seq<Piece>, pending: Bytes) {
    Sound(secrets, out) && Clear(secrets, Open(out) + pending) && Barrier(secrets, Open(out), pending)
  }

  // ---- Bookkeeping over concatenation ----

  lemma {:induction false} SourceConcat(a: seq<Piece>, b: seq<Piece>)
    ensures Source(a + b) == Source(a) + Source(b)
  {
    if a == [] {
      assert a + b == b;
    } else {
      SourceConcat(a[1..], b);
      assert (a + b)[1..] == a[1..] + b;
      Assoc(Meant(a[0]), Source(a[1..]), Source(b));
    }
  }

  lemma {:induction false} RenderConcat(a: seq<Piece>, b: seq<Piece>)
    ensures Render(a + b) == Render(a) + Render(b)
  {
    if a == [] {
      assert a + b == b;
    } else {
      RenderConcat(a[1..], b);
      assert (a + b)[1..] == a[1..] + b;
      Assoc(Shown(a[0]), Render(a[1..]), Render(b));
    }
  }

  lemma OpenConcat(a: seq<Piece>, b: seq<Piece>)
    ensures b != [] && b[|b| - 1].Plain? ==> Open(a + b) == Open(a + b[..|b| - 1]) + b[|b| - 1].text
    ensures b != [] && b[|b| - 1].Masked? ==> Open(a + b) == []
  {
    if b != [] {
      assert (a + b)[..|a + b| - 1] == a + b[..|b| - 1];
    }
  }

  lemma SoundSnoc(secrets: seq<Bytes>, pieces: seq<Piece>, p: Piece)
    requires Sound(secrets, pieces)
    requires p.Masked? ==> p.secret in secrets && p.secret != []
    requires p.Plain? ==> Clear(secrets, Open(pieces) + p.text)
    ensures Sound(secrets, pieces + [p])
    ensures Open(pieces + [p]) == if p.Plain? then Open(pieces) + p.text else []
  {
    var all := pieces + [p];
    OpenConcat(pieces, [p]);
    assert pieces + [p][..0] == pieces;
    forall k | 0 <= k <= |all| ensures Clear(secrets, Open(all[..k])) {
      if k <= |pieces| {
        assert all[..k] == pieces[..k];
      } else {
        assert all[..k] == all;
      }
    }
  }

  // ---- Nothing is lost ----

  /** One step of a pass that finds a secret. */
  lemma PassAtHit(secrets: seq<Bytes>, data: Bytes, final: bool, i: nat, s: Bytes)
    requires i == Hit(secrets, data) < |data| && s == LongestAt(secrets, data, i)
    ensures Emitted(secrets, data, final) == [Plain(data[..i]), Masked(s)] + Emitted(secrets, data[i + |s|..], final)
    ensures HeldBack(secrets, data, final) == HeldBack(secrets, data[i + |s|..], final)
  {
    hide Keep, Hit, LongestAt;
  }

  /** The last step of a pass, which finds none. */
  lemma PassAtEnd(secrets: seq<Bytes>, data: Bytes)
    requires Hit(secrets, data) == |data|
    ensures var cut := |data| - Keep(secrets, data);
            && (data != [] ==> Emitted(secrets, data, false) == [Plain(data[..cut])])
            && HeldBack(secrets, data, false) == data[cut..]
    ensures data != [] ==> Emitted(secrets, data, true) == [Plain(data)]
    ensures HeldBack(secrets, data, true) == []
  {
    hide Keep, Hit, LongestAt;
    KeepWithin(secrets, data);
  }

  lemma KeepWithin(secrets: seq<Bytes>, data: Bytes)
    ensures Keep(secrets, data) <= |data|
  {
  }

  lemma PassOverNothing(secrets: seq<Bytes>, final: bool)
    ensures Emitted(secrets, [], final) == [] && HeldBack(secrets, [], final) == []
  {
  }

  lemma {:induction false} ProcessedSource(secrets: seq<Bytes>, data: Bytes, final: bool)
    ensures Source(Emitted(secrets, data, final)) + HeldBack(secrets, data, final) == data
    ensures final ==> HeldBack(secrets, data, final) == []
    decreases |data|
  {
    hide Emitted, HeldBack;
    var i := Hit(secrets, data);
    if data == [] {
      PassOverNothing(secrets, final);
    } else if i < |data| {
      var s := LongestAt(secrets, data, i);
      var tail := data[i + |s|..];
      PassAtHit(secrets, data, final, i, s);
      ProcessedSource(secrets, tail, final);
      HitSource(data[..i], s, Emitted(secrets, tail, final));
      Assoc(data[..i] + s, Source(Emitted(secrets, tail, final)), HeldBack(secrets, tail, final));
      CutAt(data, i, s);
    } else {
      PassAtEnd(secrets, data);
      PlainSource(data, if final then |data| else |data| - Keep(secrets, data));
    }
  }

  lemma PlainSource(data: Bytes, cut: nat)
    requires cut <= |data|
    ensures Source([Plain(data[..cut])]) + data[cut..] == data
    ensures Source([Plain(data)]) + [] == data
  {
    assert [Plain(data[..cut])][1..] == [] && [Plain(data)][1..] == [];
  }

  lemma CutAt(data: Bytes, i: nat, s: Bytes)
    requires At(data, i, s)
    ensures (data[..i] + s) + data[i + |s|..] == data
  {
  }

  lemma HitSource(text: Bytes, secret: Bytes, rest: seq<Piece>)
    ensures Source([Plain(text), Masked(secret)] + rest) == (text + secret) + Source(rest)
  {
    var p := [Plain(text), Masked(secret)] + rest;
    assert p[1..] == [Masked(secret)] + rest && p[1..][1..] == rest;
    Assoc(text, secret, Source(rest));
  }

  lemma {:induction false} WrittenSource(secrets: seq<Bytes>, pending: Bytes, data: Bytes, final: bool)
    ensures Source(Written(secrets, pending, data, final).0) + Written(secrets, pending, data, final).1 == pending + data
    ensures final ==> Written(secrets, pending, data, final).1 == []
    decreases |data|
  {
    if data == [] {
      if final {
        ProcessedSource(secrets, pending, true);
      }
    } else {
      var n := Block(data);
      var head, tail := data[..n], data[n..];
      var step := Processed(secrets, pending + head, false);
      ProcessedSource(secrets, pending + head, false);
      WrittenSource(secrets, step.1, tail, final);
      var rest := Written(secrets, step.1, tail, final);
      calc {
        Source(step.0 + rest.0) + rest.1;
        { SourceConcat(step.0, rest.0); Assoc(Source(step.0), Source(rest.0), rest.1); }
        Source(step.0) + (step.1 + tail);
        { Assoc(Source(step.0), step.1, tail); }
        (pending + head) + tail;
        { Assoc(pending, head, tail); assert data == head + tail; }
        pending + data;
      }
    }
  }

  lemma {:induction false} StreamedSource(secrets: seq<Bytes>, pending: Bytes, writes: seq<Bytes>)
    ensures Source(Streamed(secrets, pending, writes)) == pending + Concat(writes)
    decreases |writes|
  {
    if writes == [] {
      WrittenSource(secrets, pending, [], true);
    } else {
      WrittenSource(secrets, pending, writes[0], false);
      var step := Written(secrets, pending, writes[0], false);
      StreamedSource(secrets, step.1, writes[1..]);
      calc {
        Source(step.0 + Streamed(secrets, step.1, writes[1..]));
        { SourceConcat(step.0, Streamed(secrets, step.1, writes[1..])); }
        Source(step.0) + (step.1 + Concat(writes[1..]));
        { Assoc(Source(step.0), step.1, Concat(writes[1..])); }
        (pending + writes[0]) + Concat(writes[1..]);
        { Assoc(pending, writes[0], Concat(writes[1..])); }
        pending + Concat(writes);
      }
    }
  }

  // ---- Nothing leaks ----

  lemma BarrierAfter(secrets: seq<Bytes>, open: Bytes, pending: Bytes, chunk: Bytes)
    requires Clear(secrets, open + pending) && Barrier(secrets, open, pending)
    ensures Barrier(secrets, open, pending + chunk)
  {
    var seen := open + pending;
    var all := open + (pending + chunk);
    assert all == seen + chunk;
    forall s, i | s in secrets && s != [] && i < |open| ensures !At(all, i, s) {
      if At(all, i, s) {
        if i + |s| <= |seen| {
          AtPrefix(seen, chunk, i, s);
        } else {
          var m := |seen| - i;
          assert seen[|seen| - m..] == all[i..|seen|] == s[..m];
          assert Held(secrets, seen, m);
        }
      }
    }
    forall m: nat | |pending + chunk| < m ensures !Held(secrets, all, m) {
      if Held(secrets, all, m) {
        var s :| s in secrets && m < |s| && all[|all| - m..] == s[..m];
        var k := m - |chunk|;
        assert seen[|seen| - k..] == all[|all| - m..|seen|] == s[..m][..k] == s[..k];
        assert Held(secrets, seen, k);
      }
    }
  }

  lemma ClearPrefix(secrets: seq<Bytes>, head: Bytes, tail: Bytes)
    requires Clear(secrets, head + tail)
    ensures Clear(secrets, head)
  {
    forall s, j | s in secrets && s != [] && At(head, j, s) ensures false {
      AtPrefix(head, tail, j, s);
    }
  }

  lemma ClearBefore(secrets: seq<Bytes>, open: Bytes, data: Bytes, i: nat)
    requires Barrier(secrets, open, data) && i <= |data|
    requires i <= Hit(secrets, data)
    ensures Clear(secrets, open + data[..i])
  {
    var head := open + data[..i];
    assert open + data == head + data[i..];
    forall s, j | s in secrets && s != [] && At(head, j, s) ensures false {
      AtPrefix(head, data[i..], j, s);
      if |open| <= j {
        assert (open + data)[|open|..] == data;
        AtShift(open + data, |open|, j - |open|, s);
        LongestAtIsLongest(secrets, data, j - |open|, s);
        HitIsLeftmost(secrets, data, 0, j - |open|);
      }
    }
  }

  lemma ProcessedHit(secrets: seq<Bytes>, before: seq<Piece>, data: Bytes)
    requires Sound(secrets, before) && Barrier(secrets, Open(before), data)
    requires data != [] && Hit(secrets, data) < |data|
    ensures var i := Hit(secrets, data);
            var after := before + [Plain(data[..i]), Masked(LongestAt(secrets, data, i))];
            Sound(secrets, after) && Open(after) == []
  {
    var i := Hit(secrets, data);
    var s := LongestAt(secrets, data, i);
    ClearBefore(secrets, Open(before), data, i);
    SoundSnoc(secrets, before, Plain(data[..i]));
    SoundSnoc(secrets, before + [Plain(data[..i])], Masked(s));
    assert before + [Plain(data[..i]), Masked(s)] == (before + [Plain(data[..i])]) + [Masked(s)];
  }

  lemma HeldSuffix(secrets: seq<Bytes>, open: Bytes, data: Bytes, m: nat)
    requires m <= |data|
    ensures Held(secrets, open + data, m) <==> Held(secrets, data, m)
  {
    assert (open + data)[|open + data| - m..] == data[|data| - m..];
  }

  /** The last emission of a pass: all of `data` but a tail, beyond which no secret prefix reaches. */
  lemma ProcessedCut(secrets: seq<Bytes>, before: seq<Piece>, data: Bytes, cut: nat)
    requires Sound(secrets, before) && Barrier(secrets, Open(before), data)
    requires Hit(secrets, data) == |data| && cut <= |data|
    requires forall m :: |data| - cut < m <= |data| ==> !Held(secrets, data, m)
    ensures Safe(secrets, before + [Plain(data[..cut])], data[cut..])
  {
    var open := Open(before);
    ClearBefore(secrets, open, data, |data|);
    assert data[..|data|] == data;
    var head := open + data[..cut];
    assert open + data == head + data[cut..];
    ClearPrefix(secrets, head, data[cut..]);
    SoundSnoc(secrets, before, Plain(data[..cut]));
    forall m: nat | |data| - cut < m <= |data| ensures !Held(secrets, open + data, m) {
      HeldSuffix(secrets, open, data, m);
    }
  }

  lemma {:induction false} ProcessedSound(secrets: seq<Bytes>, before: seq<Piece>, data: Bytes)
    requires Sound(secrets, before) && Barrier(secrets, Open(before), data)
    ensures Safe(secrets, before + Emitted(secrets, data, false), HeldBack(secrets, data, false))
    decreases |data|
  {
    hide Emitted, HeldBack, Sound, Barrier, Safe, Open;
    var i := Hit(secrets, data);
    if data == [] {
      PassOverNothing(secrets, false);
      assert before + [] == before;
      NothingMore(secrets, before);
    } else if i < |data| {
      var s := LongestAt(secrets, data, i);
      var head, tail := [Plain(data[..i]), Masked(s)], data[i + |s|..];
      PassAtHit(secrets, data, false, i, s);
      ProcessedHit(secrets, before, data);
      NoBarrier(secrets, tail);
      ProcessedSound(secrets, before + head, tail);
      Assoc(before, head, Emitted(secrets, tail, false));
    } else {
      PassAtEnd(secrets, data);
      KeepIsLongest(secrets, data, |data|);
      ProcessedCut(secrets, before, data, |data| - Keep(secrets, data));
    }
  }

  lemma NothingMore(secrets: seq<Bytes>, before: seq<Piece>)
    requires Sound(secrets, before) && Barrier(secrets, Open(before), [])
    ensures Safe(secrets, before, [])
  {
    ClearBefore(secrets, Open(before), [], 0);
  }

  lemma NoBarrier(secrets: seq<Bytes>, data: Bytes)
    ensures Barrier(secrets, [], data)
  {
    assert [] + data == data;
  }

  lemma {:induction false} FlushedSound(secrets: seq<Bytes>, before: seq<Piece>, data: Bytes)
    requires Sound(secrets, before) && Barrier(secrets, Open(before), data)
    ensures Sound(secrets, before + Emitted(secrets, data, true))
    decreases |data|
  {
    hide Emitted, HeldBack;
    var i := Hit(secrets, data);
    if data == [] {
      PassOverNothing(secrets, true);
      assert before + [] == before;
    } else if i < |data| {
      var s := LongestAt(secrets, data, i);
      var head, tail := [Plain(data[..i]), Masked(s)], data[i + |s|..];
      PassAtHit(secrets, data, true, i, s);
      ProcessedHit(secrets, before, data);
      NoBarrier(secrets, tail);
      FlushedSound(secrets, before + head, tail);
      Assoc(before, head, Emitted(secrets, tail, true));
    } else {
      PassAtEnd(secrets, data);
      ClearBefore(secrets, Open(before), data, |data|);
      assert data[..|data|] == data;
      SoundSnoc(secrets, before, Plain(data));
    }
  }

  lemma {:induction false} WrittenSound(secrets: seq<Bytes>, before: seq<Piece>, pending: Bytes, data: Bytes)
    requires Safe(secrets, before, pending)
    ensures var r := Written(secrets, pending, data, false); Safe(secrets, before + r.0, r.1)
    decreases |data|
  {
    if data == [] {
      assert before + [] == before;
    } else {
      var n := Block(data);
      var step := Processed(secrets, pending + data[..n], false);
      BarrierAfter(secrets, Open(before), pending, data[..n]);
      ProcessedSound(secrets, before, pending + data[..n]);
      WrittenSound(secrets, before + step.0, step.1, data[n..]);
      Assoc(before, step.0, Written(secrets, step.1, data[n..], false).0);
    }
  }

  lemma {:induction false} StreamedSound(secrets: seq<Bytes>, before: seq<Piece>, pending: Bytes, writes: seq<Bytes>)
    requires Safe(secrets, before, pending)
    ensures Sound(secrets, before + Streamed(secrets, pending, writes))
    decreases |writes|
  {
    if writes == [] {
      FlushedSound(secrets, before, pending);
    } else {
      var step := Written(secrets, pending, writes[0], false);
      WrittenSound(secrets, before, pending, writes[0]);
      StreamedSound(secrets, before + step.0, step.1, writes[1..]);
      Assoc(before, step.0, Streamed(secrets, step.1, writes[1..]));
    }
  }

  /**
   * For any secrets and any sequence of writes: putting the masked secrets back gives the input,
   * only secrets are masked, and no stretch between markers contains one.
   */
  lemma RedactionIsSound(secrets: seq<Bytes>, writes: seq<Bytes>)
    ensures Source(Streamed(secrets, [], writes)) == Concat(writes)
    ensures Sound(secrets, Streamed(secrets, [], writes))
  {
    StreamedSource(secrets, [], writes);
    assert [] + Concat(writes) == Concat(writes);
    StreamedSound(secrets, [], [], writes);
    assert [] + Streamed(secrets, [], writes) == Streamed(secrets, [], writes);
  }

  ghost predicate Short(secrets: seq<Bytes>, pending: Bytes) {
    pending == [] || exists s :: s in secrets && |pending| < |s|
  }

  /** What is held back between writes is always shorter than some secret. */
  lemma {:induction false} PendingIsShort(secrets: seq<Bytes>, pending: Bytes, data: Bytes)
    requires Short(secrets, pending)
    ensures Short(secrets, Written(secrets, pending, data, false).1)
    decreases |data|
  {
    if data != [] {
      var n := Block(data);
      ProcessedPendingIsShort(secrets, pending + data[..n]);
      PendingIsShort(secrets, Processed(secrets, pending + data[..n], false).1, data[n..]);
    }
  }

  lemma {:induction false} ProcessedPendingIsShort(secrets: seq<Bytes>, data: Bytes)
    ensures Short(secrets, HeldBack(secrets, data, false))
    decreases |data|
  {
    hide Emitted, HeldBack;
    var i := Hit(secrets, data);
    if i < |data| {
      PassAtHit(secrets, data, false, i, LongestAt(secrets, data, i));
      ProcessedPendingIsShort(secrets, data[i + |LongestAt(secrets, data, i)|..]);
    } else {
      PassAtEnd(secrets, data);
      CutIsShort(secrets, data);
    }
  }

  lemma CutIsShort(secrets: seq<Bytes>, data: Bytes)
    ensures Short(secrets, data[|data| - Keep(secrets, data)..])
  {
    KeepIsLongest(secrets, data, |data|);
  }

  // ---- Cutting the stream differently changes nothing ----

  /** No secret lies inside another one so that it ends before the other does. */
  ghost predicate ChunkSafe(secrets: seq<Bytes>) {
    forall s, t :: s in secrets && t in secrets && s != [] && t != [] ==> !Contains(t[..|t| - 1], s)
  }

  /** `s` at `j` inside a match of `t` at `i` that reaches further is an early inner occurrence. */
  lemma InnerOccurrence(data: Bytes, i: nat, t: Bytes, j: nat, s: Bytes)
    requires At(data, i, t) && At(data, j, s) && i <= j && j + |s| < i + |t|
    ensures Contains(t[..|t| - 1], s)
  {
    var inner, d := t[..|t| - 1], j - i;
    assert forall k :: 0 <= k < |s| ==> inner[d + k] == data[j + k] == s[k];
    assert inner[d..d + |s|] == s;
    assert At(inner, d, s);
  }

  /** A match in `c + r` that is not a match in `c` runs past the end of `c`. */
  lemma MatchCrosses(secrets: seq<Bytes>, c: Bytes, r: Bytes, j: nat)
    requires LongestAt(secrets, c + r, j) != [] && j < Hit(secrets, c)
    ensures j + |LongestAt(secrets, c + r, j)| > |c|
  {
    var t := LongestAt(secrets, c + r, j);
    if j + |t| <= |c| {
      AtPrefix(c, r, j, t);
      LongestAtIsLongest(secrets, c, j, t);
      HitIsLeftmost(secrets, c, 0, j);
    }
  }

  lemma HitIsStable(secrets: seq<Bytes>, c: Bytes, r: Bytes)
    requires ChunkSafe(secrets) && Hit(secrets, c) < |c|
    ensures Hit(secrets, c + r) == Hit(secrets, c)
  {
    var i := Hit(secrets, c);
    var s := LongestAt(secrets, c, i);
    AtPrefix(c, r, i, s);
    LongestAtIsLongest(secrets, c + r, i, s);
    var h := Hit(secrets, c + r);
    if i < h {
      HitIsLeftmost(secrets, c + r, 0, i);
    } else if h < i {
      MatchCrosses(secrets, c, r, h);
      InnerOccurrence(c + r, h, LongestAt(secrets, c + r, h), i, s);
    }
  }

  lemma LongestIsStable(secrets: seq<Bytes>, c: Bytes, r: Bytes, i: nat)
    requires ChunkSafe(secrets) && LongestAt(secrets, c, i) != []
    ensures LongestAt(secrets, c + r, i) == LongestAt(secrets, c, i)
  {
    var s := LongestAt(secrets, c, i);
    AtPrefix(c, r, i, s);
    LongestAtIsLongest(secrets, c + r, i, s);
    var t := LongestAt(secrets, c + r, i);
    if |s| < |t| {
      InnerOccurrence(c + r, i, t, i, s);
    } else {
      assert t == (c + r)[i..i + |t|] == s;
    }
  }

  lemma NothingBeforeCut(secrets: seq<Bytes>, c: Bytes, r: Bytes)
    requires Hit(secrets, c) == |c|
    ensures |c| - Keep(secrets, c) <= Hit(secrets, c + r)
  {
    var h := Hit(secrets, c + r);
    if h < |c| - Keep(secrets, c) {
      MatchCrosses(secrets, c, r, h);
      var t, m := LongestAt(secrets, c + r, h), |c| - h;
      assert c[|c| - m..] == (c + r)[h..h + |t|][..m] == t[..m];
      assert Held(secrets, c, m);
      KeepIsLongest(secrets, c, |c|);
    }
  }

  lemma {:induction false} LongestAtShift(secrets: seq<Bytes>, data: Bytes, cut: nat, j: nat)
    requires cut <= |data|
    ensures LongestAt(secrets, data[cut..], j) == LongestAt(secrets, data, cut + j)
  {
    if secrets != [] {
      LongestAtShift(secrets[1..], data, cut, j);
      AtShift(data, cut, j, secrets[0]);
    }
  }

  lemma {:induction false} HitShift(secrets: seq<Bytes>, data: Bytes, tail: Bytes, cut: nat, j: nat)
    requires cut + j <= |data| && tail == data[cut..]
    ensures HitFrom(secrets, data, cut + j) == cut + HitFrom(secrets, tail, j)
    decreases |tail| - j
  {
    hide LongestAt;
    if j < |tail| {
      LongestAtShift(secrets, data, cut, j);
      if LongestAt(secrets, tail, j) == [] {
        HitShift(secrets, data, tail, cut, j + 1);
      }
    }
  }

  lemma {:induction false} HitSkip(secrets: seq<Bytes>, data: Bytes, i: nat, cut: nat)
    requires i <= |data| && i <= cut <= HitFrom(secrets, data, i)
    ensures HitFrom(secrets, data, i) == HitFrom(secrets, data, cut)
    decreases |data| - i
  {
    if i < cut {
      HitSkip(secrets, data, i + 1, cut);
    }
  }

  lemma MaskHit(secrets: seq<Bytes>, data: Bytes, i: nat, s: Bytes)
    requires i == Hit(secrets, data) < |data| && s == LongestAt(secrets, data, i)
    ensures Mask(secrets, data) == data[..i] + (MARK + Mask(secrets, data[i + |s|..]))
  {
  }

  lemma MaskNoHit(secrets: seq<Bytes>, data: Bytes)
    requires Hit(secrets, data) == |data|
    ensures Mask(secrets, data) == data
  {
  }

  lemma MaskSkip(secrets: seq<Bytes>, data: Bytes, cut: nat)
    requires cut <= Hit(secrets, data)
    ensures Mask(secrets, data) == data[..cut] + Mask(secrets, data[cut..])
  {
    hide Mask;
    var tail := data[cut..];
    HitSkip(secrets, data, 0, cut);
    HitShift(secrets, data, tail, cut, 0);
    var k := Hit(secrets, tail);
    if k < |tail| {
      LongestAtShift(secrets, data, cut, k);
      MaskSkipHit(secrets, data, tail, cut, k, LongestAt(secrets, tail, k));
    } else {
      MaskNoHit(secrets, data);
      MaskNoHit(secrets, tail);
    }
  }

  lemma MaskSkipHit(secrets: seq<Bytes>, data: Bytes, tail: Bytes, cut: nat, k: nat, s: Bytes)
    requires cut <= |data| && tail == data[cut..]
    requires k == Hit(secrets, tail) < |tail| && cut + k == Hit(secrets, data)
    requires s == LongestAt(secrets, tail, k) == LongestAt(secrets, data, cut + k)
    ensures Mask(secrets, data) == data[..cut] + Mask(secrets, tail)
  {
    hide Mask;
    MaskHit(secrets, data, cut + k, s);
    MaskHit(secrets, tail, k, s);
    DropDrop(data, cut, k + |s|);
    DropDrop(data, cut, k);
    Assoc(data[..cut], tail[..k], MARK + Mask(secrets, tail[k + |s|..]));
  }

  /** Emitting `out` and holding back `held` is a correct start on masking `c` with `r` to follow. */
  ghost predicate Starts(secrets: seq<Bytes>, c: Bytes, r: Bytes, out: seq<Piece>, held: Bytes) {
    Mask(secrets, c + r) == Render(out) + Mask(secrets, held + r)
  }

  lemma StartsAtHit(secrets: seq<Bytes>, c: Bytes, r: Bytes, i: nat, s: Bytes, out: seq<Piece>, held: Bytes)
    requires ChunkSafe(secrets) && i == Hit(secrets, c) < |c| && s == LongestAt(secrets, c, i)
    requires Starts(secrets, c[i + |s|..], r, out, held)
    ensures Starts(secrets, c, r, [Plain(c[..i]), Masked(s)] + out, held)
  {
    hide HitFrom, LongestAt, Mask, Render;
    HitIsStable(secrets, c, r);
    LongestIsStable(secrets, c, r, i);
    CutConcat(c, r, i);
    CutConcat(c, r, i + |s|);
    MaskHit(secrets, c + r, i, s);
    RenderHit(c[..i], s, out, Mask(secrets, held + r));
  }

  lemma StartsAtCut(secrets: seq<Bytes>, c: Bytes, r: Bytes)
    requires Hit(secrets, c) == |c|
    ensures var cut := |c| - Keep(secrets, c);
            Starts(secrets, c, r, [Plain(c[..cut])], c[cut..])
  {
    NothingBeforeCut(secrets, c, r);
    var cut := |c| - Keep(secrets, c);
    MaskSkip(secrets, c + r, cut);
    RenderPlain(c[..cut]);
    CutConcat(c, r, cut);
  }

  lemma StartsEmpty(secrets: seq<Bytes>, r: Bytes)
    ensures Starts(secrets, [], r, [], [])
  {
    assert Render([]) + Mask(secrets, [] + r) == Mask(secrets, [] + r);
  }

  lemma {:induction false} ProcessThenMask(secrets: seq<Bytes>, c: Bytes, r: Bytes)
    requires ChunkSafe(secrets)
    ensures Starts(secrets, c, r, Emitted(secrets, c, false), HeldBack(secrets, c, false))
    decreases |c|
  {
    hide Emitted, HeldBack, Starts;
    var i := Hit(secrets, c);
    if c == [] {
      PassOverNothing(secrets, false);
      StartsEmpty(secrets, r);
    } else if i < |c| {
      var s := LongestAt(secrets, c, i);
      var tail := c[i + |s|..];
      PassAtHit(secrets, c, false, i, s);
      ProcessThenMask(secrets, tail, r);
      StartsAtHit(secrets, c, r, i, s, Emitted(secrets, tail, false), HeldBack(secrets, tail, false));
    } else {
      PassAtEnd(secrets, c);
      StartsAtCut(secrets, c, r);
    }
  }

  lemma RenderPlain(text: Bytes)
    ensures Render([Plain(text)]) == text
  {
    assert [Plain(text)][1..] == [] && text + [] == text;
  }

  lemma RenderHit(text: Bytes, s: Bytes, rest: seq<Piece>, later: Bytes)
    ensures Render([Plain(text), Masked(s)] + rest) + later == text + (MARK + (Render(rest) + later))
  {
    var p := [Plain(text), Masked(s)] + rest;
    assert p[1..] == [Masked(s)] + rest && p[1..][1..] == rest;
    Assoc(text, MARK + Render(rest), later);
    Assoc(MARK, Render(rest), later);
  }

  /** The final pass masks what it is given. */
  lemma {:induction false} FlushIsMask(secrets: seq<Bytes>, data: Bytes)
    ensures Render(Emitted(secrets, data, true)) == Mask(secrets, data)
    decreases |data|
  {
    hide Emitted, Mask;
    var i := Hit(secrets, data);
    if data == [] {
      PassOverNothing(secrets, true);
      MaskNoHit(secrets, data);
    } else if i < |data| {
      var s := LongestAt(secrets, data, i);
      var rest := Emitted(secrets, data[i + |s|..], true);
      PassAtHit(secrets, data, true, i, s);
      MaskHit(secrets, data, i, s);
      FlushIsMask(secrets, data[i + |s|..]);
      RenderHit(data[..i], s, rest, []);
      NothingAfter(Render(rest), Render([Plain(data[..i]), Masked(s)] + rest));
    } else {
      PassAtEnd(secrets, data);
      MaskNoHit(secrets, data);
      RenderPlain(data);
    }
  }

  lemma NothingAfter(a: Bytes, b: Bytes)
    ensures a + [] == a && b + [] == b
  {
  }

  lemma {:induction false} WriteThenMask(secrets: seq<Bytes>, pending: Bytes, data: Bytes, r: Bytes)
    requires ChunkSafe(secrets)
    ensures Mask(secrets, pending + (data + r))
         == Render(WrittenOut(secrets, pending, data, false)) + Mask(secrets, WrittenRest(secrets, pending, data, false) + r)
    decreases |data|
  {
    hide Emitted, HeldBack, Mask;
    if data == [] {
      assert data + r == r;
      assert Render([]) + Mask(secrets, pending + r) == Mask(secrets, pending + r);
    } else {
      var n := Block(data);
      var head, tail := data[..n], data[n..];
      var out, held := Emitted(secrets, pending + head, false), HeldBack(secrets, pending + head, false);
      var later := WrittenOut(secrets, held, tail, false);
      SplitWrite(pending, head, tail, r);
      assert data == head + tail;
      ProcessThenMask(secrets, pending + head, tail + r);
      WriteThenMask(secrets, held, tail, r);
      Assoc(Render(out), Render(later), Mask(secrets, WrittenRest(secrets, held, tail, false) + r));
      RenderConcat(out, later);
    }
  }

  lemma SplitWrite(pending: Bytes, head: Bytes, tail: Bytes, r: Bytes)
    ensures pending + ((head + tail) + r) == (pending + head) + (tail + r)
  {
    Assoc(head, tail, r);
    Assoc(pending, head, tail + r);
  }

  lemma {:induction false} StreamIsMask(secrets: seq<Bytes>, pending: Bytes, writes: seq<Bytes>)
    requires ChunkSafe(secrets)
    ensures Render(Streamed(secrets, pending, writes)) == Mask(secrets, pending + Concat(writes))
    decreases |writes|
  {
    if writes == [] {
      assert pending + [] == pending;
      FlushIsMask(secrets, pending);
    } else {
      var step := Written(secrets, pending, writes[0], false);
      WriteThenMask(secrets, pending, writes[0], Concat(writes[1..]));
      StreamIsMask(secrets, step.1, writes[1..]);
      RenderConcat(step.0, Streamed(secrets, step.1, writes[1..]));
    }
  }

  // ---- ... and the condition is exact ----

  ghost predicate AllPlain(pieces: seq<Piece>) {
    forall p :: p in pieces ==> p.Plain?
  }

  ghost predicate MaskedAll(pieces: seq<Piece>, i: nat)
    requires i < |pieces|
  {
    pieces[i].Masked? && pieces[i].secret == Source(pieces)
  }

  /** A stream that renders to one marker is plain text throughout, or one masked secret and nothing else. */
  ghost predicate OneMarker(pieces: seq<Piece>) {
    || AllPlain(pieces)
    || (|Render(pieces)| >= |MARK| && exists i :: 0 <= i < |pieces| && MaskedAll(pieces, i))
  }

  lemma {:induction false} RenderNothing(pieces: seq<Piece>)
    requires Render(pieces) == []
    ensures Source(pieces) == []
  {
    if pieces != [] {
      RenderNothing(pieces[1..]);
    }
  }

  lemma {:induction false} RenderOneMarker(pieces: seq<Piece>)
    requires |Render(pieces)| <= |MARK|
    ensures OneMarker(pieces)
  {
    if pieces != [] {
      var head, tail := pieces[0], pieces[1..];
      assert |Render(pieces)| == |Shown(head)| + |Render(tail)|;
      if head.Masked? {
        RenderNothing(tail);
        assert Source(pieces) == head.secret + [] == head.secret;
        assert MaskedAll(pieces, 0);
      } else {
        RenderOneMarker(tail);
        PlainBefore(head, tail);
        assert pieces == [head] + tail;
      }
    }
  }

  lemma PlainBefore(head: Piece, tail: seq<Piece>)
    requires head.Plain? && |Shown(head)| + |Render(tail)| <= |MARK| && OneMarker(tail)
    ensures OneMarker([head] + tail)
  {
    var all := [head] + tail;
    assert all[1..] == tail;
    if !AllPlain(tail) {
      var i :| 0 <= i < |tail| && MaskedAll(tail, i);
      assert head.text == [];
      assert Source(all) == [] + Source(tail) == Source(tail);
      assert MaskedAll(all, i + 1);
    }
  }

  /** The writes come out as leftmost-longest replacement over all of them together. */
  ghost predicate CutFree(secrets: seq<Bytes>, writes: seq<Bytes>) {
    Render(Streamed(secrets, [], writes)) == Mask(secrets, Concat(writes))
  }

  /** Writing all of a secret but its last byte, and then that byte, exposes an inner secret. */
  lemma InnerSecretExposed(secrets: seq<Bytes>, s: Bytes, t: Bytes)
    requires s in secrets && t in secrets && s != [] && t != [] && Contains(t[..|t| - 1], s)
    ensures !CutFree(secrets, [t[..|t| - 1], t[|t| - 1..]])
  {
    var head, last := t[..|t| - 1], t[|t| - 1..];
    var writes := [head, last];
    assert writes[1..] == [last];
    assert Concat([last]) == last + Concat([last][1..]) == last;
    assert Concat(writes) == head + last == t;
    MaskWhole(secrets, t);
    var step := Written(secrets, [], head, false);
    var out := step.0 + Streamed(secrets, step.1, [last]);
    assert Streamed(secrets, [], writes) == out;
    RedactionIsSound(secrets, writes);
    NotOneMarker(secrets, s, t, head, last, out);
  }

  lemma NotOneMarker(secrets: seq<Bytes>, s: Bytes, t: Bytes, head: Bytes, last: Bytes, out: seq<Piece>)
    requires s in secrets && t in secrets && s != [] && t != [] && Contains(head, s) && last != []
    requires var step := Written(secrets, [], head, false); out == step.0 + Streamed(secrets, step.1, [last])
    requires Source(out) == t && Sound(secrets, out)
    ensures Render(out) != MARK
  {
    if Render(out) == MARK {
      RenderOneMarker(out);
      if AllPlain(out) {
        PlainIsOpen(out);
        assert out[..|out|] == out && At(t, 0, t);
      } else {
        var i :| 0 <= i < |out| && MaskedAll(out, i);
        NotMaskedWhole(secrets, head, last, s, i);
      }
    }
  }

  lemma MaskWhole(secrets: seq<Bytes>, t: Bytes)
    requires t in secrets && t != []
    ensures Mask(secrets, t) == MARK
  {
    assert At(t, 0, t);
    LongestAtIsLongest(secrets, t, 0, t);
    assert LongestAt(secrets, t, 0) == t;
    assert t[|t|..] == [] && Mask(secrets, []) == [];
    assert t[..0] + (MARK + []) == MARK;
  }

  lemma {:induction false} PlainIsOpen(pieces: seq<Piece>)
    requires AllPlain(pieces)
    ensures Open(pieces) == Source(pieces)
  {
    if pieces != [] {
      var init, last := pieces[..|pieces| - 1], pieces[|pieces| - 1];
      PlainIsOpen(init);
      SourceConcat(init, [last]);
      assert pieces == init + [last] && [last][1..] == [] && last.text + [] == last.text;
    }
  }

  lemma {:induction false} PieceWithin(pieces: seq<Piece>, i: nat)
    requires i < |pieces| && pieces[i].Masked?
    ensures |pieces[i].secret| <= |Source(pieces)|
  {
    if i > 0 {
      PieceWithin(pieces[1..], i - 1);
    }
  }

  /** After the first write, a secret inside it has already been masked. */
  lemma FirstWriteMasks(secrets: seq<Bytes>, head: Bytes, s: Bytes)
    requires s in secrets && s != [] && Contains(head, s)
    ensures Written(secrets, [], head, false).1 != head
  {
    var step := Written(secrets, [], head, false);
    assert [] + step.0 == step.0;
    WrittenSound(secrets, [], [], head);
    NotClear(secrets, Open(step.0), head, s);
  }

  lemma NotClear(secrets: seq<Bytes>, open: Bytes, head: Bytes, s: Bytes)
    requires s in secrets && s != [] && Contains(head, s)
    ensures !Clear(secrets, open + head)
  {
    var j :| At(head, j, s);
    assert (open + head)[|open|..] == head;
    AtShift(open + head, |open|, j, s);
  }

  lemma NotMaskedWhole(secrets: seq<Bytes>, head: Bytes, last: Bytes, s: Bytes, i: nat)
    requires s in secrets && s != [] && Contains(head, s) && last != []
    requires var step := Written(secrets, [], head, false);
             i < |step.0 + Streamed(secrets, step.1, [last])|
    ensures var step := Written(secrets, [], head, false);
            !MaskedAll(step.0 + Streamed(secrets, step.1, [last]), i)
  {
    var step := Written(secrets, [], head, false);
    WrittenSource(secrets, [], head, false);
    assert [] + head == head;
    FirstWriteMasks(secrets, head, s);
    StreamedSource(secrets, step.1, [last]);
    assert Concat([last]) == last + Concat([last][1..]);
    NotAll(step.0, Streamed(secrets, step.1, [last]), i, head, step.1, last);
  }

  /** One piece of `a + b` cannot be the whole text when `a` is too short for it and not all in `held`. */
  lemma NotAll(a: seq<Piece>, b: seq<Piece>, i: nat, head: Bytes, held: Bytes, last: Bytes)
    requires i < |a + b| && last != []
    requires Source(a) + held == head && |Source(b)| == |held| + |last|
    requires held != head || Source(a) != []
    ensures !MaskedAll(a + b, i)
  {
    hide Source;
    SourceConcat(a, b);
    assert |Source(a + b)| == |head| + |last|;
    if held == [] {
      assert Source(a) + [] == Source(a);
    }
    if (a + b)[i].Masked? {
      if i < |a| {
        PieceWithin(a, i);
      } else {
        PieceWithin(b, i - |a|);
      }
    }
  }

  lemma SafeIsCutFree(secrets: seq<Bytes>, writes: seq<Bytes>)
    requires ChunkSafe(secrets)
    ensures CutFree(secrets, writes)
  {
    StreamIsMask(secrets, [], writes);
    assert [] + Concat(writes) == Concat(writes);
  }

  /**
   * The output is the same however the stream is cut, namely leftmost-longest replacement over the
   * whole of it, exactly when no secret ends early inside another.
   */
  lemma ChunkingIsInvisible(secrets: seq<Bytes>)
    ensures ChunkSafe(secrets) <==> forall writes :: CutFree(secrets, writes)
  {
    if ChunkSafe(secrets) {
      forall writes ensures CutFree(secrets, writes) {
        SafeIsCutFree(secrets, writes);
      }
    } else {
      var s, t :| s in secrets && t in secrets && s != [] && t != [] && Contains(t[..|t| - 1], s);
      InnerSecretExposed(secrets, s, t);
    }
  }
}

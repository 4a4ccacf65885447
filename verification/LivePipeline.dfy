/** One stream of the live pipeline, from child output to live destination (cmd/olw_worker/live_stream.go). */
module LivePipeline {
  import opened ByteStrings
  import opened StreamRedactor
  import opened LiveEncoding
  import opened LiveTheorems
  import opened RedactionTheorems

  /** The entries that a live pipeline keeps for one of its streams. */
  class Pipeline {
    const redactor: Redactor
    const live: LiveStream
    var closed: bool

    ghost predicate Valid()
      reads this, redactor, live
    {
      live.framePending == [] && Waiting(live.State())
    }

    constructor (secrets: seq<Bytes>)
      ensures Valid() && fresh(redactor) && fresh(live) && !closed
      ensures redactor.secrets == secrets && redactor.pending == [] && Fresh(live.State())
      ensures live.sink == []
    {
      redactor := new Redactor(secrets);
      live := new LiveStream();
      closed := false;
    }

    method Write(data: Bytes) returns (ok: bool)
      requires Valid()
      modifies redactor, live
      ensures Valid() && ok == !closed
      ensures ok ==> redactor.pending == Written(redactor.secrets, old(redactor.pending), data, false).1
      ensures ok ==> live.State() ==
                     Fed(old(live.State()), Render(Written(redactor.secrets, old(redactor.pending), data, false).0))
      ensures !ok ==> redactor.pending == old(redactor.pending) && live.State() == old(live.State())
    {
      if closed {
        return false;
      }
      var pieces := redactor.Write(data, false);
      EmitAll(pieces);
      return true;
    }

    /** The callbacks of one redactor call; empty emissions are skipped. */
    method EmitAll(pieces: seq<Piece>)
      requires live.framePending == [] && Waiting(live.State())
      modifies live
      ensures live.framePending == [] && Waiting(live.State())
      ensures live.State() == Fed(old(live.State()), Render(pieces))
    {
      FedNothing(live.State());
      for n := 0 to |pieces|
        invariant live.framePending == [] && Waiting(live.State())
        invariant live.State() == Fed(old(live.State()), Render(pieces[..n]))
      {
        var output := if pieces[n].Plain? then pieces[n].text else MARK;
        RenderSnoc(pieces, n, output);
        FedWaits(live.utf8Pending + output);
        FedTwice(old(live.State()), Render(pieces[..n]), output);
        if |output| > 0 {
          live.Emit(output);
        } else {
          FedNothing(live.State());
        }
      }
      assert pieces[..|pieces|] == pieces;
    }

    lemma RenderSnoc(pieces: seq<Piece>, n: nat, output: Bytes)
      requires n < |pieces| && output == if pieces[n].Plain? then pieces[n].text else MARK
      ensures Render(pieces[..n + 1]) == Render(pieces[..n]) + output
    {
      assert pieces[..n + 1] == pieces[..n] + [pieces[n]];
      RenderConcat(pieces[..n], [pieces[n]]);
      assert [pieces[n]][1..] == [] && output + [] == output;
    }

    method Close()
      requires Valid()
      modifies this, redactor, live
      ensures Valid() && closed
      ensures old(closed) ==> live.State() == old(live.State())
      ensures !old(closed) ==>
                live.State() == Flushed(Fed(old(live.State()),
                                            Render(Written(redactor.secrets, old(redactor.pending), [], true).0)))
    {
      if closed {
        return;
      }
      var pieces := redactor.Write([], true);
      EmitAll(pieces);
      FlushLeavesNothing(live.utf8Pending);
      live.Flush();
      closed := true;
    }
  }

  /** A whole life of a pipeline as a function: every write, then the close. */
  function Life(secrets: seq<Bytes>, pending: Bytes, state: EncoderState, writes: seq<Bytes>): EncoderState
    decreases |writes|
  {
    if writes == [] then Flushed(Fed(state, Render(Written(secrets, pending, [], true).0)))
    else
      var step := Written(secrets, pending, writes[0], false);
      Life(secrets, step.1, Fed(state, Render(step.0)), writes[1..])
  }

  /** What the live destination has received when a pipeline that was given `writes` is closed. */
  function LiveOutput(secrets: seq<Bytes>, writes: seq<Bytes>): Bytes {
    Life(secrets, [], EncoderState([], 0, []), writes).output
  }

  lemma {:induction false} LifeIsStream(secrets: seq<Bytes>, pending: Bytes, state: EncoderState, writes: seq<Bytes>)
    ensures Life(secrets, pending, state, writes) == Flushed(Fed(state, Render(Streamed(secrets, pending, writes))))
    decreases |writes|
  {
    if writes != [] {
      var step := Written(secrets, pending, writes[0], false);
      var rest := Streamed(secrets, step.1, writes[1..]);
      LifeIsStream(secrets, step.1, Fed(state, Render(step.0)), writes[1..]);
      FedTwice(state, Render(step.0), Render(rest));
      RenderConcat(step.0, rest);
    }
  }

  /**
   * For any secrets and writes, a reader of the live output gets exactly the redacted text, and no
   * physical line is longer than FRAME_BYTES.
   */
  lemma LiveOutputReadsBack(secrets: seq<Bytes>, writes: seq<Bytes>)
    ensures Decode(LiveOutput(secrets, writes)) == Decoded(Render(Streamed(secrets, [], writes)))
    ensures LinesBounded(LiveOutput(secrets, writes))
  {
    var text := Render(Streamed(secrets, [], writes));
    var tokens := Encoded(text, true).0;
    LifeIsStream(secrets, [], EncoderState([], 0, []), writes);
    FedThenFlushed(EncoderState([], 0, []), text);
    assert LiveOutput(secrets, writes) == [] + Framed(0, tokens).0 == Framed(0, tokens).0;
    RoundTrip(0, text);
    EncodedAreTokens(text, true);
    FramedBounded([], tokens);
    ColumnsBoundLines(LiveOutput(secrets, writes));
  }

  /** Two ways of cutting the same text into writes give the same bytes on the live destination. */
  lemma LiveOutputIgnoresCuts(secrets: seq<Bytes>, writes: seq<Bytes>, writes': seq<Bytes>)
    requires ChunkSafe(secrets) && Concat(writes) == Concat(writes')
    ensures LiveOutput(secrets, writes) == LiveOutput(secrets, writes')
    ensures Decode(LiveOutput(secrets, writes)) == Decoded(Mask(secrets, Concat(writes)))
  {
    StreamIsMask(secrets, [], writes);
    StreamIsMask(secrets, [], writes');
    assert [] + Concat(writes) == Concat(writes);
    LifeIsStream(secrets, [], EncoderState([], 0, []), writes);
    LifeIsStream(secrets, [], EncoderState([], 0, []), writes');
    LiveOutputReadsBack(secrets, writes);
  }
}

/**
 A connection's two byte streams: the output queue under partial vectored
 writes, and the read buffer under arbitrary chunking.
 */
module Connection {

  import opened Wrappers
  import opened Bytes
  import opened Frame

  const MAX_WRITE_CHUNKS := 64

  datatype Chunk = Chunk(bytes: seq<byte>, sent: nat)

  /** What the socket answers to one vectored write. */
  datatype Reply = Wrote(n: nat) | WouldBlock | Eof | Failure

  datatype Options = Options(outputMax: nat, highWater: nat, lowWater: nat)

  /** What the poller is asked to report. */
  datatype EventMask = EventMask(read: bool, write: bool)

  // ------------------------------------------------------------ output queue

  predicate ChunksOk(output: seq<Chunk>) {
    forall i :: 0 <= i < |output| ==> output[i].sent < |output[i].bytes|
  }

  /** The bytes still to be written, in order. */
  function Unsent(output: seq<Chunk>): seq<byte>
    requires ChunksOk(output)
  {
    if output == [] then [] else output[0].bytes[output[0].sent..] + Unsent(output[1..])
  }

  // How much one writev is offered: the first `budget` chunks.
  function Offered(output: seq<Chunk>, budget: nat): (n: nat)
    requires ChunksOk(output)
    ensures n <= |Unsent(output)|
  {
    if output == [] || budget == 0 then 0
    else |output[0].bytes| - output[0].sent + Offered(output[1..], budget - 1)
  }

  lemma NothingQueued()
    ensures Unsent([]) == [] && EncodeAll([]) == []
  {
  }

  lemma SomethingOffered(output: seq<Chunk>)
    requires ChunksOk(output) && output != []
    ensures Offered(output, MAX_WRITE_CHUNKS) > 0
  {
  }

  lemma {:induction false} UnsentAppend(output: seq<Chunk>, c: Chunk)
    requires ChunksOk(output) && c.sent < |c.bytes|
    ensures ChunksOk(output + [c]) && Unsent(output + [c]) == Unsent(output) + c.bytes[c.sent..]
  {
    if output == [] {
      assert output + [c] == [c];
    } else {
      assert (output + [c])[1..] == output[1..] + [c];
      UnsentAppend(output[1..], c);
    }
  }

  lemma {:induction false} EncodeAppend(fs: seq<Frame>, f: Frame)
    ensures EncodeAll(fs + [f]) == EncodeAll(fs) + EncodeFrame(f)
  {
    hide EncodeFrame;
    if fs == [] {
      assert fs + [f] == [f];
      assert EncodeAll([f]) == EncodeFrame(f) + EncodeAll([]);
    } else {
      assert (fs + [f])[1..] == fs[1..] + [f];
      EncodeAppend(fs[1..], f);
    }
  }

  /** Consuming n written bytes: whole chunks first, then part of the one it stopped in. */
  method Consume(output: seq<Chunk>, n: nat) returns (rest: seq<Chunk>)
    requires ChunksOk(output) && n <= |Unsent(output)|
    ensures ChunksOk(rest) && Unsent(rest) == Unsent(output)[n..]
  {
    rest := output;
    var remaining := n;
    while remaining > 0 && rest != []
      invariant ChunksOk(rest) && 0 <= remaining <= |Unsent(rest)|
      invariant Unsent(rest)[remaining..] == Unsent(output)[n..]
      decreases |rest|, remaining
    {
      var front := rest[0];
      var pending := |front.bytes| - front.sent;
      ghost var before := Unsent(rest);
      if remaining >= pending {
        assert before[remaining..] == Unsent(rest[1..])[remaining - pending..];
        remaining := remaining - pending;
        rest := rest[1..];
      } else {
        var cut := front.(sent := front.sent + remaining);
        ghost var others := rest[1..];
        assert before[remaining..] == cut.bytes[cut.sent..] + Unsent(others);
        rest := [cut] + rest[1..];
        assert rest[1..] == others;
        remaining := 0;
      }
    }
  }

  class Connection {
    const options: Options
    var output: seq<Chunk>
    var outputBytes: nat
    var closing: bool
    var closeWhenDrained: bool
    var wantWrite: bool
    var readPaused: bool
    var registered: EventMask
    ghost var accepted: seq<Frame>     // frames SendFrame queued
    ghost var wire: seq<byte>          // bytes the socket took

    ghost predicate Valid()
      reads this
    {
      && Queued()
      && (!closing ==> (wantWrite <==> output != []) && PauseOk() && registered == EventMask(!readPaused, wantWrite))
    }

    // What was written and what is queued is the encoding of the accepted frames.
    ghost predicate Queued()
      reads this
    {
      && ChunksOk(output)
      && wire + Unsent(output) == EncodeAll(accepted)
      && outputBytes == |Unsent(output)| <= options.outputMax
    }

    ghost predicate PauseOk()
      reads this
    {
      && (readPaused ==> outputBytes > options.lowWater || outputBytes >= options.highWater)
      && (!readPaused ==> outputBytes < options.highWater || outputBytes <= options.lowWater)
    }

    constructor (options: Options)
      ensures Valid() && this.options == options && accepted == [] && wire == [] && !closing
    {
      hide EncodeAll, Unsent;
      NothingQueued();
      this.options := options;
      output, outputBytes := [], 0;
      closing, closeWhenDrained, wantWrite, readPaused := false, false, false, false;
      registered := EventMask(true, false);
      accepted, wire := [], [];
    }

    /** Between the two marks nothing toggles; the poller is told the outcome either way. */
    method UpdatePollRegistration()
      modifies this`readPaused, this`registered
      ensures closing ==> readPaused == old(readPaused) && registered == old(registered)
      ensures !closing ==> PauseOk() && registered == EventMask(!readPaused, wantWrite)
      ensures !closing && options.lowWater < outputBytes < options.highWater ==> readPaused == old(readPaused)
      ensures !closing && options.highWater <= outputBytes <= options.lowWater ==> readPaused == !old(readPaused)
    {
      if closing {
        return;
      }
      var shouldPause := outputBytes >= options.highWater;
      var shouldResume := outputBytes <= options.lowWater;
      if !readPaused && shouldPause {
        readPaused := true;
      } else if readPaused && shouldResume {
        readPaused := false;
      }
      registered := EventMask(!readPaused, wantWrite);
    }

    /** Writes until the queue is empty or the socket stops taking bytes; `writes` counts the writes that took some. */
    method FlushOutput(replies: seq<Reply>) returns (writes: nat)
      requires Queued()
      modifies this`output, this`outputBytes, this`wantWrite, this`readPaused, this`registered, this`closing, this`wire
      ensures Valid() && old(wire) <= wire && (old(closing) ==> closing)
      ensures closeWhenDrained && output == [] ==> closing
      ensures writes <= |replies| && |wire| >= |old(wire)| + writes
      ensures forall i :: 0 <= i < writes ==> replies[i].Wrote? && replies[i].n > 0
      ensures output != [] ==> writes == |replies| || !replies[writes].Wrote? || replies[writes].n == 0
      ensures closing && !old(closing) ==>
        (closeWhenDrained && output == []) || (writes < |replies| && (replies[writes].Failure? || replies[writes].Eof?))
    {
      hide EncodeAll, Unsent, Offered, ChunksOk;
      writes := 0;
      while output != []
        invariant Queued() && old(wire) <= wire && closing == old(closing)
        invariant writes <= |replies| && |wire| >= |old(wire)| + writes
        invariant forall i :: 0 <= i < writes ==> replies[i].Wrote? && replies[i].n > 0
        decreases outputBytes
      {
        var reply := if writes < |replies| then replies[writes] else WouldBlock;
        if reply.Failure? || reply.Eof? {
          closing := true;
          return;
        }
        var offered := Offered(output, MAX_WRITE_CHUNKS);
        SomethingOffered(output);
        var n := if reply.WouldBlock? then 0 else if reply.n > offered then offered else reply.n;
        if n == 0 {
          wantWrite := true;
          UpdatePollRegistration();
          return;
        }
        ghost var unsent := Unsent(output);
        var rest := Consume(output, n);
        assert wire + unsent == (wire + unsent[..n]) + unsent[n..];
        wire := wire + unsent[..n];
        output, outputBytes := rest, outputBytes - n;
        writes := writes + 1;
      }
      wantWrite := false;
      if closeWhenDrained {
        closing := true;
        return;
      }
      UpdatePollRegistration();
    }

    method SendFrame(f: Frame, replies: seq<Reply>) returns (ok: bool)
      requires Valid()
      modifies this
      ensures Valid() && old(wire) <= wire
      ensures ok ==> accepted == old(accepted) + [f]
      ensures !ok ==> accepted == old(accepted) && closing
      ensures ok <==> !old(closing) && old(outputBytes) + |EncodeFrame(f)| <= options.outputMax
    {
      hide EncodeFrame, EncodeAll;
      if closing {
        return false;
      }
      var buffer := EncodeFrame(f);
      if outputBytes + |buffer| > options.outputMax {
        closing := true;
        return false;
      }
      var chunk := Chunk(buffer, 0);
      UnsentAppend(output, chunk);
      EncodeAppend(accepted, f);
      assert chunk.bytes[chunk.sent..] == buffer;
      assert wire + (Unsent(output) + buffer) == (wire + Unsent(output)) + buffer;
      outputBytes := outputBytes + |buffer|;
      output := output + [chunk];
      accepted := accepted + [f];
      var writes := FlushOutput(replies);
      return true;
    }

    method CloseWhenDrained()
      requires Valid()
      modifies this`closeWhenDrained, this`closing
      ensures Valid() && (closing <==> old(closing) || output == [])
      // With bytes still queued the connection stays open until they are written.
      ensures !old(closing) ==> closeWhenDrained
    {
      hide EncodeAll, Unsent, ChunksOk;
      if closing {
        return;
      }
      closeWhenDrained := true;
      if output == [] {
        closing := true;
      }
    }
  }

  // ------------------------------------------------------------- read buffer

  /** The frames delivered so far are what the bytes already consumed decode to. */
  ghost predicate Took(received: seq<byte>, input: seq<byte>, delivered: seq<Frame>, maxPayload: u32) {
    && |input| <= |received| && received == Taken(received, input) + input
    && DecodeAll(Taken(received, input), maxPayload) == Stream(delivered, |received| - |input|, None)
  }

  ghost function Taken(received: seq<byte>, input: seq<byte>): seq<byte>
    requires |input| <= |received|
  {
    received[..|received| - |input|]
  }

  lemma TookMore(received: seq<byte>, input: seq<byte>, delivered: seq<Frame>, chunk: seq<byte>, maxPayload: u32)
    requires Took(received, input, delivered, maxPayload)
    ensures Took(received + chunk, input + chunk, delivered, maxPayload)
  {
    hide DecodeAll;
    assert Taken(received + chunk, input + chunk) == Taken(received, input);
  }

  lemma TookFrame(received: seq<byte>, input: seq<byte>, delivered: seq<Frame>, maxPayload: u32)
    requires Took(received, input, delivered, maxPayload) && NextFrame(input, maxPayload).Got?
    ensures var d := NextFrame(input, maxPayload); Took(received, input[d.size..], delivered + [d.frame], maxPayload)
  {
    hide DecodeAll, NextFrame;
    var d := NextFrame(input, maxPayload);
    var taken, own, rest := Taken(received, input), input[..d.size], input[d.size..];
    OwnFrame(input, maxPayload);
    DecodeResumes(taken, own, maxPayload);
    assert Taken(received, rest) == taken + own;
  }

  lemma OwnFrame(input: seq<byte>, maxPayload: u32)
    requires NextFrame(input, maxPayload).Got?
    ensures var d := NextFrame(input, maxPayload);
      DecodeAll(input[..d.size], maxPayload) == Stream([d.frame], d.size, None)
  {
    hide DecodeAll, NextFrame;
    var own := input[..NextFrame(input, maxPayload).size];
    NextFrameLocal(input, maxPayload);
    DecodeStep(own, maxPayload);
    assert own[|own|..] == [];
    EmptyNeedsMore([], maxPayload);
    DecodeStep([], maxPayload);
  }

  lemma TookAll(received: seq<byte>, input: seq<byte>, delivered: seq<Frame>, maxPayload: u32)
    requires Took(received, input, delivered, maxPayload)
    ensures |input| <= |received|
    ensures DecodeAll(received, maxPayload) == After(delivered, |received| - |input|, DecodeAll(input, maxPayload))
  {
    hide DecodeAll;
    DecodeResumes(Taken(received, input), input, maxPayload);
  }

  class Reader {
    const maxPayload: u32
    const maxFramesPerEvent: nat
    var input: seq<byte>
    var error: Option<Error>
    var closing: bool
    var draining: bool     // CloseWhenDrained was called
    ghost var received: seq<byte>
    ghost var delivered: seq<Frame>

    ghost predicate Valid()
      reads this
    {
      && Took(received, input, delivered, maxPayload)
      && (error.Some? ==> closing && DecodeAll(input, maxPayload) == Stream([], 0, error))
    }

    constructor (maxPayload: u32, maxFramesPerEvent: nat)
      ensures Valid() && this.maxPayload == maxPayload && this.maxFramesPerEvent == maxFramesPerEvent
      ensures received == [] && delivered == [] && error == None && input == [] && !closing && !draining
    {
      this.maxPayload, this.maxFramesPerEvent := maxPayload, maxFramesPerEvent;
      input, error, closing, draining, received, delivered := [], None, false, false, [], [];
      new;
      EmptyNeedsMore([], maxPayload);
      DecodeStep([], maxPayload);
      assert Taken(received, input) == [];
    }

    /**
     One readable event: any number of bytes, perhaps the end of the stream, and
     at most `maxFramesPerEvent` frames handed on. The handler of frame number
     `closesAt` of this event, if there is one, closes the connection.
     */
    method OnReadable(chunk: seq<byte>, eof: bool, closesAt: Option<nat>) returns (frames: seq<Frame>)
      requires Valid()
      modifies this
      ensures Valid() && delivered == old(delivered) + frames
      ensures old(closing) ==> frames == [] && input == old(input) && received == old(received) && closing
      ensures !old(closing) ==>
        && received == old(received) + chunk
        && DecodeAll(old(input) + chunk, maxPayload).frames == frames + DecodeAll(input, maxPayload).frames
        && |frames| <= FrameLimit(maxFramesPerEvent, closesAt)
        && (|frames| < FrameLimit(maxFramesPerEvent, closesAt) ==> DecodeAll(input, maxPayload) == Stream([], 0, error))
        // No complete frame is left waiting exactly when there were no more than the limit.
        && (DecodeAll(input, maxPayload).frames == []
            <==> |DecodeAll(old(input) + chunk, maxPayload).frames| <= FrameLimit(maxFramesPerEvent, closesAt))
        && (closing <==> error.Some? || (frames != [] && closesAt == Some(|frames|)) || (eof && old(input) + chunk == []))
        && (draining <==> old(draining) || (eof && !closing))
    {
      hide NextFrame, DecodeAll, Took, FrameLimit;
      frames := [];
      if closing {
        return;
      }
      TookMore(received, input, delivered, chunk, maxPayload);
      input, received := input + chunk, received + chunk;
      if eof && input == [] {
        EmptyNeedsMore([], maxPayload);
        DecodeStep([], maxPayload);
        closing := true;
        return;
      }
      frames := DeliverFrames(closesAt);
      if eof && !closing {
        draining := true;
      }
    }

    /** The decode loop. */
    method DeliverFrames(closesAt: Option<nat>) returns (frames: seq<Frame>)
      requires Valid() && !closing
      modifies this`input, this`error, this`closing, this`delivered
      ensures Valid() && delivered == old(delivered) + frames
      ensures DecodeAll(old(input), maxPayload).frames == frames + DecodeAll(input, maxPayload).frames
      ensures |frames| <= FrameLimit(maxFramesPerEvent, closesAt)
      ensures |frames| < FrameLimit(maxFramesPerEvent, closesAt) ==> DecodeAll(input, maxPayload) == Stream([], 0, error)
      ensures closing <==> error.Some? || (frames != [] && closesAt == Some(|frames|))
    {
      hide NextFrame, DecodeAll, Took;
      frames := [];
      ghost var all := DecodeAll(input, maxPayload).frames;
      while |frames| < maxFramesPerEvent
        invariant |frames| <= FrameLimit(maxFramesPerEvent, closesAt) && error == None && !closing
        invariant frames != [] ==> closesAt != Some(|frames|)
        invariant delivered == old(delivered) + frames && Took(received, input, delivered, maxPayload)
        invariant all == frames + DecodeAll(input, maxPayload).frames
        decreases maxFramesPerEvent - |frames|
      {
        var d := NextFrame(input, maxPayload);
        DecodeStep(input, maxPayload);
        if d.NeedMore? {
          return;
        }
        if d.Broken? {
          error, closing := Some(d.error), true;
          return;
        }
        TookFrame(received, input, delivered, maxPayload);
        Shifted(frames, d.frame, DecodeAll(input[d.size..], maxPayload).frames);
        Shifted(old(delivered), d.frame, frames);
        frames := frames + [d.frame];
        delivered := delivered + [d.frame];
        input := input[d.size..];
        if closesAt == Some(|frames|) {
          closing := true;
          return;
        }
      }
    }
  }

  lemma Shifted(a: seq<Frame>, f: Frame, rest: seq<Frame>)
    ensures a + ([f] + rest) == (a + [f]) + rest
    ensures (a + rest) + [f] == a + (rest + [f])
  {
  }

  function FrameLimit(maxFrames: nat, closesAt: Option<nat>): nat {
    if closesAt.Some? && 0 < closesAt.value < maxFrames then closesAt.value else maxFrames
  }

  const PING := Frame(1, 0, 0, [])

  /** Two frames under a limit of one: the second stays in the buffer, complete, with nothing to announce it. */
  method TwoFramesOneEvent(maxPayload: u32) returns (frames: seq<Frame>, left: seq<byte>)
    ensures frames == [PING] && DecodeAll(left, maxPayload).frames == [PING]
  {
    hide DecodeAll, NextFrame, EncodeFrame;
    var reader := new Reader(maxPayload, 1);
    TwoPings(maxPayload);
    var bytes := EncodeFrame(PING) + EncodeFrame(PING);
    assert reader.input + bytes == bytes;
    frames := reader.OnReadable(bytes, false, None);
    left := reader.input;
    var late := DecodeAll(left, maxPayload).frames;
    assert |frames + late| == 2 && (frames + late)[0] == PING && (frames + late)[1] == PING;
  }

  lemma TwoPings(maxPayload: u32)
    ensures DecodeAll(EncodeFrame(PING) + EncodeFrame(PING), maxPayload).frames == [PING, PING]
  {
    hide DecodeAll, NextFrame, EncodeFrame;
    var e := EncodeFrame(PING);
    FrameRoundTrip(PING, e, maxPayload);
    FrameRoundTrip(PING, [], maxPayload);
    DecodeStep(e + e, maxPayload);
    assert (e + e)[|e|..] == e == e + [];
    DecodeStep(e, maxPayload);
    assert e[|e|..] == [];
    EmptyNeedsMore([], maxPayload);
    DecodeStep([], maxPayload);
  }

  // ------------------------------------------------------------- end to end

  /** Whatever prefix of the written bytes has arrived, in whatever chunks: a prefix of the accepted frames, no error. */
  lemma StreamDelivers(accepted: seq<Frame>, wire: seq<byte>, unsent: seq<byte>, received: seq<byte>,
                       input: seq<byte>, delivered: seq<Frame>, maxPayload: u32)
    requires wire + unsent == EncodeAll(accepted) && received <= wire
    requires forall i :: 0 <= i < |accepted| ==> Acceptable(accepted[i], maxPayload)
    requires Took(received, input, delivered, maxPayload)
    ensures delivered <= accepted && DecodeAll(input, maxPayload).error == None
    ensures delivered + DecodeAll(input, maxPayload).frames <= accepted
    ensures received == EncodeAll(accepted) ==> delivered + DecodeAll(input, maxPayload).frames == accepted
  {
    hide DecodeAll, EncodeAll, EncodeFrame, Took;
    assert received == EncodeAll(accepted)[..|received|];
    StreamPrefix(accepted, |received|, maxPayload);
    TookAll(received, input, delivered, maxPayload);
    var frames := DecodeAll(received, maxPayload).frames;
    assert delivered == frames[..|delivered|];
    assert frames == accepted[..|frames|];
    if received == EncodeAll(accepted) && |frames| < |accepted| {
      PrefixShorter(accepted, |frames|);
    }
  }

  // Leaving out the frames from k on leaves out at least frame k's bytes.
  lemma {:induction false} PrefixShorter(fs: seq<Frame>, k: nat)
    requires k < |fs|
    ensures |EncodeAll(fs)| >= |EncodeAll(fs[..k])| + |EncodeFrame(fs[k])|
  {
    hide EncodeFrame;
    if k > 0 {
      assert fs[..k][1..] == fs[1..][..k - 1];
      PrefixShorter(fs[1..], k - 1);
    }
  }
}

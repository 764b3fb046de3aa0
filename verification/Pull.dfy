/** The PULL socket's receive methods over one shared frame accumulator (monocoque-zmtp/src/pull.rs). */
module Pull {
  import opened ByteStrings
  import opened Framing
  import opened Codec
  import opened Units
  import opened Base

  /** Taking one frame off the front of the stream. */
  lemma ReceivedStep(partial: seq<Bytes>, unread: Bytes, inbox: Bytes, max: nat)
    requires ParseFrame(unread, max).Parsed?
    ensures var p := ParseFrame(unread, max);
            var rest := unread[p.size..] + inbox;
            Received(partial, unread + inbox, max) ==
            if Command(p.frame.flags) then Received(partial, rest, max)
            else if More(p.frame.flags) then Received(partial + [p.frame.payload], rest, max)
            else [partial + [p.frame.payload]] + Received([], rest, max)
  {
    var p := ParseFrame(unread, max);
    ParseFrameStable(unread, inbox, max);
    assert (unread + inbox)[p.size..] == unread[p.size..] + inbox;
    AssembleStep(partial, p.frame, ParseAll(unread[p.size..] + inbox, max).frames);
  }

  /** A malformed frame, or an incomplete one with nothing behind it, completes no message. */
  lemma ReceivedNothing(partial: seq<Bytes>, unread: Bytes, inbox: Bytes, max: nat)
    requires ParseFrame(unread, max).Malformed? || (ParseFrame(unread, max).NeedMore? && inbox == [])
    ensures Received(partial, unread + inbox, max) == []
  {
    if ParseFrame(unread, max).Malformed? {
      ParseFrameStable(unread, inbox, max);
    } else {
      assert unread + inbox == unread;
    }
  }

  /** The messages of a stream whose next payload is `payload`. */
  function Extend(partial: seq<Bytes>, payload: Bytes, more: bool, rest: Bytes, max: nat): seq<seq<Bytes>> {
    if more then Received(partial + [payload], rest, max) else [partial + [payload]] + Received([], rest, max)
  }

  predicate NoPings(frames: seq<Frame>) {
    forall i :: 0 <= i < |frames| ==> !IsPingFrame(frames[i])
  }

  /** `after` is `before` with frames taken off its front: the same fault lies ahead, and no new PING. */
  predicate Onward(before: Stream, after: Stream) {
    after.error == before.error && (NoPings(before.frames) ==> NoPings(after.frames))
  }

  /** Taking one frame off moves a stream onward, whatever follows the bytes it was parsed from. */
  lemma FrameTaken(unread: Bytes, inbox: Bytes, max: nat)
    requires ParseFrame(unread, max).Parsed?
    ensures var p := ParseFrame(unread, max);
            var before, after := ParseAll(unread + inbox, max), ParseAll(unread[p.size..] + inbox, max);
            Onward(before, after) && (NoPings(before.frames) ==> !IsPingFrame(p.frame))
  {
    var p := ParseFrame(unread, max);
    ParseFrameStable(unread, inbox, max);
    assert (unread + inbox)[p.size..] == unread[p.size..] + inbox;
    var before, after := ParseAll(unread + inbox, max), ParseAll(unread[p.size..] + inbox, max);
    assert before.frames == [p.frame] + after.frames;
    assert forall i :: 0 <= i < |after.frames| ==> after.frames[i] == before.frames[i + 1];
    assert p.frame == before.frames[0];
  }

  /** What is buffered is the front of the stream, and a fault in it is the stream's. */
  lemma BufferedFirst(unread: Bytes, inbox: Bytes, max: nat)
    ensures NoPings(ParseAll(unread + inbox, max).frames) ==> NoPings(ParseAll(unread, max).frames)
    ensures ParseAll(unread, max).error.Some? ==> ParseAll(unread + inbox, max).error == ParseAll(unread, max).error
  {
    ParseAllAppend(unread, inbox, max);
    var ready, all := ParseAll(unread, max).frames, ParseAll(unread + inbox, max).frames;
    assert forall i :: 0 <= i < |ready| ==> ready[i] == all[i];
  }

  /** What a processed frame does to the messages of a stream; `rest` is what is left of it, and `complete` says that
    * nothing was to follow the bytes looked at. */
  ghost predicate Assembled(partial: seq<Bytes>, before: seq<seq<Bytes>>, r: IoResult<FrameResult>, rest: Bytes,
                            complete: bool, max: nat) {
    if r.Err? then Received(partial, rest, max) == before == []
    else if r.value.Data? then before == Extend(partial, r.value.payload, r.value.more, rest, max)
    else Received(partial, rest, max) == before && (r.value.NeedsMore? && complete ==> before == [])
  }

  /** What it does to the buffered frames: it fails exactly at a malformed one. */
  ghost predicate Passed(before: Stream, r: IoResult<FrameResult>, after: Stream) {
    && Onward(before, after)
    && (r == Ok(NeedsMore) ==> after.error.None?)
    && (r.Err? ==> after.error.Some? && r.error == InvalidData(after.error.value))
  }

  lemma FrameAssembled(partial: seq<Bytes>, unread: Bytes, inbox: Bytes, r: IoResult<FrameResult>, after: Bytes,
      max: nat)
    requires Processed(unread, r, after, max)
    ensures Assembled(partial, Received(partial, unread + inbox, max), r, after + inbox, inbox == [], max)
  {
    if ParseFrame(unread, max).Parsed? {
      ReceivedStep(partial, unread, inbox, max);
    } else if ParseFrame(unread, max).Malformed? || inbox == [] {
      ReceivedNothing(partial, unread, inbox, max);
    }
  }

  lemma BufferedAssembled(partial: seq<Bytes>, unread: Bytes, r: IoResult<FrameResult>, after: Bytes, max: nat)
    requires Processed(unread, r, after, max)
    ensures Assembled(partial, Received(partial, unread, max), r, after, true, max)
  {
    FrameAssembled(partial, unread, [], r, after, max);
    assert unread + [] == unread && after + [] == after;
  }

  lemma FramePassed(unread: Bytes, inbox: Bytes, r: IoResult<FrameResult>, after: Bytes, max: nat)
    requires Processed(unread, r, after, max)
    ensures Passed(ParseAll(unread, max), r, ParseAll(after, max))
    ensures Onward(ParseAll(unread + inbox, max), ParseAll(after + inbox, max))
    ensures r.Err? ==> ParseAll(after + inbox, max).error.Some?
    ensures ParseFrame(unread, max).Parsed? && NoPings(ParseAll(unread, max).frames) ==>
              !IsPingFrame(ParseFrame(unread, max).frame)
  {
    if ParseFrame(unread, max).Parsed? {
      FrameTaken(unread, inbox, max);
      TakenAlone(unread, max);
    } else {
      BufferedFirst(unread, inbox, max);
    }
  }

  datatype Pumped = Starved | Handled | Partial | Complete(msg: seq<Bytes>) | Broken(error: IoError)

  /** The messages still to come, before and after one frame: a completed message is the first of them, and nothing else
    * changes. */
  predicate Yields(before: seq<seq<Bytes>>, r: Pumped, after: seq<seq<Bytes>>) {
    before == if r.Complete? then [r.msg] + after else after
  }

  /** The arms of the receive loops: `kept` is the message under way. */
  predicate Arm(partial: seq<Bytes>, f: IoResult<FrameResult>, r: Pumped, kept: seq<Bytes>) {
    if f.Ok? && f.value.Data? && !f.value.more then r == Complete(partial + [f.value.payload]) && kept == []
    else if f.Ok? && f.value.Data? then r == Partial && kept == partial + [f.value.payload]
    else
      && kept == partial
      && r == if f.Err? then Broken(f.error) else if f.value.NeedsMore? then Starved else Handled
  }

  lemma ArmYields(partial: seq<Bytes>, before: seq<seq<Bytes>>, f: IoResult<FrameResult>, rest: Bytes, complete: bool,
      max: nat, r: Pumped, kept: seq<Bytes>)
    requires Assembled(partial, before, f, rest, complete, max) && Arm(partial, f, r, kept)
    ensures Yields(before, r, Received(kept, rest, max))
    ensures r.Broken? || (r.Starved? && complete) ==> before == []
  {
  }

  class PullSocket {
    const base: SocketBase
    var frames: seq<Bytes>

    ghost predicate Valid()
      reads base, base.recv, base.decoder
    {
      base.SendInv() && base.RecvInv()
    }

    /** The messages still to come on this connection: what assembling everything unread and unsent would yield. */
    ghost function Incoming(): seq<seq<Bytes>>
      reads this, base`inbox, base`recv, base.recv, base.decoder
    {
      Received(frames, base.Unread() + base.inbox, base.decoder.maxFrameSize)
    }

    /** The messages that what is already buffered completes. */
    ghost function Buffered(): seq<seq<Bytes>>
      reads this, base`recv, base.recv, base.decoder
    {
      Received(frames, base.Unread(), base.decoder.maxFrameSize)
    }

    /** The frames still to come, and the protocol error they end in, if any. */
    ghost function Ahead(): Stream
      reads base`inbox, base`recv, base.recv, base.decoder
    {
      ParseAll(base.Unread() + base.inbox, base.decoder.maxFrameSize)
    }

    /** The part of it that is already buffered. */
    ghost function Ready(): Stream
      reads base`recv, base.recv, base.decoder
    {
      ParseAll(base.Unread(), base.decoder.maxFrameSize)
    }

    /** Nothing stands in the way of receiving all that is to come. */
    ghost predicate Sound()
      reads base`connected, base`isPoisoned, base`options, base`inbox, base`recv, base.recv, base.decoder
    {
      base.Healthy() && Ahead().error.None?
    }

    constructor (base: SocketBase)
      ensures this.base == base && frames == []
    {
      this.base, frames := base, [];
    }

    /** The arm every receive method shares: process one frame and accumulate its payload. */
    method Pump() returns (r: Pumped)
      requires Valid()
      modifies this, base.recv, base.decoder, base`sendBuffer, base`buffered, base`awaitingPong
      ensures Valid()
      ensures Yields(old(Incoming()), r, Incoming()) && Yields(old(Buffered()), r, Buffered())
      ensures r.Broken? || (r.Starved? && base.inbox == []) ==> Incoming() == []
      ensures r.Broken? || r.Starved? ==> Buffered() == []
      ensures r.Handled? || r.Partial? || r.Complete? ==> |base.Unread()| < old(|base.Unread()|)
      ensures Onward(old(Ready()), Ready()) && Onward(old(Ahead()), Ahead())
      ensures r.Starved? ==> Ready().error.None?
      ensures r.Broken? ==> Ready().error.Some? && r.error == InvalidData(Ready().error.value)
      ensures r.Broken? ==> old(Ahead()).error.Some?
      ensures NoPings(old(Ready()).frames) || !r.Handled? ==> base.sendBuffer == old(base.sendBuffer)
    {
      ghost var partial, incoming, buffered := frames, Incoming(), Buffered();
      var f := NextFrame();
      if f.Err? {
        r := Broken(f.error);
      } else {
        match f.value
        case NeedsMore => r := Starved;
        case CommandHandled => r := Handled;
        case Data(more, payload) => r := Keep(more, payload);
      }
      ghost var max := base.decoder.maxFrameSize;
      ArmYields(partial, incoming, f, base.Unread() + base.inbox, base.inbox == [], max, r, frames);
      ArmYields(partial, buffered, f, base.Unread(), true, max, r, frames);
    }

    /** A data frame ends the message it belongs to, or is kept until one does. */
    method Keep(more: bool, payload: Bytes) returns (r: Pumped)
      modifies this`frames
      ensures r == if more then Partial else Complete(old(frames) + [payload])
      ensures frames == if more then old(frames) + [payload] else []
    {
      if !more && frames == [] {
        assert frames + [payload] == [payload];
        return Complete([payload]);
      }
      frames := frames + [payload];
      if more {
        return Partial;
      }
      var msg := frames;
      frames := [];
      return Complete(msg);
    }

    method NextFrame() returns (r: IoResult<FrameResult>)
      requires Valid()
      modifies base.recv, base.decoder, base`sendBuffer, base`buffered, base`awaitingPong
      ensures Valid()
      ensures Assembled(frames, old(Incoming()), r, base.Unread() + base.inbox, base.inbox == [],
                        base.decoder.maxFrameSize)
      ensures Assembled(frames, old(Buffered()), r, base.Unread(), true, base.decoder.maxFrameSize)
      ensures r.Ok? && !r.value.NeedsMore? ==> |base.Unread()| < old(|base.Unread()|)
      ensures Passed(old(Ready()), r, Ready()) && Onward(old(Ahead()), Ahead())
      ensures r.Err? ==> Ahead().error.Some?
      ensures NoPings(old(Ready()).frames) || r != Ok(CommandHandled) ==> base.sendBuffer == old(base.sendBuffer)
    {
      ghost var unread, max := base.Unread(), base.decoder.maxFrameSize;
      r := base.ProcessFrame();
      FrameAssembled(frames, unread, base.inbox, r, base.Unread(), max);
      BufferedAssembled(frames, unread, r, base.Unread(), max);
      FramePassed(unread, base.inbox, r, base.Unread(), max);
    }

    /** A message from what is already buffered, without reading: the next one exactly when one is complete. `Ok(None)`
      * leaves the stream as it was. It fails exactly at a malformed frame. */
    method TryRecv() returns (r: IoResult<Option<seq<Bytes>>>)
      requires Valid()
      modifies this, base.recv, base.decoder, base`sendBuffer, base`buffered, base`awaitingPong
      ensures Valid()
      ensures r.Ok? && r.value.Some? ==>
                old(Incoming()) == [r.value.value] + Incoming() && |base.Unread()| < old(|base.Unread()|)
      ensures r.Ok? && r.value.None? ==> Incoming() == old(Incoming())
      ensures r.Ok? && r.value.None? && base.inbox == [] ==> Incoming() == []
      ensures r.Err? ==> Incoming() == old(Incoming()) == []
      ensures r.Ok? && r.value.Some? <==> old(Buffered()) != []
      ensures r.Ok? && r.value.Some? ==> old(Buffered()) == [r.value.value] + Buffered()
      ensures Onward(old(Ready()), Ready()) && Onward(old(Ahead()), Ahead())
      ensures r == Ok(None) ==> Ready().error.None?
      ensures r.Err? ==> Ready().error.Some? && r.error == InvalidData(Ready().error.value) && Ahead().error.Some?
      ensures NoPings(old(Ready()).frames) ==> base.sendBuffer == old(base.sendBuffer)
    {
      while true
        invariant Valid() && Incoming() == old(Incoming()) && |base.Unread()| <= old(|base.Unread()|)
        invariant Buffered() == old(Buffered())
        invariant Onward(old(Ready()), Ready()) && Onward(old(Ahead()), Ahead())
        invariant NoPings(old(Ready()).frames) ==> base.sendBuffer == old(base.sendBuffer)
        decreases |base.Unread()|
      {
        var p := Pump();
        match p
        case Starved => return Ok(None);
        case Complete(msg) => return Ok(Some(msg));
        case Broken(e) => return Err(e);
        case Handled =>
        case Partial =>
      }
    }

    /** `try_recv` into a caller's vector, which is left alone when there is no complete message. */
    method TryRecvInto(out: seq<Bytes>) returns (r: IoResult<bool>, out': seq<Bytes>)
      requires Valid()
      modifies this, base.recv, base.decoder, base`sendBuffer, base`buffered, base`awaitingPong
      ensures Valid()
      ensures r.Ok? && r.value ==> old(Incoming()) == [out'] + Incoming()
      ensures r.Ok? && !r.value ==> Incoming() == old(Incoming()) && out' == out
      ensures r.Err? ==> Incoming() == old(Incoming()) == [] && out' == out
      ensures r == Ok(true) <==> old(Buffered()) != []
      ensures r == Ok(true) ==> old(Buffered()) == [out'] + Buffered()
      ensures Onward(old(Ahead()), Ahead()) && (r.Err? ==> Ahead().error.Some?)
    {
      out' := out;
      while true
        invariant Valid() && Incoming() == old(Incoming()) && out' == out && Buffered() == old(Buffered())
        invariant Onward(old(Ahead()), Ahead())
        decreases |base.Unread()|
      {
        var p := Pump();
        match p
        case Starved => return Ok(false), out';
        case Complete(msg) =>
          out' := msg;
          return Ok(true), out';
        case Broken(e) => return Err(e), out';
        case Handled =>
        case Partial =>
      }
    }

    /** The inner loop of `recv`: `Ok(None)` once the buffered bytes are used up. */
    method DrainBuffered() returns (r: IoResult<Option<seq<Bytes>>>)
      requires Valid()
      modifies this, base, base.recv, base.decoder
      ensures Valid() && base.inbox == old(base.inbox) && base.recv == old(base.recv)
                && base.options == old(base.options)
      ensures r.Ok? && r.value.Some? ==> old(Incoming()) == [r.value.value] + Incoming()
      ensures r.Ok? && r.value.None? ==> Incoming() == old(Incoming()) && (base.inbox == [] ==> Incoming() == [])
      ensures r.Err? ==> Incoming() == old(Incoming())
      ensures Onward(old(Ahead()), Ahead())
      ensures r.Ok? && old(base.sendBuffer) == [] ==> base.sendBuffer == []
      ensures r.Err? && old(base.sendBuffer) == [] && NoPings(old(Ready()).frames) ==> Incoming() == []
      ensures base.faults >= old(base.faults) && (old(Sound()) && base.faults == old(base.faults) ==> r.Ok? && Sound())
    {
      while true
        invariant Valid() && base.inbox == old(base.inbox) && base.recv == old(base.recv)
                  && base.options == old(base.options)
        invariant Incoming() == old(Incoming())
        invariant Onward(old(Ready()), Ready()) && Onward(old(Ahead()), Ahead())
        invariant old(base.sendBuffer) == [] ==> base.sendBuffer == []
        invariant base.faults >= old(base.faults) && (old(Sound()) && base.faults == old(base.faults) ==> Sound())
        decreases |base.Unread()|
      {
        var p := PumpAndAnswer();
        match p
        case Starved => return Ok(None);
        case Complete(msg) => return Ok(Some(msg));
        case Broken(e) => return Err(e);
        case Partial =>
        case Handled =>
      }
    }

    /** One frame, and the flush that follows a command. */
    method PumpAndAnswer() returns (r: Pumped)
      requires Valid()
      modifies this, base.recv, base.decoder, base`wire, base`isPoisoned, base`connected, base`sent, base`torn
      modifies base`faults, base`sendBuffer, base`buffered, base`bufferedMessages, base`awaitingPong
      ensures Valid() && Yields(old(Incoming()), r, Incoming())
      ensures r.Starved? && base.inbox == [] ==> Incoming() == []
      ensures !r.Starved? && !r.Broken? ==> |base.Unread()| < old(|base.Unread()|)
      ensures Onward(old(Ready()), Ready()) && Onward(old(Ahead()), Ahead())
      ensures !r.Broken? && old(base.sendBuffer) == [] ==> base.sendBuffer == []
      ensures r.Broken? && old(base.sendBuffer) == [] && NoPings(old(Ready()).frames) ==> Incoming() == []
      ensures base.faults >= old(base.faults)
                && (old(Sound()) && base.faults == old(base.faults) ==> !r.Broken? && base.Healthy())
    {
      var p := Pump();
      assert old(Sound()) ==> !p.Broken? && base.Healthy();
      r := AnswerCommand(p);
    }

    /** A command that was handled is answered at once; a flush that fails breaks the call. */
    method AnswerCommand(p: Pumped) returns (r: Pumped)
      requires Valid()
      modifies base`wire, base`isPoisoned, base`connected, base`sent, base`torn, base`faults
      modifies base`sendBuffer, base`buffered, base`bufferedMessages
      ensures Valid()
      ensures r == p || (p.Handled? && r.Broken? && old(base.sendBuffer) != [])
      ensures r == p ==> base.sendBuffer == if p.Handled? then [] else old(base.sendBuffer)
      ensures base.faults >= old(base.faults)
      ensures old(base.Healthy()) && base.faults == old(base.faults) ==> r == p && base.Healthy()
    {
      r := p;
      if p.Handled? {
        var answered := Answer();
        if answered.Err? {
          r := Broken(answered.error);
        }
      }
    }

    /** Sends what a command or the heartbeat has queued. */
    method Answer() returns (r: IoResult<()>)
      requires Valid()
      modifies base`wire, base`isPoisoned, base`connected, base`sent, base`torn, base`faults
      modifies base`sendBuffer, base`buffered, base`bufferedMessages
      ensures Valid()
      ensures r.Ok? ==> base.sendBuffer == []
      ensures old(base.sendBuffer) == [] ==> r.Ok?
      ensures base.faults >= old(base.faults)
      ensures old(base.Healthy()) && base.faults == old(base.faults) ==> r.Ok? && base.Healthy()
    {
      r := Ok(());
      if base.sendBuffer != [] {
        r := base.FlushSendBuffer();
      }
    }

    /** Reads once more: `Ok(false)` at the end of the stream. A due PING goes out with it. */
    method ReadMore() returns (r: IoResult<bool>)
      requires Valid()
      modifies base, base.recv
      ensures Valid() && base.recv == old(base.recv) && base.options == old(base.options)
      ensures base.Unread() + base.inbox == old(base.Unread() + base.inbox)
      ensures r.Ok? && r.value ==> |base.inbox| < old(|base.inbox|)
      ensures r.Ok? && !r.value ==> base.inbox == old(base.inbox) == []
      ensures r.Ok? && old(base.sendBuffer) == [] ==> base.sendBuffer == []
      ensures base.faults >= old(base.faults)
      ensures old(base.Healthy()) && base.faults == old(base.faults) ==> r.Ok? && (r.value ==> base.Healthy())
    {
      var n := base.ReadRaw();
      if n.Err? {
        return Err(n.error);
      }
      if n.value == 0 {
        return Ok(false);
      }
      var beat := HeartbeatIfDue();
      if beat.Err? {
        return Err(beat.error);
      }
      return Ok(true);
    }

    method HeartbeatIfDue() returns (r: IoResult<()>)
      requires Valid()
      modifies base
      ensures Valid() && base.recv == old(base.recv) && base.options == old(base.options)
      ensures base.inbox == old(base.inbox) && base.Unread() == old(base.Unread())
      ensures r.Ok? && old(base.sendBuffer) == [] ==> base.sendBuffer == []
      ensures base.faults >= old(base.faults)
      ensures old(base.Healthy()) && base.faults == old(base.faults) ==> r.Ok? && base.Healthy()
    {
      var idle: bool, overdue: bool := *, *;
      var due := base.CheckHeartbeat(idle, overdue);
      if due.Err? {
        return Err(due.error);
      }
      r := Ok(());
      if due.value {
        r := Answer();
      }
    }

    /** The next message, however many reads it takes; `Ok(None)` means the stream ended with no message left in it.
      * With everything buffered and nothing to answer, a message that is there is returned. */
    method Recv() returns (r: IoResult<Option<seq<Bytes>>>)
      requires Valid()
      modifies this, base, base.recv, base.decoder
      ensures Valid() && base.recv == old(base.recv) && base.options == old(base.options)
      ensures r.Ok? && r.value.Some? ==> old(Incoming()) == [r.value.value] + Incoming()
      ensures r.Ok? && r.value.None? ==> Incoming() == old(Incoming()) == []
      ensures r.Err? ==> Incoming() == old(Incoming())
      ensures Onward(old(Ahead()), Ahead())
      ensures r.Ok? && old(base.sendBuffer) == [] ==> base.sendBuffer == []
      ensures old(base.inbox) == [] && old(base.sendBuffer) == [] && NoPings(old(Ready()).frames)
                && old(Incoming()) != [] ==>
                r.Ok? && r.value.Some? && base.inbox == []
      ensures base.faults >= old(base.faults)
      ensures old(Sound()) && base.faults == old(base.faults) ==> r.Ok? && (r.value.Some? ==> Sound())
    {
      r := DrainBuffered();
      while r.Ok? && r.value.None?
        invariant Valid() && base.recv == old(base.recv) && base.options == old(base.options)
        invariant Onward(old(Ahead()), Ahead())
        invariant r.Ok? && r.value.Some? ==> old(Incoming()) == [r.value.value] + Incoming()
        invariant r.Err? || r.value.None? ==> Incoming() == old(Incoming())
        invariant r.Ok? && r.value.None? && base.inbox == [] ==> Incoming() == []
        invariant r.Ok? && old(base.sendBuffer) == [] ==> base.sendBuffer == []
        invariant old(base.inbox) == [] && old(base.sendBuffer) == [] && NoPings(old(Ready()).frames)
                  && old(Incoming()) != [] ==>
                    r.Ok? && r.value.Some? && base.inbox == []
        invariant base.faults >= old(base.faults)
        invariant old(Sound()) && base.faults == old(base.faults) ==> r.Ok? && Sound()
        decreases if r.Ok? && r.value.None? then 1 + |base.inbox| else 0
      {
        var more := ReadMore();
        if more.Err? {
          return Err(more.error);
        }
        if !more.value {
          return Ok(None);
        }
        r := DrainBuffered();
      }
    }

    /** `recv` into a caller's vector, which is cleared on entry. */
    method RecvInto(out: seq<Bytes>) returns (r: IoResult<bool>, out': seq<Bytes>)
      requires Valid()
      modifies this, base, base.recv, base.decoder
      ensures Valid() && base.recv == old(base.recv) && base.options == old(base.options)
      ensures r.Ok? && r.value ==> old(Incoming()) == [out'] + Incoming()
      ensures r.Ok? && !r.value ==> Incoming() == old(Incoming()) == []
      ensures r.Err? ==> Incoming() == old(Incoming())
      ensures !(r.Ok? && r.value) ==> out' == []
      ensures base.faults >= old(base.faults)
      ensures old(Sound()) && base.faults == old(base.faults) ==> r.Ok? && (r.value ==> Sound())
    {
      out' := [];
      while true
        invariant Valid() && base.recv == old(base.recv) && base.options == old(base.options)
        invariant Incoming() == old(Incoming()) && out' == []
        invariant base.faults >= old(base.faults) && (old(Sound()) && base.faults == old(base.faults) ==> Sound())
        decreases |base.inbox|
      {
        var drained := DrainBuffered();
        if drained.Err? {
          return Err(drained.error), out';
        }
        if drained.value.Some? {
          assert [] + drained.value.value == drained.value.value;
          out' := out' + drained.value.value;
          return Ok(true), out';
        }
        var more := ReadMore();
        if more.Err? {
          return Err(more.error), out';
        }
        if !more.value {
          return Ok(false), out';
        }
      }
    }

    /** One `recv`, then everything already buffered. An error after the first message returns none of the batch:
      * `lost` is what was taken off the stream and handed to nobody. With `held` the bytes buffered when the first
      * message was out, that happens exactly when they hold a malformed frame or the closing flush fails. */
    method RecvBatch() returns (r: IoResult<Option<seq<seq<Bytes>>>>, ghost lost: seq<seq<Bytes>>,
        ghost held: Option<Bytes>,
                                ghost flushFailed: bool)
      requires Valid()
      modifies this, base, base.recv, base.decoder
      ensures Valid() && base.recv == old(base.recv) && base.options == old(base.options)
      ensures r.Ok? && r.value.Some? ==> r.value.value != [] && old(Incoming()) == r.value.value + Incoming()
      ensures r.Ok? && r.value.None? ==> Incoming() == old(Incoming()) == []
      ensures r.Err? ==> old(Incoming()) == lost + Incoming()
      ensures held.Some? <==> (r.Ok? && r.value.Some?) || lost != []
      ensures lost != [] <==> held.Some? && (Faulty(held.value) || flushFailed)
      ensures held.Some? && Faulty(held.value) ==> r == Err(InvalidData(FaultIn(held.value))) && Incoming() == []
      ensures flushFailed ==> r.Err? && held.Some? && !Faulty(held.value)
      ensures flushFailed ==>
                old(base.sendBuffer) != [] || !NoPings(ParseAll(held.value, base.decoder.maxFrameSize).frames)
      ensures BatchOutlook(old(Ahead()), old(base.sendBuffer), old(base.inbox), old(Incoming()), lost)
      ensures base.faults >= old(base.faults)
      ensures old(Sound()) && base.faults == old(base.faults) ==> r.Ok? && (r.value.Some? ==> Sound())
    {
      ghost var ahead, pending, inbox, coming := Ahead(), base.sendBuffer, base.inbox, Incoming();
      if inbox == [] {
        assert base.Unread() + inbox == base.Unread();
      }
      var first := Recv();
      lost, held, flushFailed := [], None, false;
      if first.Err? {
        return Err(first.error), [], None, false;
      }
      if first.value.None? {
        return Ok(None), [], None, false;
      }
      held := Some(base.Unread());
      BufferedFirst(base.Unread(), base.inbox, base.decoder.maxFrameSize);
      if base.inbox == [] {
        assert base.Unread() + base.inbox == base.Unread();
      }
      r, lost, flushFailed := FinishBatch(first.value.value);
    }

    predicate Faulty(held: Bytes) { ParseAll(held, base.decoder.maxFrameSize).error.Some? }

    function FaultIn(held: Bytes): ZmtpError
      requires Faulty(held)
    {
      ParseAll(held, base.decoder.maxFrameSize).error.value
    }

    /** The rest of `recv_batch`, with the first message in hand. */
    method FinishBatch(first: seq<Bytes>)
        returns (r: IoResult<Option<seq<seq<Bytes>>>>, ghost lost: seq<seq<Bytes>>, ghost flushFailed: bool)
      requires Valid()
      modifies this, base, base.recv, base.decoder
      ensures Valid() && base.recv == old(base.recv) && base.options == old(base.options)
      ensures r.Ok? ==>
                lost == [] && r.value.Some? && r.value.value != [] &&
                [first] + old(Incoming()) == r.value.value + Incoming()
      ensures r.Err? ==> lost != [] && [first] + old(Incoming()) == lost + Incoming()
      ensures r.Err? <==> old(Ready()).error.Some? || flushFailed
      ensures old(Ready()).error.Some? ==>
                r == Err(InvalidData(old(Ready()).error.value)) && Incoming() == [] && !flushFailed
      ensures flushFailed ==> old(base.sendBuffer) != [] || !NoPings(old(Ready()).frames)
      ensures base.faults >= old(base.faults) && (old(Sound()) && base.faults == old(base.faults) ==> r.Ok? && Sound())
    {
      BufferedFirst(base.Unread(), base.inbox, base.decoder.maxFrameSize);
      var batch, e := DrainBatch([first], Incoming());
      if e.Some? {
        return Err(e.value), batch, false;
      }
      var flushed := Answer();
      if flushed.Err? {
        return Err(flushed.error), batch, true;
      }
      return Ok(Some(batch)), [], false;
    }

    method DrainBatch(first: seq<seq<Bytes>>, ghost ahead: seq<seq<Bytes>>)
      returns (batch: seq<seq<Bytes>>, error: Option<IoError>)
      requires Valid() && ahead == Incoming()
      modifies this, base.recv, base.decoder, base`sendBuffer, base`buffered, base`awaitingPong
      ensures Valid() && first <= batch && first + ahead == batch + Incoming()
      ensures old(Ready()).error.None? ==> error.None?
      ensures old(Ready()).error.Some? ==> error == Some(InvalidData(old(Ready()).error.value)) && Incoming() == []
      ensures NoPings(old(Ready()).frames) ==> base.sendBuffer == old(base.sendBuffer)
      ensures Onward(old(Ahead()), Ahead())
    {
      batch := first;
      while true
        invariant Valid() && first <= batch && first + ahead == batch + Incoming()
        invariant Onward(old(Ready()), Ready()) && Onward(old(Ahead()), Ahead())
        invariant NoPings(old(Ready()).frames) ==> base.sendBuffer == old(base.sendBuffer)
        decreases |base.Unread()|
      {
        var next := TryRecv();
        if next.Err? {
          return batch, Some(next.error);
        }
        if next.value.None? {
          return batch, None;
        }
        Assoc(batch, [next.value.value], Incoming());
        batch := batch + [next.value.value];
      }
    }
  }

  /** What a caller can tell of a batch beforehand, with nothing queued to send and no PING to come: nothing is lost
    * unless a malformed frame comes, and with everything buffered, it is lost exactly if one comes after a message. */
  ghost predicate BatchOutlook(ahead: Stream, pending: Bytes, inbox: Bytes, coming: seq<seq<Bytes>>,
      lost: seq<seq<Bytes>>) {
    pending == [] && NoPings(ahead.frames) ==>
      && (ahead.error.None? ==> lost == [])
      && (inbox == [] ==> (lost != [] <==> coming != [] && ahead.error.Some?))
      && (inbox == [] && lost != [] ==> lost == coming)
  }

  lemma TakenAlone(unread: Bytes, max: nat)
    requires ParseFrame(unread, max).Parsed?
    ensures var p := ParseFrame(unread, max);
            var before, after := ParseAll(unread, max), ParseAll(unread[p.size..], max);
            Onward(before, after) && (NoPings(before.frames) ==> !IsPingFrame(p.frame))
  {
    var n := ParseFrame(unread, max).size;
    FrameTaken(unread, [], max);
    assert unread + [] == unread && unread[n..] + [] == unread[n..];
  }

  /** A message and then a malformed frame, in one read: the batch fails and the message is gone. */
  method LosingRun(m: Bytes, options: Options)
      returns (r: IoResult<Option<seq<seq<Bytes>>>>, ghost lost: seq<seq<Bytes>>)
    requires |m| <= DEFAULT_MAX_FRAME_SIZE
    ensures r.Err? && lost == [[m]]
  {
    var pull := AfterRead(WireMessage([m]) + [8, 0], options);
    r, lost := LoseOne(pull, m);
  }

  /** A new socket that has read these bytes in one go. */
  method AfterRead(bytes: Bytes, options: Options) returns (pull: PullSocket)
    ensures fresh(pull) && fresh(pull.base) && fresh(pull.base.recv) && fresh(pull.base.decoder)
    ensures pull.Valid() && pull.frames == [] && pull.base.inbox == [] && pull.base.sendBuffer == []
    ensures pull.base.Unread() == bytes && pull.base.decoder.maxFrameSize == DEFAULT_MAX_FRAME_SIZE
  {
    var base := new SocketBase(options, None, []);
    base.PushChunk(bytes);
    assert [] + bytes == bytes;
    pull := new PullSocket(base);
  }

  method LoseOne(pull: PullSocket, m: Bytes) returns (r: IoResult<Option<seq<seq<Bytes>>>>, ghost lost: seq<seq<Bytes>>)
    requires pull.Valid() && pull.frames == [] && pull.base.inbox == [] && pull.base.sendBuffer == []
    requires pull.base.Unread() == WireMessage([m]) + [8, 0] && |m| <= pull.base.decoder.maxFrameSize && |m| <= MAX_BODY
    modifies pull, pull.base, pull.base.recv, pull.base.decoder
    ensures r.Err? && lost == [[m]]
  {
    OneThenMalformed(m, pull.base.decoder.maxFrameSize);
    assert pull.base.Unread() + pull.base.inbox == pull.base.Unread();
    ghost var held, flushFailed;
    r, lost, held, flushFailed := pull.RecvBatch();
  }

  lemma OneThenMalformed(m: Bytes, max: nat)
    requires |m| <= max && |m| <= MAX_BODY
    ensures var s := WireMessage([m]) + [8, 0];
            ParseAll(s, max).error.Some? && NoPings(ParseAll(s, max).frames) && Received([], s, max) == [[m]]
  {
    var s := WireMessage([m]) + [8, 0];
    MessageParses([m], [8, 0], max);
    var f := Frame(SizedFlags(0, |m|), m);
    assert MessageFrames([m]) == [f] + MessageFrames([]);
    assert ParseAll([8, 0], max) == Stream([], [8, 0], Some(ReservedBits));
    assert ParseAll(s, max).frames == [f] + [] == [f];
    assert MessageFrames([m]) + [] == [f] && [] + [m] == [m];
    AssembleMessage([], [m], []);
    assert Assemble([], [f]).messages == [[m]] + [];
  }
}

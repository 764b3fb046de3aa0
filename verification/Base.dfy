/** `SocketBase`: the plaintext send and receive halves every socket type shares
  * (monocoque-zmtp/src/base.rs), with the poison guard of monocoque-core/src/poison.rs. */
module Base {
  import opened ByteStrings
  import opened Framing
  import opened Buffer
  import opened Codec
  import opened Encoders
  import opened Units

  datatype IoError = NotConnected | BrokenPipe | WouldBlock | TimedOut | Cancelled | Failure
      | InvalidData(error: ZmtpError)

  datatype IoResult<+T> = Ok(value: T) | Err(error: IoError)

  datatype FrameResult = Data(more: bool, payload: Bytes) | CommandHandled | NeedsMore

  /** `None`, `Some(0)` and `Some(d)` of a timeout option. */
  datatype Timeout = Unlimited | NonBlocking | Limited

  datatype Options = Options(
    sendTimeout: Timeout, recvTimeout: Timeout, heartbeat: bool,
    writeCoalescing: bool, writeCoalesceThreshold: nat, vectoredWriteThreshold: nat)

  /** How a write to the kernel can end. A cancelled future is one more way not to finish. */
  datatype WriteOutcome = Written | WriteError | WriteTimeout | WriteCancelled

  const PING_NAME: Bytes := [4, 0x50, 0x49, 0x4E, 0x47]
  const PONG_NAME: Bytes := [4, 0x50, 0x4F, 0x4E, 0x47]

  predicate IsPing(payload: Bytes) { StartsWith(payload, PING_NAME) && |payload| - |PING_NAME| <= 18 }
  predicate IsPong(payload: Bytes) { StartsWith(payload, PONG_NAME) && |payload| - |PONG_NAME| <= 16 }

  predicate IsPingFrame(f: Frame) { Command(f.flags) && IsPing(f.payload) }
  predicate IsPongFrame(f: Frame) { Command(f.flags) && IsPong(f.payload) }

  function PingBody(ttlTenths: nat): Bytes { PING_NAME + BigEndian(ttlTenths, 2) }

  /** The heartbeats a socket sends are the ones it knows: its PINGs are answered and its PONGs count, and neither is
    * taken for the other. */
  lemma HeartbeatsRecognized(ttl: nat, context: Bytes)
    ensures IsPing(PingBody(ttl)) && !IsPong(PingBody(ttl)) && IsPong(PONG_NAME) && !IsPing(PONG_NAME)
    ensures IsPing(PING_NAME + context) <==> |context| <= 18
    ensures IsPong(PONG_NAME + context) <==> |context| <= 16
  {
    assert (PING_NAME + context)[..5] == PING_NAME && (PONG_NAME + context)[..5] == PONG_NAME;
    var body := PingBody(ttl);
    assert body[..5] == PING_NAME && body[2] == 0x49 && PONG_NAME[..5] == PONG_NAME;
    assert PING_NAME[2] == 0x49 && PONG_NAME[2] == 0x4F;
  }

  lemma Buffered(us: seq<Unit>, added: seq<Unit>)
    ensures WireUnits(us + added) == WireUnits(us) + WireUnits(added)
    ensures added != [] ==> WireUnits([added[0]]) == WireUnit(added[0])
  {
    ConcatAppend(WireUnit, us, added);
    if added != [] {
      ConcatOne(WireUnit, added[0]);
    }
  }

  /** One frame off the front of `unread`, or a reason why not. */
  ghost predicate Processed(unread: Bytes, r: IoResult<FrameResult>, after: Bytes, max: nat) {
    match ParseFrame(unread, max)
    case NeedMore => r == Ok(NeedsMore) && after == unread
    case Malformed(e) => r == Err(InvalidData(e)) && after == unread
    case Parsed(f, n) =>
      after == unread[n..] && r == Ok(if Command(f.flags) then CommandHandled else Data(More(f.flags), f.payload))
  }

  class SocketBase {
    var options: Options

    // The current connection: whether there is one, the bytes the kernel has accepted on it,
    // and the bytes the peer still has to deliver on it before it closes.
    var connected: bool
    var wire: Bytes
    var inbox: Bytes

    const decoder: ZmtpDecoder
    var recv: SegmentedBuffer

    var sendBuffer: Bytes
    var writeBuf: Bytes
    var isPoisoned: bool
    var bufferedMessages: nat
    var awaitingPong: bool

    // What the bytes mean: the units wholly on the wire, the part of an interrupted write
    // that got there, and the units waiting in the two buffers.
    ghost var sent: seq<Unit>
    ghost var torn: Bytes
    ghost var buffered: seq<Unit>
    ghost var prepared: seq<Unit>
    ghost var faults: nat  // writes and reads that failed or were cut short, PONGs missed, reconnects that failed

    /** Write-path integrity: both buffers hold whole units, and so does the wire of a healthy socket. */
    ghost predicate SendInv()
      reads this`sendBuffer, this`buffered, this`writeBuf, this`prepared
      reads this`wire, this`sent, this`torn, this`isPoisoned
    {
      && sendBuffer == WireUnits(buffered) && NonEmptyUnits(buffered)
      && writeBuf == WireUnits(prepared)
      && wire == WireUnits(sent) + torn
      && (!isPoisoned ==> torn == [])
    }

    /** Connected, not poisoned and willing to wait: what a call needs to succeed unless something goes wrong. */
    ghost predicate Healthy()
      reads this`connected, this`isPoisoned, this`options
    {
      connected && !isPoisoned && !options.sendTimeout.NonBlocking? && !options.recvTimeout.NonBlocking?
    }

    ghost predicate RecvInv()
      reads this`recv, recv, decoder
    {
      recv.Valid() && decoder.Valid()
    }

    /** Received bytes that no returned frame accounts for yet. */
    ghost function Unread(): Bytes
      reads this`recv, recv, decoder
    {
      decoder.Staged() + recv.Contents()
    }

    constructor (options: Options, maxMsgSize: Option<nat>, inbox: Bytes)
      ensures SendInv() && RecvInv() && Unread() == []
      ensures this.options == options && this.inbox == inbox && decoder.maxFrameSize == FrameLimit(maxMsgSize)
      ensures connected && !isPoisoned && wire == [] && sent == [] && buffered == [] && sendBuffer == [] && faults == 0
      ensures fresh(recv) && fresh(decoder)
    {
      this.options, this.inbox := options, inbox;
      connected, wire, isPoisoned := true, [], false;
      sendBuffer, writeBuf, bufferedMessages, awaitingPong := [], [], 0, false;
      sent, torn, buffered, prepared, faults := [], [], [], [], 0;
      decoder := new ZmtpDecoder(maxMsgSize);
      recv := new SegmentedBuffer();
    }

    /** The kernel takes some prefix of the buffer, all of it only when the write completes. */
    method KernelWrite(buf: Bytes) returns (outcome: WriteOutcome, ghost n: nat)
      modifies this`wire, this`faults
      ensures n <= |buf| && wire == old(wire) + buf[..n]
      ensures outcome.Written? ==> n == |buf|
      ensures faults == old(faults) + if outcome.Written? then 0 else 1
      ensures outcome.WriteTimeout? ==> options.sendTimeout.Limited?
    {
      outcome := *;
      if outcome.WriteTimeout? && !options.sendTimeout.Limited? {
        outcome := WriteCancelled;
      }
      var taken: nat :| taken <= |buf|;
      if outcome.Written? {
        taken := |buf|;
      } else {
        faults := faults + 1;
      }
      wire := wire + buf[..taken];
      n := taken;
    }

    /** The guarded section of every write method: armed before the write, disarmed only after all of it. */
    method GuardedWrite(buf: Bytes, ghost units: seq<Unit>) returns (r: IoResult<()>)
      requires connected && !isPoisoned && wire == WireUnits(sent) && buf == WireUnits(units)
      modifies this`wire, this`isPoisoned, this`connected, this`sent, this`torn, this`faults
      ensures faults == old(faults) + if r.Ok? then 0 else 1
      ensures wire == WireUnits(sent) + torn
      ensures r.Ok? ==> sent == old(sent) + units && torn == [] && connected && !isPoisoned
      ensures r.Err? ==> sent == old(sent) && torn <= buf && isPoisoned
    {
      isPoisoned := true;
      var outcome;
      ghost var n;
      outcome, n := KernelWrite(buf);
      if !outcome.Written? {
        torn := buf[..n];
        if outcome.WriteError? {
          connected := false;
        }
        return Err(if outcome.WriteTimeout? then TimedOut else if outcome.WriteError? then Failure else Cancelled);
      }
      ConcatAppend(WireUnit, sent, units);
      assert buf[..n] == buf;
      sent, torn := sent + units, [];
      isPoisoned := false;
      return Ok(());
    }

    method FlushSendBuffer() returns (r: IoResult<()>)
      requires SendInv()
      modifies this`wire, this`isPoisoned, this`connected, this`sent, this`torn, this`faults
      modifies this`sendBuffer, this`buffered, this`bufferedMessages
      ensures SendInv()
      ensures old(isPoisoned) ==> isPoisoned && wire == old(wire) && (r.Err? || old(sendBuffer) == [])
      ensures r.Ok? ==>
                sent == old(sent + buffered) && buffered == [] && sendBuffer == [] && isPoisoned == old(isPoisoned)
      ensures r.Ok? && old(sendBuffer) != [] ==> bufferedMessages == 0
      ensures r.Err? ==> sent == old(sent)
      ensures r.Err? && !isPoisoned ==> wire == old(wire) && sendBuffer == old(sendBuffer) && buffered == old(buffered)
      ensures faults >= old(faults) && (old(Healthy()) && faults == old(faults) ==> r.Ok? && Healthy())
    {
      if sendBuffer == [] {
        NothingOnWire(buffered);
        assert sent + buffered == sent;
        return Ok(());
      }
      if isPoisoned {
        return Err(BrokenPipe);
      }
      if !connected {
        return Err(NotConnected);
      }
      if options.sendTimeout.NonBlocking? {
        return Err(WouldBlock);
      }
      var buf := sendBuffer;
      ghost var units := buffered;
      sendBuffer, buffered := [], [];
      r := GuardedWrite(buf, units);
      if r.Ok? {
        bufferedMessages := 0;
      }
    }

    method WriteFromBuf() returns (r: IoResult<()>)
      requires SendInv()
      modifies this`wire, this`isPoisoned, this`connected, this`sent, this`torn, this`faults
      modifies this`writeBuf, this`prepared
      ensures SendInv()
      ensures old(isPoisoned) ==> isPoisoned && wire == old(wire) && r.Err?
      ensures r.Ok? ==> !isPoisoned && sent == old(sent + prepared) && prepared == []
      ensures r.Err? ==> sent == old(sent)
      ensures r.Err? && !isPoisoned ==> wire == old(wire) && prepared == old(prepared)
      ensures faults >= old(faults) && (old(Healthy()) && faults == old(faults) ==> r.Ok? && Healthy())
    {
      if isPoisoned {
        return Err(BrokenPipe);
      }
      if !connected {
        return Err(NotConnected);
      }
      if options.sendTimeout.NonBlocking? {
        return Err(WouldBlock);
      }
      var buf := writeBuf;
      ghost var units := prepared;
      writeBuf, prepared := [], [];
      r := GuardedWrite(buf, units);
    }

    predicate ShouldVectoredWrite(msg: seq<Bytes>)
      reads this`options
    {
      exists i :: 0 <= i < |msg| && |msg[i]| >= options.vectoredWriteThreshold
    }

    method SendVectored(msg: seq<Bytes>) returns (r: IoResult<()>)
      requires SendInv()
      modifies this`wire, this`isPoisoned, this`connected, this`sent, this`torn, this`faults
      modifies this`sendBuffer, this`buffered, this`bufferedMessages, this`writeBuf, this`prepared
      ensures SendInv()
      ensures old(isPoisoned) ==> isPoisoned && wire == old(wire) && (r.Err? || msg == [])
      ensures r.Ok? && msg != [] ==> sent == old(sent + buffered) + AsUnits(msg) && buffered == [] && sendBuffer == []
      ensures r.Ok? ==> isPoisoned == old(isPoisoned)
      ensures msg == [] ==> r.Ok? && wire == old(wire) && sent == old(sent)
      ensures msg == [] ==> buffered == old(buffered) && sendBuffer == old(sendBuffer)
      ensures faults >= old(faults) && (old(Healthy()) && faults == old(faults) ==> r.Ok? && Healthy())
    {
      if msg == [] {
        return Ok(());
      }
      if sendBuffer != [] {
        r := FlushSendBuffer();
        if r.Err? {
          return;
        }
      } else {
        NothingOnWire(buffered);
        assert sent + buffered == sent;
      }
      r := WriteVectored(msg);
    }

    /** The vectored write itself, with nothing buffered ahead of it. */
    method WriteVectored(msg: seq<Bytes>) returns (r: IoResult<()>)
      requires SendInv() && msg != []
      modifies this`wire, this`isPoisoned, this`connected, this`sent, this`torn, this`faults
      modifies this`writeBuf, this`prepared
      ensures SendInv()
      ensures old(isPoisoned) ==> isPoisoned && wire == old(wire) && r.Err?
      ensures r.Ok? ==> sent == old(sent) + AsUnits(msg) && isPoisoned == old(isPoisoned)
      ensures faults >= old(faults) && (old(Healthy()) && faults == old(faults) ==> r.Ok? && Healthy())
    {
      if isPoisoned {
        return Err(BrokenPipe);
      }
      if options.sendTimeout.NonBlocking? {
        return Err(WouldBlock);
      }
      // The headers are built in `writeBuf` and split off again, which leaves it empty.
      writeBuf, prepared := [], [];
      var iovecs := BuildIovecs(msg);
      if !connected {
        return Err(NotConnected);
      }
      WireAsUnits(msg);
      r := GuardedWrite(Flatten(iovecs), AsUnits(msg));
    }

    method EncodeMessageToWriteBuf(msg: seq<Bytes>)
      requires SendInv()
      modifies this`writeBuf, this`prepared
      ensures SendInv() && prepared == AsUnits(msg)
    {
      WireAsUnits(msg);
      prepared := AsUnits(msg);
      writeBuf := EncodeMultipart(msg, []);
    }

    method EncodeMessageToSendBuf(msg: seq<Bytes>)
      requires SendInv()
      modifies this`sendBuffer, this`buffered, this`bufferedMessages
      ensures SendInv() && buffered == old(buffered) + AsUnits(msg) && bufferedMessages == old(bufferedMessages) + 1
    {
      AppendMessage(msg);
      bufferedMessages := bufferedMessages + 1;
    }

    method SendCoalesced(msg: seq<Bytes>) returns (r: IoResult<()>)
      requires SendInv()
      modifies this`wire, this`isPoisoned, this`connected, this`sent, this`torn, this`faults
      modifies this`sendBuffer, this`buffered, this`bufferedMessages
      ensures SendInv()
      ensures old(isPoisoned) ==> isPoisoned && wire == old(wire)
      ensures r.Ok? ==> sent + buffered == old(sent + buffered) + AsUnits(msg) && isPoisoned == old(isPoisoned)
      ensures r.Ok? && |old(sendBuffer)| + |WireMessage(msg)| < options.writeCoalesceThreshold ==> sent == old(sent)
      ensures r.Ok? && |old(sendBuffer)| + |WireMessage(msg)| >= options.writeCoalesceThreshold ==> sendBuffer == []
      ensures faults >= old(faults) && (old(Healthy()) && faults == old(faults) ==> r.Ok? && Healthy())
    {
      Assoc(sent, buffered, AsUnits(msg));
      AppendMessage(msg);
      if |sendBuffer| >= options.writeCoalesceThreshold {
        r := FlushSendBuffer();
        return;
      }
      return Ok(());
    }

    method AppendMessage(msg: seq<Bytes>)
      requires SendInv()
      modifies this`sendBuffer, this`buffered
      ensures SendInv() && buffered == old(buffered) + AsUnits(msg) && sendBuffer == old(sendBuffer) + WireMessage(msg)
    {
      Buffered(buffered, AsUnits(msg));
      WireAsUnits(msg);
      buffered := buffered + AsUnits(msg);
      sendBuffer := EncodeMultipart(msg, sendBuffer);
    }

    /** Returns whether the caller should flush. */
    method EncodeOneCoalesced(frame: Bytes) returns (full: bool)
      requires SendInv()
      modifies this`sendBuffer, this`buffered
      ensures SendInv() && buffered == old(buffered) + [Message([frame])]
      ensures sendBuffer == old(sendBuffer) + WireMessage([frame])
      ensures full <==> |sendBuffer| >= options.writeCoalesceThreshold
    {
      Buffered(buffered, [Message([frame])]);
      buffered := buffered + [Message([frame])];
      sendBuffer := EncodeSingle(frame, sendBuffer);
      full := |sendBuffer| >= options.writeCoalesceThreshold;
    }

    /** Queues a PING when the connection has been idle, or gives up on a PONG that is overdue. What the clock says is
      * given. */
    method CheckHeartbeat(idle: bool, overdue: bool) returns (r: IoResult<bool>)
      requires SendInv()
      modifies this`sendBuffer, this`buffered, this`awaitingPong, this`connected, this`faults
      ensures SendInv() && faults == old(faults) + if r.Err? then 1 else 0
      ensures r == Ok(true) <==> options.heartbeat && !old(awaitingPong) && idle
      ensures r.Err? <==> options.heartbeat && old(awaitingPong) && overdue
      ensures r == Ok(true) ==> exists ttl: nat :: buffered == old(buffered) + [CommandFrame(PingBody(ttl))]
      ensures r != Ok(true) ==> buffered == old(buffered) && sendBuffer == old(sendBuffer)
      ensures r == Ok(true) ==> awaitingPong
      ensures r == Ok(false) ==> awaitingPong == old(awaitingPong)
      ensures r.Err? ==> !awaitingPong && r == Err(TimedOut) && !connected
      ensures r.Ok? ==> connected == old(connected)
    {
      if !options.heartbeat {
        return Ok(false);
      }
      if awaitingPong {
        if overdue {
          connected, awaitingPong, faults := false, false, faults + 1;
          return Err(TimedOut);
        }
        return Ok(false);
      }
      if idle {
        var ttlTenths: nat :| ttlTenths < 0x1_0000;
        var ping := EncodeFrame(4, PingBody(ttlTenths));
        Buffered(buffered, [CommandFrame(PingBody(ttlTenths))]);
        buffered := buffered + [CommandFrame(PingBody(ttlTenths))];
        sendBuffer, awaitingPong := sendBuffer + ping, true;
        return Ok(true);
      }
      return Ok(false);
    }

    /** Decodes one frame; commands are handled here, and a PING queues the PONG that answers it. */
    method ProcessFrame() returns (r: IoResult<FrameResult>)
      requires SendInv() && RecvInv()
      modifies recv, decoder, this`sendBuffer, this`buffered, this`awaitingPong
      ensures SendInv() && RecvInv()
      ensures var p := ParseFrame(old(Unread()), decoder.maxFrameSize);
              && Processed(old(Unread()), r, Unread(), decoder.maxFrameSize)
              && (!(p.Parsed? && IsPingFrame(p.frame)) ==> sendBuffer == old(sendBuffer))
              && (p.NeedMore? ==> (decoder.pendingFlags.Some? <==> InsideBody(Unread())))
              && awaitingPong == (old(awaitingPong) && !(p.Parsed? && IsPongFrame(p.frame)))
              && buffered == old(buffered) + if p.Parsed? && IsPingFrame(p.frame) then [CommandFrame(PONG_NAME)] else []
    {
      var d := decoder.Decode(recv);
      assert buffered + [] == buffered;
      match d
      case NoFrame => return Ok(NeedsMore);
      case Failed(e) => return Err(InvalidData(e));
      case OneFrame(f) =>
        if !Command(f.flags) {
          return Ok(Data(More(f.flags), f.payload));
        }
        if IsPing(f.payload) {
          var pong := EncodeFrame(4, PONG_NAME);
          Buffered(buffered, [CommandFrame(PONG_NAME)]);
          buffered := buffered + [CommandFrame(PONG_NAME)];
          sendBuffer := sendBuffer + pong;
        }
        if IsPong(f.payload) {
          awaitingPong := false;
        }
        return Ok(CommandHandled);
    }

    /** Reads whatever the peer's bytes happen to be chunked into; 0 is the end of the stream. */
    method ReadRaw() returns (r: IoResult<nat>)
      requires RecvInv()
      modifies recv, this`inbox, this`connected, this`faults
      ensures RecvInv() && faults >= old(faults)
      ensures old(Healthy()) && faults == old(faults) ==> r.Ok? && (r.value > 0 ==> Healthy())
      ensures Unread() + inbox == old(Unread() + inbox)
      ensures r == Ok(0) ==> inbox == [] && Unread() == old(Unread())
      ensures r.Ok? && r.value > 0 ==> |inbox| < old(|inbox|)
      ensures r.Err? ==> Unread() == old(Unread()) && inbox == old(inbox)
    {
      if !connected {
        return Err(NotConnected);
      }
      if options.recvTimeout.NonBlocking? {
        return Err(WouldBlock);
      }
      var failed: bool := *;
      if failed {
        faults := faults + 1;
        return Err(if options.recvTimeout.Limited? then TimedOut else Failure);
      }
      if inbox == [] {
        connected := false;
        return Ok(0);
      }
      var n: nat :| 0 < n <= |inbox|;
      var chunk, later := inbox[..n], inbox[n..];
      assert inbox == chunk + later;
      Assoc(Unread(), chunk, later);
      PushChunk(chunk);
      inbox := later;
      return Ok(n);
    }

    method PushChunk(chunk: Bytes)
      requires RecvInv()
      modifies recv
      ensures RecvInv() && Unread() == old(Unread()) + chunk
    {
      Assoc(decoder.Staged(), recv.Contents(), chunk);
      recv.Push(chunk);
    }

    /** A successful reconnect starts a fresh connection and clears the poison flag. Only `recv` and the send
      * buffer start afresh with it: the decoder keeps what it had staged. */
    method TryReconnect(newInbox: Bytes) returns (r: IoResult<()>)
      requires SendInv() && RecvInv()
      modifies this`connected, this`wire, this`inbox, this`recv, this`sendBuffer, this`isPoisoned
      modifies this`bufferedMessages, this`awaitingPong, this`sent, this`torn, this`buffered, this`faults
      ensures SendInv() && RecvInv() && faults == old(faults) + if r.Ok? then 0 else 1
      ensures r.Ok? ==> connected && !isPoisoned && wire == [] && sendBuffer == [] && sent == [] && inbox == newInbox
      ensures r.Ok? ==> fresh(recv) && recv.Contents() == [] && Unread() == decoder.Staged()
      ensures r.Err? ==> recv == old(recv) && unchanged(recv)
      ensures r.Err? ==> connected == old(connected) && wire == old(wire) && inbox == old(inbox)
      ensures r.Err? ==>
                sendBuffer == old(sendBuffer) && isPoisoned == old(isPoisoned) && awaitingPong == old(awaitingPong)
      ensures r.Err? ==> bufferedMessages == old(bufferedMessages) && sent == old(sent) && buffered == old(buffered)
    {
      var reachable: bool := *;
      if !reachable {
        faults := faults + 1;
        return Err(Failure);
      }
      ResetSendHalf();
      connected, inbox, awaitingPong := true, newInbox, false;
      recv := new SegmentedBuffer();
      return Ok(());
    }

    method ResetSendHalf()
      requires SendInv()
      modifies this`wire, this`sendBuffer, this`isPoisoned, this`bufferedMessages, this`sent, this`torn, this`buffered
      ensures SendInv() && !isPoisoned && wire == [] && sendBuffer == [] && sent == []
    {
      wire, isPoisoned, sendBuffer, bufferedMessages := [], false, [], 0;
      sent, torn, buffered := [], [], [];
    }
  }

  datatype WriteOp =
    | EncodeToWriteBuf(msg: seq<Bytes>) | EncodeToSendBuf(msg: seq<Bytes>) | EncodeOne(frame: Bytes)
    | Coalesce(msg: seq<Bytes>) | Vectored(msg: seq<Bytes>) | WriteOut | Flush
    | Heartbeat(idle: bool, overdue: bool) | Process | SetOptions(options: Options) | Reconnect(inbox: Bytes)

  /** Any run of the write methods and option changes, whatever each write does: a healthy socket has put only whole
    * units on its connection, and a poisoned one writes nothing more until a reconnect succeeds. */
  method AnyWriteRun(s: SocketBase, run: seq<WriteOp>)
    requires s.SendInv() && s.RecvInv()
    modifies s, s.recv, s.decoder
    ensures s.SendInv() && s.RecvInv()
    ensures !s.isPoisoned ==> s.wire == WireUnits(s.sent)
    ensures old(s.isPoisoned) && (forall i :: 0 <= i < |run| ==> !run[i].Reconnect?) ==>
              s.isPoisoned && s.wire == old(s.wire)
  {
    for i := 0 to |run|
      invariant s.SendInv() && s.RecvInv()
      invariant s.recv == old(s.recv) || fresh(s.recv)
      invariant old(s.isPoisoned) && (forall j :: 0 <= j < i ==> !run[j].Reconnect?) ==>
                s.isPoisoned && s.wire == old(s.wire)
    {
      if run[i].Reconnect? {
        var _ := s.TryReconnect(run[i].inbox);
      } else {
        OneWrite(s, run[i]);
      }
    }
  }

  method OneWrite(s: SocketBase, op: WriteOp)
    requires s.SendInv() && s.RecvInv() && !op.Reconnect?
    modifies s, s.recv, s.decoder
    ensures s.SendInv() && s.RecvInv() && s.recv == old(s.recv)
    ensures old(s.isPoisoned) ==> s.isPoisoned && s.wire == old(s.wire)
  {
    if Prepares(op) {
      OnePreparation(s, op);
    } else {
      match op {
        case Coalesce(msg) => var _ := s.SendCoalesced(msg);
        case Vectored(msg) => var _ := s.SendVectored(msg);
        case WriteOut => var _ := s.WriteFromBuf();
        case Flush => var _ := s.FlushSendBuffer();
      }
    }
  }

  predicate Prepares(op: WriteOp) {
    !op.Reconnect? && !op.Coalesce? && !op.Vectored? && !op.WriteOut? && !op.Flush?
  }

  method OnePreparation(s: SocketBase, op: WriteOp)
    requires s.SendInv() && s.RecvInv() && Prepares(op)
    modifies s, s.recv, s.decoder
    ensures s.SendInv() && s.RecvInv() && s.recv == old(s.recv)
    ensures s.isPoisoned == old(s.isPoisoned) && s.wire == old(s.wire)
  {
    match op {
      case EncodeToWriteBuf(msg) => s.EncodeMessageToWriteBuf(msg);
      case EncodeToSendBuf(msg) => s.EncodeMessageToSendBuf(msg);
      case EncodeOne(frame) => var _ := s.EncodeOneCoalesced(frame);
      case Heartbeat(idle, overdue) => var _ := s.CheckHeartbeat(idle, overdue);
      case Process => var _ := s.ProcessFrame();
      case SetOptions(options) => s.options := options;
    }
  }

  /** A stream that breaks off inside a frame body, and a reconnect. Unless something fails on the way, the socket then
    * takes the new stream's first byte for the old frame's body, and is out of step with it. */
  method StaleRun(options: Options, t: Bytes) returns (s: SocketBase, r: IoResult<()>)
    ensures s.faults == 0 ==> r.Ok?
    ensures r.Ok? ==> s.inbox == t && s.Unread() == [0, 1] && !Aligned(s.decoder)
  {
    s := new SocketBase(options, None, []);
    s.PushChunk([0, 1]);
    assert s.Unread() == [0, 1];
    OneByteShort(s.decoder.maxFrameSize);
    var _ := s.ProcessFrame();
    r := s.TryReconnect(t);
    AlignedIffNothingStaged(s.decoder);
  }

  /** A header that announces one byte, and no body. */
  lemma OneByteShort(max: nat)
    requires max >= 1
    ensures ParseFrame([0, 1], max).NeedMore? && InsideBody([0, 1])
  {
    var s: Bytes := [0, 1];
    assert s[1..HeaderLen(0)] == [1] && [1][..0] == [];
    assert FromBigEndian([1]) == 256 * FromBigEndian([]) + 1;
  }

  /** A command frame read by an idle socket is processed whole. */
  lemma CommandParsed(body: Bytes, max: nat)
    requires |body| <= max && |body| <= MAX_BODY
    ensures var p := ParseFrame(WireUnit(CommandFrame(body)), max);
            p.Parsed? && Command(p.frame.flags) && p.frame.payload == body && p.size == |WireUnit(CommandFrame(body))|
  {
    FrameRoundTrip(4, body, [], max);
    assert WireFrame(4, body) + [] == WireFrame(4, body);
  }

  /** One socket's PING makes its peer queue a PONG, and that PONG ends the socket's wait. */
  method HeartbeatExchange(a: SocketBase, b: SocketBase, ttl: nat)
    requires a != b && a.recv != b.recv && a.decoder != b.decoder
    requires a.SendInv() && a.RecvInv() && a.Unread() == [] && a.decoder.maxFrameSize >= 7
    requires b.SendInv() && b.RecvInv() && b.Unread() == [] && b.decoder.maxFrameSize >= 7
    modifies a, a.recv, a.decoder, b, b.recv, b.decoder
    ensures b.buffered == old(b.buffered) + [CommandFrame(PONG_NAME)] && !a.awaitingPong
  {
    Hears(b, PingBody(ttl));
    HeartbeatsRecognized(ttl, []);
    Hears(a, PONG_NAME);
  }

  method Hears(s: SocketBase, body: Bytes)
    requires s.SendInv() && s.RecvInv() && s.Unread() == [] && |body| <= 7 <= s.decoder.maxFrameSize
    modifies s`sendBuffer, s`buffered, s`awaitingPong, s.recv, s.decoder
    ensures s.SendInv() && s.RecvInv() && s.Unread() == []
    ensures s.buffered == old(s.buffered) + if IsPing(body) then [CommandFrame(PONG_NAME)] else []
    ensures s.awaitingPong == (old(s.awaitingPong) && !IsPong(body))
  {
    var wire := WireUnit(CommandFrame(body));
    s.PushChunk(wire);
    assert [] + wire == wire;
    CommandParsed(body, s.decoder.maxFrameSize);
    var _ := s.ProcessFrame();
  }
}

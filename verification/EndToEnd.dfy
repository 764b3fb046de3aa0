/** From PUSH to PULL: any mix of send calls, cut into any reads, received by any mix of receive calls. */
module EndToEnd {
  import opened ByteStrings
  import opened Codec
  import opened Units
  import opened Base
  import opened Push
  import opened Pull

  datatype SendCall = CallSend(msg: seq<Bytes>) | CallSendOne(frame: Bytes) | CallSendBatch(msgs: seq<seq<Bytes>>)

  datatype RecvCall = CallRecv | CallTryRecv | CallRecvInto(out: seq<Bytes>) | CallTryRecvInto(out: seq<Bytes>)
      | CallRecvBatch

  function UnitsSent(call: SendCall): seq<Unit> {
    match call
    case CallSend(msg) => AsUnits(msg)
    case CallSendOne(frame) => [Message([frame])]
    case CallSendBatch(msgs) => AllUnits(msgs)
  }

  /** The non-empty messages a list of send calls passes on, in order. */
  function MessagesSent(calls: seq<SendCall>): seq<seq<Bytes>> { MessagesOf(Concat(UnitsSent, calls)) }

  /** Every message fits the receiver's frame limit, and so do the PINGs if the sender sends any. */
  predicate WithinLimit(calls: seq<SendCall>, options: Options, max: nat) {
    (options.heartbeat ==> max >= 7) && forall i :: 0 <= i < |calls| ==> UnitsFit(UnitsSent(calls[i]), max)
  }

  lemma {:induction false} NoMessagesInHeartbeats(us: seq<Unit>, beats: bool)
    requires forall i :: 0 <= i < |us| ==> IsHeartbeat(us[i], beats)
    ensures MessagesOf(us) == []
  {
    if us == [] {
    } else {
      assert IsHeartbeat(us[0], beats);
      NoMessagesInHeartbeats(us[1..], beats);
    }
  }

  lemma GrewMessages(before: seq<Unit>, added: seq<Unit>, after: seq<Unit>, beats: bool, max: nat)
    requires Grew(before, added, after, beats)
    ensures MessagesOf(after) == MessagesOf(before) + MessagesOf(added)
    ensures UnitsFit(before, max) && UnitsFit(added, max) && (beats ==> max >= 7) ==> UnitsFit(after, max)
  {
    var n := |before + added|;
    var extra := after[n..];
    assert after == before + added + extra;
    ConcatAppend(MessageOf, before, added);
    ConcatAppend(MessageOf, before + added, extra);
    assert forall i :: 0 <= i < |extra| ==> extra[i] == after[n + i];
    NoMessagesInHeartbeats(extra, beats);
  }

  /** What a socket has accepted, against the calls that succeeded so far. */
  ghost predicate SendProgress(push: PushSocket, done: seq<SendCall>, max: nat)
    reads push.base
  {
    && push.base.SendInv() && !push.base.isPoisoned
    && MessagesOf(push.Outgoing()) == MessagesSent(done)
    && (WithinLimit(done, push.base.options, max) ==> UnitsFit(push.Outgoing(), max))
    && (!push.base.options.writeCoalescing ==> push.base.sendBuffer == [])
  }

  lemma ProgressStep(before: seq<Unit>, call: SendCall, after: seq<Unit>, done: seq<SendCall>, options: Options,
      max: nat)
    requires Grew(before, UnitsSent(call), after, options.heartbeat)
    requires MessagesOf(before) == MessagesSent(done)
    requires WithinLimit(done, options, max) ==> UnitsFit(before, max)
    ensures MessagesOf(after) == MessagesSent(done + [call])
    ensures WithinLimit(done + [call], options, max) ==> UnitsFit(after, max)
  {
    GrewMessages(before, UnitsSent(call), after, options.heartbeat, max);
    ConcatAppend(UnitsSent, done, [call]);
    ConcatOne(UnitsSent, call);
    ConcatAppend(MessageOf, Concat(UnitsSent, done), UnitsSent(call));
    if WithinLimit(done + [call], options, max) {
      assert (done + [call])[|done|] == call;
      assert forall i :: 0 <= i < |done| ==> (done + [call])[i] == done[i];
    }
  }

  method MakeSendCall(push: PushSocket, call: SendCall, ghost done: seq<SendCall>, ghost max: nat) returns (ok: bool)
    requires SendProgress(push, done, max)
    modifies push.base
    ensures push.base.options == old(push.base.options) && push.base.faults >= old(push.base.faults)
    ensures old(push.base.Healthy()) && push.base.faults == old(push.base.faults) ==> ok && push.base.Healthy()
    ensures ok ==> SendProgress(push, done + [call], max)
  {
    ghost var before := push.Outgoing();
    NothingOnWire(push.base.buffered);
    match call {
      case CallSend(msg) =>
        var r := push.Send(msg);
        ok := r.Ok?;
      case CallSendOne(frame) =>
        var r := push.SendOne(frame);
        ok := r.Ok?;
      case CallSendBatch(msgs) =>
        var r := push.SendBatch(msgs);
        ok := r.Ok?;
    }
    if ok {
      ProgressStep(before, call, push.Outgoing(), done, push.base.options, max);
    }
  }

  /** Any mix of send calls under fixed options, then a flush. When all of them succeed, the wire holds
    * exactly their messages, in call order. */
  method SendAll(push: PushSocket, calls: seq<SendCall>, ghost max: nat) returns (ok: bool)
    requires SendProgress(push, [], max)
    modifies push.base
    ensures push.base.options == old(push.base.options) && push.base.faults >= old(push.base.faults)
    ensures old(push.base.Healthy()) && push.base.faults == old(push.base.faults) ==> ok
    ensures ok ==> push.base.wire == WireUnits(push.base.sent) && MessagesOf(push.base.sent) == MessagesSent(calls)
    ensures ok && WithinLimit(calls, push.base.options, max) ==> UnitsFit(push.base.sent, max)
  {
    for i := 0 to |calls|
      invariant SendProgress(push, calls[..i], max) && push.base.options == old(push.base.options)
      invariant push.base.faults >= old(push.base.faults)
      invariant old(push.base.Healthy()) && push.base.faults == old(push.base.faults) ==> push.base.Healthy()
    {
      assert calls[..i + 1] == calls[..i] + [calls[i]];
      ok := MakeSendCall(push, calls[i], calls[..i], max);
      if !ok {
        return;
      }
    }
    assert calls[..|calls|] == calls;
    var flushed := push.Flush();
    ok := flushed.Ok?;
  }

  /** What a receive call does to the messages to come: it hands some over and, when it fails, may drop some. */
  ghost predicate Outcome(before: seq<seq<Bytes>>, got: seq<seq<Bytes>>, lost: seq<seq<Bytes>>, after: seq<seq<Bytes>>,
                          failed: bool, ended: bool) {
    && before == got + lost + after
    && (failed ==> got == [])
    && (lost != [] ==> failed)
    && (ended ==> !failed && got == [] && after == [])
  }

  /** Without a new fault, a call on a sound socket does not fail, and the socket stays sound as long as messages are
    * to come. */
  ghost predicate Unhindered(sound: bool, faults: nat, pull: PullSocket, failed: bool)
    reads pull, pull.base, pull.base.recv, pull.base.decoder
  {
    pull.base.faults >= faults
        && (sound && pull.base.faults == faults ==> !failed && (pull.Sound() || pull.Incoming() == []))
  }

  /** One receive call: the messages it hands over, whether it failed, whether it saw the end of the stream, and the
    * messages it took off the stream and dropped, which only a failed `recv_batch` does. */
  method MakeRecvCall(pull: PullSocket, call: RecvCall)
    returns (got: seq<seq<Bytes>>, failed: bool, ended: bool, ghost lost: seq<seq<Bytes>>)
    requires pull.Valid()
    modifies pull, pull.base, pull.base.recv, pull.base.decoder
    ensures pull.Valid() && pull.base.recv == old(pull.base.recv)
    ensures Outcome(old(pull.Incoming()), got, lost, pull.Incoming(), failed, ended)
    ensures Unhindered(old(pull.Sound()), old(pull.base.faults), pull, failed)
    ensures Blocking(call) && !failed && got == [] ==> pull.Incoming() == []
    ensures !Blocking(call) ==> (got == [] <==> old(pull.Buffered()) == [])
    ensures lost != [] ==> call.CallRecvBatch?
  {
    if Blocking(call) {
      got, failed, ended, lost := MakeBlockingCall(pull, call);
    } else {
      got, failed := MakeTryCall(pull, call);
      ended, lost := false, [];
      assert got + [] == got;
    }
  }

  method MakeTryCall(pull: PullSocket, call: RecvCall) returns (got: seq<seq<Bytes>>, failed: bool)
    requires pull.Valid() && !Blocking(call)
    modifies pull, pull.base, pull.base.recv, pull.base.decoder
    ensures pull.Valid() && pull.base.recv == old(pull.base.recv)
    ensures old(pull.Incoming()) == got + pull.Incoming() && (failed ==> got == [])
    ensures got == [] <==> old(pull.Buffered()) == []
    ensures Unhindered(old(pull.Sound()), old(pull.base.faults), pull, failed)
  {
    got := [];
    match call {
      case CallTryRecv =>
        var r := pull.TryRecv();
        if r.Ok? && r.value.Some? { got := [r.value.value]; }
        failed := r.Err?;
      case CallTryRecvInto(out) =>
        var r, out' := pull.TryRecvInto(out);
        if r.Ok? && r.value { got := [out']; }
        failed := r.Err?;
    }
    assert [] + pull.Incoming() == pull.Incoming();
  }

  method MakeBlockingCall(pull: PullSocket, call: RecvCall)
    returns (got: seq<seq<Bytes>>, failed: bool, ended: bool, ghost lost: seq<seq<Bytes>>)
    requires pull.Valid() && Blocking(call)
    modifies pull, pull.base, pull.base.recv, pull.base.decoder
    ensures pull.Valid() && pull.base.recv == old(pull.base.recv)
    ensures Outcome(old(pull.Incoming()), got, lost, pull.Incoming(), failed, ended)
    ensures Unhindered(old(pull.Sound()), old(pull.base.faults), pull, failed)
    ensures !failed && got == [] ==> pull.Incoming() == []
    ensures lost != [] ==> call.CallRecvBatch?
  {
    got, lost := [], [];
    match call {
      case CallRecv =>
        var r := pull.Recv();
        if r.Ok? && r.value.Some? { got := [r.value.value]; }
        failed, ended := r.Err?, r == Ok(None);
      case CallRecvInto(out) =>
        var r, out' := pull.RecvInto(out);
        if r.Ok? && r.value { got := [out']; }
        failed, ended := r.Err?, r.Ok? && !r.value;
      case CallRecvBatch =>
        var r;
        ghost var dropped, held, flushFailed;
        r, dropped, held, flushFailed := pull.RecvBatch();
        if r.Ok? && r.value.Some? { got := r.value.value; }
        failed, ended, lost := r.Err?, r == Ok(None), dropped;
    }
    Empties(got, lost, pull.Incoming());
  }

  /** The calls that wait for a message. */
  predicate Blocking(call: RecvCall) { call.CallRecv? || call.CallRecvInto? || call.CallRecvBatch? }

  function BlockingCalls(calls: seq<RecvCall>): nat {
    if calls == [] then 0
    else BlockingCalls(calls[..|calls| - 1]) + (if Blocking(calls[|calls| - 1]) then 1 else 0)
  }

  lemma Empties(got: seq<seq<Bytes>>, lost: seq<seq<Bytes>>, rest: seq<seq<Bytes>>)
    ensures lost == [] ==> got + lost + rest == got + rest
    ensures got == [] ==> got + lost + rest == lost + rest
  {
    assert got + [] == got && [] + lost == lost;
  }

  /** Any interleaving of the receive calls, up to the first that fails: the stream's messages are those handed over,
    * then those a failed batch dropped, then those still to come, in order. Nothing else is lost or repeated. */
  method ReceiveAll(pull: PullSocket, calls: seq<RecvCall>)
    returns (got: seq<seq<Bytes>>, failed: bool, ended: bool, ghost lost: seq<seq<Bytes>>)
    requires pull.Valid()
    modifies pull, pull.base, pull.base.recv, pull.base.decoder
    ensures pull.Valid()
    ensures old(pull.Incoming()) == got + lost + pull.Incoming()
    ensures !failed || CallRecvBatch !in calls ==> lost == []
    ensures ended && !failed ==> got == old(pull.Incoming())
    ensures pull.base.faults >= old(pull.base.faults)
    ensures old(pull.Sound()) && pull.base.faults == old(pull.base.faults)
              && BlockingCalls(calls) > |old(pull.Incoming())| ==>
              got == old(pull.Incoming()) && lost == []
  {
    ghost var all, sound, faults := pull.Incoming(), pull.Sound(), pull.base.faults;
    got, failed, ended, lost := [], false, false, [];
    for i := 0 to |calls|
      invariant pull.Valid() && pull.base.recv == old(pull.base.recv) && !failed && lost == []
      invariant all == got + pull.Incoming()
      invariant ended ==> pull.Incoming() == []
      invariant Unhindered(sound, faults, pull, false)
      invariant |got| >= BlockingCalls(calls[..i]) || pull.Incoming() == []
    {
      ghost var dropped;
      var some, e, end;
      some, e, end, dropped := MakeRecvCall(pull, calls[i]);
      Regroup(got, some, dropped, pull.Incoming());
      BlockingCallsAt(calls, i);
      got, failed, ended, lost := got + some, e, ended || end, dropped;
      if failed {
        return;
      }
    }
    assert got + [] == got && calls[..|calls|] == calls;
  }

  lemma BlockingCallsAt(calls: seq<RecvCall>, i: nat)
    requires i < |calls|
    ensures BlockingCalls(calls[..i + 1]) == BlockingCalls(calls[..i]) + (if Blocking(calls[i]) then 1 else 0)
  {
    assert calls[..i + 1][..i] == calls[..i];
  }

  lemma Regroup(got: seq<seq<Bytes>>, some: seq<seq<Bytes>>, dropped: seq<seq<Bytes>>, rest: seq<seq<Bytes>>)
    ensures got + (some + dropped + rest) == got + some + dropped + rest
    ensures dropped == [] ==> got + some + dropped + rest == got + some + rest
  {
  }

  predicate Waits(options: Options) { !options.sendTimeout.NonBlocking? && !options.recvTimeout.NonBlocking? }

  /** The pipeline: what the receive calls return is a prefix of the messages sent, in order, whether or not one of
    * them fails, and all of them once the end of the stream has been reported. When nothing goes wrong on either
    * connection and neither side has a zero timeout, every send succeeds, and more blocking receive calls than there
    * are messages return all of them. */
  method Pipeline(options: Options, recvOptions: Options, maxMsgSize: Option<nat>, sends: seq<SendCall>,
      receives: seq<RecvCall>)
    returns (got: seq<seq<Bytes>>, sentOk: bool, failed: bool, ended: bool, ghost faults: nat)
    requires WithinLimit(sends, options, FrameLimit(maxMsgSize))
    ensures sentOk ==> got <= MessagesSent(sends)
    ensures sentOk && !failed && ended ==> got == MessagesSent(sends)
    ensures faults == 0 && Waits(options) ==> sentOk
    ensures faults == 0 && Waits(options) && Waits(recvOptions) && BlockingCalls(receives) > |MessagesSent(sends)| ==>
              got == MessagesSent(sends)
  {
    var sender := new SocketBase(options, maxMsgSize, []);
    var push := new PushSocket(sender);
    ghost var max := FrameLimit(maxMsgSize);
    assert push.Outgoing() == [];
    sentOk := SendAll(push, sends, max);
    faults := sender.faults;
    if !sentOk {
      return [], false, false, false, faults;
    }
    ghost var more;
    got, failed, ended, more := ReceiveWire(recvOptions, maxMsgSize, sender.wire, sender.sent, receives);
    faults := faults + more;
  }

  /** The receiving end of the pipeline, on a connection that delivers the wire form of `units` and closes. */
  method ReceiveWire(options: Options, maxMsgSize: Option<nat>, wire: Bytes, ghost units: seq<Unit>,
                     receives: seq<RecvCall>)
    returns (got: seq<seq<Bytes>>, failed: bool, ended: bool, ghost faults: nat)
    requires wire == WireUnits(units) && UnitsFit(units, FrameLimit(maxMsgSize))
    ensures got <= MessagesOf(units)
    ensures !failed && ended ==> got == MessagesOf(units)
    ensures faults == 0 && Waits(options) && BlockingCalls(receives) > |MessagesOf(units)| ==> got == MessagesOf(units)
  {
    WireDelivers(units, FrameLimit(maxMsgSize));
    UnitsParse(units, FrameLimit(maxMsgSize));
    var receiver := new SocketBase(options, maxMsgSize, wire);
    var pull := new PullSocket(receiver);
    assert receiver.Unread() + receiver.inbox == wire;
    ghost var lost;
    got, failed, ended, lost := ReceiveAll(pull, receives);
    faults := receiver.faults;
  }
}

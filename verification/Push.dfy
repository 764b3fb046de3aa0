/** The PUSH socket's send paths (monocoque-zmtp/src/push.rs). */
module Push {
  import opened ByteStrings
  import opened Framing
  import opened Units
  import opened Base

  /** A PING, which only a socket with heartbeats enabled sends. */
  ghost predicate IsHeartbeat(u: Unit, beats: bool) {
    beats && u.CommandFrame? && exists ttl: nat :: u.body == PingBody(ttl)
  }

  /** `after` is `before` with `added` behind it and then at most heartbeats, where the socket sends any. */
  ghost predicate Grew(before: seq<Unit>, added: seq<Unit>, after: seq<Unit>, beats: bool) {
    before + added <= after && forall i :: |before + added| <= i < |after| ==> IsHeartbeat(after[i], beats)
  }

  lemma GrewOnly(accepted: seq<Unit>, after: seq<Unit>, beats: bool)
    requires Grew(accepted, [], after, beats)
    ensures forall before, added :: before + added == accepted ==> Grew(before, added, after, beats)
  {
    forall before, added | before + added == accepted
      ensures Grew(before, added, after, beats)
    {
      assert accepted + [] == accepted;
    }
  }

  lemma OnePing(sent: seq<Unit>, buffered: seq<Unit>, ttl: nat)
    ensures Grew(sent + buffered, [], sent + (buffered + [CommandFrame(PingBody(ttl))]), true)
  {
    var ping := CommandFrame(PingBody(ttl));
    Assoc(sent, buffered, [ping]);
    assert sent + buffered + [] == sent + buffered && IsHeartbeat(ping, true);
  }

  predicate AllEqual(us: seq<Unit>, u: Unit) {
    forall i :: 0 <= i < |us| ==> us[i] == u
  }

  lemma {:induction false} Commutes(us: seq<Unit>, u: Unit)
    ensures [u] + us == us + [u] <==> AllEqual(us, u)
  {
    if us == [] {
    } else {
      var rest := us[1..];
      Commutes(rest, u);
      assert us == [us[0]] + rest;
      assert forall i :: 0 < i < |us| ==> us[i] == rest[i - 1];
      assert ([u] + us)[1..] == us && (us + [u])[1..] == rest + [u];
      if [u] + us == us + [u] {
        assert us[0] == ([u] + us)[0];
      }
    }
  }

  /** A unit that went out ahead of the buffered ones is in its place exactly when it makes no difference. */
  lemma Overtaken(sent: seq<Unit>, u: Unit, buffered: seq<Unit>, after: seq<Unit>, beats: bool)
    requires Grew(sent + [u], buffered, after, beats)
    ensures Grew(sent + buffered, [u], after, beats) <==> AllEqual(buffered, u)
  {
    Commutes(buffered, u);
    Assoc(sent, [u], buffered);
    Assoc(sent, buffered, [u]);
    var n, k := |sent|, |sent| + 1 + |buffered|;
    assert after[..k] == sent + ([u] + buffered);
    assert after[..k][n..] == [u] + buffered;
    if Grew(sent + buffered, [u], after, beats) {
      assert after[..k] == sent + (buffered + [u]);
      assert after[..k][n..] == buffered + [u];
    }
  }

  function AllUnits(msgs: seq<seq<Bytes>>): seq<Unit> { Concat(AsUnits, msgs) }

  lemma AllUnitsStep(msgs: seq<seq<Bytes>>, i: nat)
    requires i < |msgs|
    ensures AllUnits(msgs[..i + 1]) == AllUnits(msgs[..i]) + AsUnits(msgs[i])
  {
    assert msgs[..i + 1] == msgs[..i] + [msgs[i]];
    ConcatAppend(AsUnits, msgs[..i], [msgs[i]]);
    ConcatOne(AsUnits, msgs[i]);
  }

  /** Which messages keep their place: any under coalescing, one with a frame of the vectored size or more, one of no
    * frames, and one that differs from nothing buffered. */
  lemma InOrderRule(push: PushSocket, msg: seq<Bytes>)
    ensures push.InOrder(msg) <==>
            || push.base.options.writeCoalescing
            || (exists i :: 0 <= i < |msg| && |msg[i]| >= push.base.options.vectoredWriteThreshold)
            || msg == []
            || (forall i :: 0 <= i < |push.base.buffered| ==> push.base.buffered[i] == Message(msg))
  {
  }

  class PushSocket {
    const base: SocketBase

    constructor (base: SocketBase)
      ensures this.base == base
    {
      this.base := base;
    }

    /** Everything accepted for sending, in the order it reaches the wire. */
    ghost function Outgoing(): seq<Unit>
      reads base
    {
      base.sent + base.buffered
    }

    /** A message sent now keeps its place: it waits behind the buffered ones or flushes them first, or it overtakes
      * none that differ from it. */
    ghost predicate InOrder(msg: seq<Bytes>)
      reads base
    {
      base.options.writeCoalescing || base.ShouldVectoredWrite(msg) || msg == []
          || AllEqual(base.buffered, Message(msg))
    }

    method SetOptions(options: Options)
      modifies base`options
      ensures base.options == options
    {
      base.options := options;
    }

    /** The tail of every send: a PING when the connection is idle, flushed at once. */
    method Heartbeat() returns (r: IoResult<()>)
      requires base.SendInv()
      modifies base
      ensures base.SendInv() && base.options == old(base.options)
      ensures base.faults >= old(base.faults)
      ensures old(base.Healthy()) && base.faults == old(base.faults) ==> r.Ok? && base.Healthy()
      ensures r.Ok? ==>
                Grew(old(Outgoing()), [], Outgoing(), base.options.heartbeat) && base.isPoisoned == old(base.isPoisoned)
      ensures r.Ok? && old(base.sendBuffer) == [] ==> base.sendBuffer == []
      ensures !base.options.heartbeat ==> r.Ok? && base.sent == old(base.sent) && base.buffered == old(base.buffered)
    {
      ghost var sent, buffered := base.sent, base.buffered;
      var idle: bool, overdue: bool := *, *;
      var due := base.CheckHeartbeat(idle, overdue);
      if due.Err? {
        return Err(due.error);
      }
      r := Ok(());
      if due.value {
        ghost var ttl: nat :| base.buffered == buffered + [CommandFrame(PingBody(ttl))];
        OnePing(sent, buffered, ttl);
        r := base.FlushSendBuffer();
      } else {
        assert sent + buffered + [] == sent + buffered;
      }
    }

    /** Coalescing keeps a message back while the send buffer stays below the threshold. */
    predicate KeptBack(msg: seq<Bytes>)
      reads base
    {
      base.options.writeCoalescing && |base.sendBuffer| + |WireMessage(msg)| < base.options.writeCoalesceThreshold
    }

    /** The choice of send mode: coalesced, vectored or eager. */
    method Accept(msg: seq<Bytes>) returns (r: IoResult<()>)
      requires base.SendInv()
      modifies base
      ensures base.SendInv() && base.options == old(base.options)
      ensures base.faults >= old(base.faults)
      ensures old(base.Healthy()) && base.faults == old(base.faults) ==> r.Ok? && base.Healthy()
      ensures r.Ok? ==> Outgoing() == if base.options.writeCoalescing || base.ShouldVectoredWrite(msg)
                                      then old(Outgoing()) + AsUnits(msg)
                                      else old(base.sent) + AsUnits(msg) + old(base.buffered)
      ensures r.Ok? ==> base.isPoisoned == old(base.isPoisoned)
      ensures r.Ok? && !base.options.writeCoalescing && old(base.sendBuffer) == [] ==> base.sendBuffer == []
      ensures r.Ok? && old(KeptBack(msg)) ==> base.sent == old(base.sent)
    {
      if base.options.writeCoalescing {
        r := base.SendCoalesced(msg);
      } else if base.ShouldVectoredWrite(msg) {
        r := base.SendVectored(msg);
      } else {
        base.EncodeMessageToWriteBuf(msg);
        r := base.WriteFromBuf();
      }
    }

    /** `Accept` for a single frame, without the message vector. */
    method AcceptOne(frame: Bytes) returns (r: IoResult<()>)
      requires base.SendInv()
      modifies base
      ensures base.SendInv() && base.options == old(base.options)
      ensures base.faults >= old(base.faults)
      ensures old(base.Healthy()) && base.faults == old(base.faults) ==> r.Ok? && base.Healthy()
      ensures r.Ok? ==> Outgoing() == if base.options.writeCoalescing || base.ShouldVectoredWrite([frame])
                                      then old(Outgoing()) + AsUnits([frame])
                                      else old(base.sent) + AsUnits([frame]) + old(base.buffered)
      ensures r.Ok? ==> base.isPoisoned == old(base.isPoisoned)
      ensures r.Ok? && !base.options.writeCoalescing && old(base.sendBuffer) == [] ==> base.sendBuffer == []
      ensures r.Ok? && old(KeptBack([frame])) ==> base.sent == old(base.sent)
    {
      if base.options.writeCoalescing {
        ghost var sent, buffered := base.sent, base.buffered;
        var full := base.EncodeOneCoalesced(frame);
        Assoc(sent, buffered, [Message([frame])]);
        r := Ok(());
        if full {
          r := base.FlushSendBuffer();
        }
      } else {
        r := Accept([frame]);
      }
    }

    /** The heartbeat that ends a send, and what it makes of the order. */
    method Finish(msg: seq<Bytes>, ghost sent: seq<Unit>, ghost buffered: seq<Unit>) returns (r: IoResult<()>)
      requires base.SendInv()
      requires Outgoing() == if base.options.writeCoalescing || base.ShouldVectoredWrite(msg)
                             then sent + buffered + AsUnits(msg) else sent + AsUnits(msg) + buffered
      modifies base
      ensures base.SendInv() && base.options == old(base.options)
      ensures base.faults >= old(base.faults)
      ensures old(base.Healthy()) && base.faults == old(base.faults) ==> r.Ok? && base.Healthy()
      ensures r.Ok? ==> (Grew(sent + buffered, AsUnits(msg), Outgoing(), base.options.heartbeat) <==>
                         base.options.writeCoalescing || base.ShouldVectoredWrite(msg) || msg == []
                             || AllEqual(buffered, Message(msg)))
      ensures r.Ok? && !base.options.writeCoalescing && !base.ShouldVectoredWrite(msg) ==>
                Grew(sent + AsUnits(msg), buffered, Outgoing(), base.options.heartbeat)
      ensures r.Ok? ==> base.isPoisoned == old(base.isPoisoned)
      ensures r.Ok? && old(base.sendBuffer) == [] ==> base.sendBuffer == []
      ensures r.Ok? && !base.options.heartbeat ==> base.sent == old(base.sent)
    {
      ghost var accepted := Outgoing();
      r := Heartbeat();
      if r.Ok? {
        GrewOnly(accepted, Outgoing(), base.options.heartbeat);
        if msg == [] {
          assert sent + [] == sent && sent + buffered + [] == sent + buffered;
        } else if !base.options.writeCoalescing && !base.ShouldVectoredWrite(msg) {
          Overtaken(sent, Message(msg), buffered, Outgoing(), base.options.heartbeat);
        }
      }
    }

    /** On success the message is the last thing accepted, and so the last on the wire, exactly when it is in order.
      * The way to break it is an eager write with other messages still in the send buffer, which goes out first. */
    method Send(msg: seq<Bytes>) returns (r: IoResult<()>)
      requires base.SendInv()
      modifies base
      ensures base.SendInv() && base.options == old(base.options)
      ensures base.faults >= old(base.faults)
      ensures old(base.Healthy()) && base.faults == old(base.faults) ==> r.Ok? && base.Healthy()
      ensures r.Ok? ==> (Grew(old(Outgoing()), AsUnits(msg), Outgoing(), base.options.heartbeat) <==> old(InOrder(msg)))
      ensures r.Ok? && !base.options.writeCoalescing && !base.ShouldVectoredWrite(msg) ==>
                Grew(old(base.sent) + AsUnits(msg), old(base.buffered), Outgoing(), base.options.heartbeat)
      ensures r.Ok? ==> base.isPoisoned == old(base.isPoisoned)
      ensures r.Ok? && !base.options.writeCoalescing && old(base.sendBuffer) == [] ==> base.sendBuffer == []
      ensures r.Ok? && old(KeptBack(msg)) && !base.options.heartbeat ==> base.sent == old(base.sent)
    {
      ghost var sent, buffered := base.sent, base.buffered;
      r := Accept(msg);
      if r.Ok? {
        r := Finish(msg, sent, buffered);
      }
    }

    /** `send` for a single frame, without the message vector. */
    method SendOne(frame: Bytes) returns (r: IoResult<()>)
      requires base.SendInv()
      modifies base
      ensures base.SendInv() && base.options == old(base.options)
      ensures base.faults >= old(base.faults)
      ensures old(base.Healthy()) && base.faults == old(base.faults) ==> r.Ok? && base.Healthy()
      ensures r.Ok? ==> (Grew(old(Outgoing()), [Message([frame])], Outgoing(), base.options.heartbeat) <==>
                old(InOrder([frame])))
      ensures r.Ok? && !base.options.writeCoalescing && !base.ShouldVectoredWrite([frame]) ==>
                Grew(old(base.sent) + [Message([frame])], old(base.buffered), Outgoing(), base.options.heartbeat)
      ensures r.Ok? ==> base.isPoisoned == old(base.isPoisoned)
      ensures r.Ok? && !base.options.writeCoalescing && old(base.sendBuffer) == [] ==> base.sendBuffer == []
      ensures r.Ok? && old(KeptBack([frame])) && !base.options.heartbeat ==> base.sent == old(base.sent)
    {
      ghost var sent, buffered := base.sent, base.buffered;
      r := AcceptOne(frame);
      if r.Ok? {
        r := Finish([frame], sent, buffered);
      }
    }

    method Flush() returns (r: IoResult<()>)
      requires base.SendInv()
      modifies base
      ensures base.SendInv() && base.options == old(base.options)
      ensures base.faults >= old(base.faults)
      ensures old(base.Healthy()) && base.faults == old(base.faults) ==> r.Ok? && base.Healthy()
      ensures r.Ok? ==> base.sent == old(Outgoing()) && base.buffered == [] && base.isPoisoned == old(base.isPoisoned)
    {
      r := base.FlushSendBuffer();
    }

    /** Encodes every message, flushes once, and returns how many there were. */
    method SendBatch(msgs: seq<seq<Bytes>>) returns (r: IoResult<nat>)
      requires base.SendInv()
      modifies base
      ensures base.SendInv() && base.options == old(base.options)
      ensures base.faults >= old(base.faults)
      ensures old(base.Healthy()) && base.faults == old(base.faults) ==> r.Ok? && base.Healthy()
      ensures r.Ok? ==> r.value == |msgs| && Grew(old(Outgoing()), AllUnits(msgs), Outgoing(), base.options.heartbeat)
      ensures r.Ok? ==> base.isPoisoned == old(base.isPoisoned)
      ensures r.Ok? && (msgs != [] || old(base.sendBuffer) == []) ==> base.sendBuffer == []
    {
      var flushed, count := EncodeAndFlush(msgs);
      if flushed.Err? {
        return Err(flushed.error);
      }
      ghost var accepted := Outgoing();
      var beat := Heartbeat();
      if beat.Err? {
        return Err(beat.error);
      }
      GrewOnly(accepted, Outgoing(), base.options.heartbeat);
      return Ok(count);
    }

    method EncodeAndFlush(msgs: seq<seq<Bytes>>) returns (r: IoResult<()>, count: nat)
      requires base.SendInv()
      modifies base
      ensures base.SendInv() && base.options == old(base.options) && count == |msgs|
      ensures base.faults >= old(base.faults)
      ensures old(base.Healthy()) && base.faults == old(base.faults) ==> r.Ok? && base.Healthy()
      ensures r.Ok? ==> Outgoing() == old(Outgoing()) + AllUnits(msgs) && base.isPoisoned == old(base.isPoisoned)
      ensures r.Ok? ==> base.sendBuffer == if msgs == [] then old(base.sendBuffer) else []
    {
      count := EncodeAll(msgs);
      r := Ok(());
      if count > 0 {
        r := base.FlushSendBuffer();
      }
    }

    method EncodeAll(msgs: seq<seq<Bytes>>) returns (count: nat)
      requires base.SendInv()
      modifies base`sendBuffer, base`buffered, base`bufferedMessages
      ensures base.SendInv() && count == |msgs|
      ensures Outgoing() == old(Outgoing()) + AllUnits(msgs)
      ensures msgs == [] ==> base.sendBuffer == old(base.sendBuffer)
    {
      ghost var before := Outgoing();
      count := 0;
      for i := 0 to |msgs|
        invariant base.SendInv() && count == i
        invariant Outgoing() == before + AllUnits(msgs[..i])
        invariant i == 0 ==> base.sendBuffer == old(base.sendBuffer)
      {
        AllUnitsStep(msgs, i);
        Assoc(base.sent, base.buffered, AsUnits(msgs[i]));
        Assoc(before, AllUnits(msgs[..i]), AsUnits(msgs[i]));
        base.EncodeMessageToSendBuf(msgs[i]);
        count := count + 1;
      }
      assert msgs[..|msgs|] == msgs;
    }
  }

  const COALESCING := Options(Unlimited, Unlimited, false, true, 1_000_000, 1_000_000)
  const EAGER := COALESCING.(writeCoalescing := false)

  /** How messages swap: a coalesced send, coalescing switched off, an eager send, a flush. They all succeed unless a
    * write fails, and then the second message is on the wire ahead of the first. */
  method OvertakingRun(first: byte, second: byte) returns (ok: bool, wire: Bytes, ghost faults: nat)
    ensures faults == 0 ==> ok
    ensures ok ==> wire == WireUnits([Message([[second]]), Message([[first]])])
  {
    var base := new SocketBase(COALESCING, None, []);
    var push := new PushSocket(base);
    ok := HoldBack(push, first);
    wire := [];
    if ok {
      ok, wire := Overtake(push, first, second);
    }
    faults := base.faults;
  }

  method HoldBack(push: PushSocket, b: byte) returns (ok: bool)
    requires push.base.SendInv() && push.base.Healthy() && push.base.options == COALESCING && push.base.sendBuffer == []
    requires push.base.sent == push.base.buffered == []
    modifies push.base
    ensures push.base.SendInv() && push.base.faults >= old(push.base.faults)
    ensures push.base.faults == old(push.base.faults) ==> ok && push.base.Healthy()
    ensures ok ==> push.base.sent == [] && push.base.buffered == [Message([[b]])]
  {
    SmallMessage(b);
    var r := push.SendOne([b]);
    ok := r.Ok?;
    if ok {
      NoHeartbeats([], [Message([[b]])], push.Outgoing());
      assert [] + push.base.buffered == push.base.buffered;
    }
  }

  method Overtake(push: PushSocket, first: byte, second: byte) returns (ok: bool, wire: Bytes)
    requires push.base.SendInv() && push.base.sent == [] && push.base.buffered == [Message([[first]])]
    modifies push.base
    ensures push.base.faults >= old(push.base.faults)
    ensures old(push.base.Healthy()) && push.base.faults == old(push.base.faults) ==> ok
    ensures ok ==> wire == WireUnits([Message([[second]]), Message([[first]])])
  {
    push.SetOptions(EAGER);
    var r := push.Send([[second]]);
    if r.Err? {
      return false, [];
    }
    NoHeartbeats([] + [Message([[second]])], [Message([[first]])], push.Outgoing());
    r := push.Flush();
    ok, wire := r.Ok? && !push.base.isPoisoned, push.base.wire;
  }

  lemma NoHeartbeats(before: seq<Unit>, added: seq<Unit>, after: seq<Unit>)
    requires Grew(before, added, after, false)
    ensures after == before + added
  {
    var n := |before + added|;
    assert n < |after| ==> IsHeartbeat(after[n], false);
    assert after == after[..n];
  }

  lemma SmallMessage(b: byte)
    ensures |WireMessage([[b]])| == 3
  {
    var msg := [[b]];
    assert msg[1..] == [] && WireMessage(msg) == WireFrame(0, [b]) + WireMessage([]);
  }
}

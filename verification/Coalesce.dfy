/** The coalescing loop of a PUB worker (monocoque-zmtp/src/publisher.rs), against delivery one message at a time. */
module Coalesce {
  import opened ByteStrings
  import opened Framing
  import opened Encoders
  import opened Units
  import opened Commands
  import S = Subscriptions

  const MAX_COALESCE_MSGS := 4096
  const COALESCE_BYTE_LIMIT := 4 * 1024 * 1024

  /** A subscriber with its subscriptions, held fixed, and the bytes written to its connection. */
  datatype Subscriber = Subscriber(subs: seq<Bytes>, stream: Bytes)

  type Subscribers = map<S.Id, Subscriber>

  /** `WorkerSubscriber::matches`. */
  predicate Wants(subs: seq<Bytes>, msg: seq<Bytes>) {
    subs == [] || (msg != [] && exists i :: 0 <= i < |subs| && StartsWith(msg[0], subs[i]))
  }

  /** The wire form of the messages a subscriber wants, in order. */
  function WireWanted(subs: seq<Bytes>, msgs: seq<seq<Bytes>>): Bytes {
    if msgs == [] then []
    else (if Wants(subs, msgs[0]) then WireMessage(msgs[0]) else []) + WireWanted(subs, msgs[1..])
  }

  lemma {:induction false} WireWantedAppend(subs: seq<Bytes>, a: seq<seq<Bytes>>, b: seq<seq<Bytes>>)
    ensures WireWanted(subs, a + b) == WireWanted(subs, a) + WireWanted(subs, b)
  {
    if a == [] {
      assert a + b == b;
    } else {
      WireWantedAppend(subs, a[1..], b);
      assert (a + b)[1..] == a[1..] + b;
      Assoc(if Wants(subs, a[0]) then WireMessage(a[0]) else [], WireWanted(subs, a[1..]), WireWanted(subs, b));
    }
  }

  function Served(s: Subscriber, msgs: seq<seq<Bytes>>): Subscriber {
    s.(stream := s.stream + WireWanted(s.subs, msgs))
  }

  function ServeAll(m: Subscribers, msgs: seq<seq<Bytes>>): Subscribers {
    map id | id in m :: Served(m[id], msgs)
  }

  /** The specification: commands one at a time, each broadcast written to every subscriber that wants it. */
  function Deliver(cmds: seq<Cmd>, m: Subscribers): Subscribers
    decreases |cmds|
  {
    if cmds == [] then m
    else
      match cmds[0]
      case Shutdown => m
      case AddSubscriber(id, subs, attaches) => Deliver(cmds[1..], Registered(m, id, subs, attaches))
      case Broadcast(msg) => Deliver(cmds[1..], ServeAll(m, [msg]))
  }

  function Registered(m: Subscribers, id: S.Id, subs: seq<Bytes>, attaches: bool): Subscribers {
    if attaches then m[id := Subscriber(subs, [])] else m
  }

  function Broadcasts(msgs: seq<seq<Bytes>>): seq<Cmd> { seq(|msgs|, i requires 0 <= i < |msgs| => Broadcast(msgs[i])) }

  lemma ServeTwice(m: Subscribers, a: seq<seq<Bytes>>, b: seq<seq<Bytes>>)
    ensures ServeAll(ServeAll(m, a), b) == ServeAll(m, a + b)
  {
    forall id | id in m
      ensures Served(Served(m[id], a), b) == Served(m[id], a + b)
    {
      WireWantedAppend(m[id].subs, a, b);
      Assoc(m[id].stream, WireWanted(m[id].subs, a), WireWanted(m[id].subs, b));
    }
  }

  /** Writing a whole batch at once is delivering its messages one by one. */
  lemma {:induction false} DeliverBatch(msgs: seq<seq<Bytes>>, rest: seq<Cmd>, m: Subscribers)
    ensures Deliver(Broadcasts(msgs) + rest, m) == Deliver(rest, ServeAll(m, msgs))
    decreases |msgs|
  {
    if msgs == [] {
      assert Broadcasts(msgs) + rest == rest;
      assert ServeAll(m, msgs) == m by {
        forall id | id in m ensures Served(m[id], []) == m[id] { assert m[id].stream + [] == m[id].stream; }
      }
    } else {
      var all := Broadcasts(msgs) + rest;
      assert all[0] == Broadcast(msgs[0]) && all[1..] == Broadcasts(msgs[1..]) + rest;
      DeliverBatch(msgs[1..], rest, ServeAll(m, [msgs[0]]));
      ServeTwice(m, [msgs[0]], msgs[1..]);
      assert [msgs[0]] + msgs[1..] == msgs;
    }
  }

  ghost predicate SubMap(a: Subscribers, b: Subscribers) {
    forall id :: id in a ==> id in b && a[id] == b[id]
  }

  /** Losing subscribers does not change what the others receive. */
  lemma {:induction false} DeliverMonotone(cmds: seq<Cmd>, a: Subscribers, b: Subscribers)
    requires SubMap(a, b)
    ensures SubMap(Deliver(cmds, a), Deliver(cmds, b))
    decreases |cmds|
  {
    if cmds == [] {
    } else {
      match cmds[0]
      case Shutdown =>
      case AddSubscriber(id, subs, attaches) =>
        DeliverMonotone(cmds[1..], Registered(a, id, subs, attaches), Registered(b, id, subs, attaches));
      case Broadcast(msg) => DeliverMonotone(cmds[1..], ServeAll(a, [msg]), ServeAll(b, [msg]));
    }
  }

  /** Losing some subscribers costs only those. */
  lemma {:induction false} DeliverKeeps(cmds: seq<Cmd>, a: Subscribers, b: Subscribers, lost: set<S.Id>)
    requires b.Keys - lost <= a.Keys
    ensures Deliver(cmds, b).Keys - lost <= Deliver(cmds, a).Keys
    decreases |cmds|
  {
    if cmds == [] {
    } else {
      match cmds[0]
      case Shutdown =>
      case AddSubscriber(id, subs, attaches) =>
        DeliverKeeps(cmds[1..], Registered(a, id, subs, attaches), Registered(b, id, subs, attaches), lost);
      case Broadcast(msg) => DeliverKeeps(cmds[1..], ServeAll(a, [msg]), ServeAll(b, [msg]), lost);
    }
  }

  /** The two wire caches of a batch hold what they claim to. */
  ghost predicate CachesOk(batch: seq<seq<Bytes>>, full: Option<Bytes>, wires: seq<Option<Bytes>>) {
    && |wires| == |batch|
    && (full.Some? ==> full.value == WireWanted([], batch))
    && forall i :: 0 <= i < |wires| && wires[i].Some? ==> wires[i].value == WireMessage(batch[i])
  }

  lemma WireWantedAt(subs: seq<Bytes>, batch: seq<seq<Bytes>>, i: nat, out: Bytes)
    requires i < |batch|
    ensures out + WireWanted(subs, batch[i..]) ==
            (if Wants(subs, batch[i]) then out + WireMessage(batch[i]) else out) + WireWanted(subs, batch[i + 1..])
  {
    assert batch[i..][1..] == batch[i + 1..];
    Assoc(out, if Wants(subs, batch[i]) then WireMessage(batch[i]) else [], WireWanted(subs, batch[i + 1..]));
    assert out + [] == out;
  }

  /** The whole batch in one buffer, for those who subscribe to everything. */
  method EncodeBatch(batch: seq<seq<Bytes>>) returns (out: Bytes)
    ensures out == WireWanted([], batch)
  {
    out := [];
    assert batch[0..] == batch;
    for i := 0 to |batch|
      invariant out + WireWanted([], batch[i..]) == WireWanted([], batch)
    {
      WireWantedAt([], batch, i, out);
      out := EncodeMultipart(batch[i], out);
    }
    assert WireWanted([], batch[|batch|..]) == [];
  }

  /** The messages of the batch that match, each encoded at most once for all subscribers. */
  method EncodeMatching(subs: seq<Bytes>, batch: seq<seq<Bytes>>, ghost full: Option<Bytes>, wires: seq<Option<Bytes>>)
    returns (out: Bytes, wires': seq<Option<Bytes>>)
    requires CachesOk(batch, full, wires)
    ensures out == WireWanted(subs, batch) && CachesOk(batch, full, wires')
  {
    out, wires' := [], wires;
    assert batch[0..] == batch;
    for i := 0 to |batch|
      invariant out + WireWanted(subs, batch[i..]) == WireWanted(subs, batch)
      invariant CachesOk(batch, full, wires')
    {
      WireWantedAt(subs, batch, i, out);
      if Wants(subs, batch[i]) {
        var wire;
        wire, wires' := CachedWire(batch, i, full, wires');
        out := out + wire;
      }
    }
    assert WireWanted(subs, batch[|batch|..]) == [];
  }

  method CachedWire(batch: seq<seq<Bytes>>, i: nat, ghost full: Option<Bytes>, wires: seq<Option<Bytes>>)
    returns (wire: Bytes, wires': seq<Option<Bytes>>)
    requires CachesOk(batch, full, wires) && i < |batch|
    ensures wire == WireMessage(batch[i]) && CachesOk(batch, full, wires')
  {
    wires' := wires;
    if wires[i].None? {
      wire := EncodeMultipart(batch[i], []);
      wires' := wires[i := Some(wire)];
    }
    wire := wires'[i].value;
  }

  /** This subscriber's slice of the batch. */
  method EncodeFor(subs: seq<Bytes>, batch: seq<seq<Bytes>>, full: Option<Bytes>, wires: seq<Option<Bytes>>)
    returns (out: Bytes, full': Option<Bytes>, wires': seq<Option<Bytes>>)
    requires CachesOk(batch, full, wires)
    ensures out == WireWanted(subs, batch) && CachesOk(batch, full', wires')
  {
    full', wires' := full, wires;
    if subs == [] {
      if full.None? {
        var all := EncodeBatch(batch);
        full' := Some(all);
      }
      out := full'.value;
    } else {
      out, wires' := EncodeMatching(subs, batch, full, wires);
    }
  }

  function ApproxWireLen(msg: seq<Bytes>): nat {
    if msg == [] then 0 else |msg[0]| + 9 + ApproxWireLen(msg[1..])
  }

  /** The estimate never falls short of what the encoder writes, nor exceeds it by more than seven bytes a frame. */
  lemma {:induction false} ApproxWireLenBounds(msg: seq<Bytes>)
    ensures |WireMessage(msg)| <= ApproxWireLen(msg) <= |WireMessage(msg)| + 7 * |msg|
  {
    if msg != [] {
      ApproxWireLenBounds(msg[1..]);
    }
  }

  /** Up to its last message, a batch is shorter on the wire than the byte limit. */
  ghost predicate Limited(batch: seq<seq<Bytes>>) {
    |batch| > 1 ==> |WireWanted([], batch[..|batch| - 1])| < COALESCE_BYTE_LIMIT
  }

  lemma BatchGrows(batch: seq<seq<Bytes>>, msg: seq<Bytes>, bytes: nat)
    requires |WireWanted([], batch)| <= bytes < COALESCE_BYTE_LIMIT
    ensures |WireWanted([], batch + [msg])| <= bytes + ApproxWireLen(msg) && Limited(batch + [msg])
  {
    WireWantedAppend([], batch, [msg]);
    ApproxWireLenBounds(msg);
    assert (batch + [msg])[..|batch|] == batch;
  }

  /** The batch and what is left in the queue are what was there, in order. */
  ghost predicate Drained(all: seq<Cmd>, batch: seq<seq<Bytes>>, rest: seq<Cmd>) {
    all == Broadcasts(batch) + rest
  }

  lemma DrainNone(first: seq<Bytes>, rest: seq<Cmd>)
    ensures Drained([Broadcast(first)] + rest, [first], rest)
  {
    assert Broadcasts([first]) == [Broadcast(first)];
  }

  lemma DrainDone(all: seq<Cmd>, batch: seq<seq<Bytes>>, rest: seq<Cmd>)
    requires Drained(all, batch, rest)
    ensures all == Broadcasts(batch) + [] + rest
  {
    assert Broadcasts(batch) + [] == Broadcasts(batch);
  }

  lemma DrainOne(all: seq<Cmd>, batch: seq<seq<Bytes>>, rest: seq<Cmd>)
    requires rest != [] && Drained(all, batch, rest)
    ensures rest[0].Broadcast? ==> Drained(all, batch + [rest[0].msg], rest[1..])
    ensures all == Broadcasts(batch) + [rest[0]] + rest[1..]
  {
    assert rest == [rest[0]] + rest[1..];
    if rest[0].Broadcast? {
      assert Broadcasts(batch + [rest[0].msg]) == Broadcasts(batch) + [rest[0]];
    }
  }

  class Worker {
    var queue: seq<Cmd>
    var subscribers: Subscribers
    const fails: (S.Id, nat) -> bool  // whether a write to this subscriber, that many bytes into its stream, fails

    constructor (queue: seq<Cmd>, fails: (S.Id, nat) -> bool)
      ensures this.queue == queue && this.fails == fails && subscribers == map[]
    {
      this.queue, this.fails, subscribers := queue, fails, map[];
    }

    /** The subscriber has something to get from this batch, and the write fails. */
    ghost predicate Fails(id: S.Id, sub: Subscriber, batch: seq<seq<Bytes>>) {
      WireWanted(sub.subs, batch) != [] && fails(id, |sub.stream|)
    }

    /** Drains broadcasts that are already queued into one batch. The queue may look empty at any point, and a
      * command of another kind is set aside. */
    method Collect(first: seq<Bytes>) returns (batch: seq<seq<Bytes>>, deferred: Option<Cmd>)
      modifies this`queue
      ensures 1 <= |batch| <= MAX_COALESCE_MSGS && Limited(batch) && |queue| <= old(|queue|)
      ensures deferred.Some? ==> !deferred.value.Broadcast?
      ensures [Broadcast(first)] + old(queue) ==
              Broadcasts(batch) + (if deferred.Some? then [deferred.value] else []) + queue
    {
      batch, deferred := [first], None;
      var bytes := ApproxWireLen(first);
      BatchGrows([], first, 0);
      assert [] + [first] == batch;
      ghost var all := [Broadcast(first)] + queue;
      DrainNone(first, queue);
      while |batch| < MAX_COALESCE_MSGS && bytes < COALESCE_BYTE_LIMIT
        invariant 1 <= |batch| <= MAX_COALESCE_MSGS && |queue| <= old(|queue|)
        invariant |WireWanted([], batch)| <= bytes && Limited(batch)
        invariant Drained(all, batch, queue)
        decreases |queue|
      {
        var seenEmpty: bool := *;
        if queue == [] || seenEmpty {
          break;
        }
        var cmd := queue[0];
        DrainOne(all, batch, queue);
        queue := queue[1..];
        if !cmd.Broadcast? {
          return batch, Some(cmd);
        }
        BatchGrows(batch, cmd.msg, bytes);
        bytes := bytes + ApproxWireLen(cmd.msg);
        batch := batch + [cmd.msg];
      }
      DrainDone(all, batch, queue);
    }

    /** One write: all of it, or a part of it and an error. */
    method WriteTo(id: S.Id, out: Bytes) returns (ok: bool)
      requires id in subscribers
      modifies this`subscribers
      ensures ok == !fails(id, |old(subscribers)[id].stream|) && subscribers.Keys == old(subscribers).Keys
      ensures forall other :: other in subscribers && other != id ==> subscribers[other] == old(subscribers)[other]
      ensures ok ==> subscribers[id] == old(subscribers)[id].(stream := old(subscribers)[id].stream + out)
    {
      var sub := subscribers[id];
      ok := !fails(id, |sub.stream|);
      var n: nat :| n <= |out|;
      if ok {
        n := |out|;
      }
      assert ok ==> out[..n] == out;
      subscribers := subscribers[id := sub.(stream := sub.stream + out[..n])];
    }

    /** One write per subscriber and batch, in any order. Those whose write fails, and no others, are dropped at the
      * end. */
    method WriteBatch(batch: seq<seq<Bytes>>) returns (dead: set<S.Id>)
      modifies this`subscribers
      ensures dead <= old(subscribers).Keys && subscribers == ServeAll(old(subscribers), batch) - dead
      ensures forall id :: id in old(subscribers) ==> (id in dead <==> Fails(id, old(subscribers)[id], batch))
    {
      ghost var m := subscribers;
      var full: Option<Bytes>, wires := None, seq(|batch|, _ => None);
      var todo := subscribers.Keys;
      dead := {};
      while todo != {}
        invariant todo <= m.Keys == subscribers.Keys && dead <= m.Keys - todo && CachesOk(batch, full, wires)
        invariant forall id :: id in todo ==> subscribers[id] == m[id]
        invariant forall id :: id in m && id !in todo ==> (id in dead <==> Fails(id, m[id], batch))
        invariant forall id :: id in m && id !in todo && id !in dead ==> subscribers[id] == Served(m[id], batch)
        decreases todo
      {
        var id :| id in todo;
        todo := todo - {id};
        var sub := subscribers[id];
        var out;
        out, full, wires := EncodeFor(sub.subs, batch, full, wires);
        assert out == [] ==> sub.stream + out == sub.stream;
        if out != [] {
          var ok := WriteTo(id, out);
          if !ok {
            dead := dead + {id};
          }
        }
      }
      subscribers := subscribers - dead;
    }

    /** Coalesced delivery refines sequential delivery: every subscriber still registered at the end has exactly the
      * bytes that one message at a time would have written, and nobody is missing but those whose write failed. */
    method Run() returns (lost: set<S.Id>)
      modifies this
      ensures SubMap(subscribers, Deliver(old(queue), old(subscribers)))
      ensures Deliver(old(queue), old(subscribers)).Keys - lost <= subscribers.Keys
      ensures lost == {} ==> subscribers == Deliver(old(queue), old(subscribers))
      ensures forall id :: id in lost ==> exists n: nat :: fails(id, n)
    {
      ghost var target := Deliver(queue, subscribers);
      lost := {};
      while queue != []
        invariant SubMap(Deliver(queue, subscribers), target)
        invariant target.Keys - lost <= Deliver(queue, subscribers).Keys
        invariant lost == {} ==> Deliver(queue, subscribers) == target
        invariant forall id :: id in lost ==> exists n: nat :: fails(id, n)
        decreases |queue|
      {
        var cmd := queue[0];
        assert queue == [cmd] + queue[1..];
        queue := queue[1..];
        match cmd
        case Shutdown => return;
        case AddSubscriber(id, subs, attaches) => subscribers := Registered(subscribers, id, subs, attaches);
        case Broadcast(msg) =>
          var dead, deferred := Burst(msg, target);
          lost := lost + dead;
          assert [] + queue == queue;
          if deferred.Some? {
            assert ([deferred.value] + queue)[1..] == queue;
            match deferred.value
            case Shutdown => return;
            case AddSubscriber(id, subs, attaches) => subscribers := Registered(subscribers, id, subs, attaches);
          }
      }
    }

    /** A batch, and the command that interrupted it. */
    method Burst(msg: seq<Bytes>, ghost target: Subscribers) returns (dead: set<S.Id>, deferred: Option<Cmd>)
      requires SubMap(Deliver([Broadcast(msg)] + queue, subscribers), target)
      modifies this
      ensures |queue| <= old(|queue|)
      ensures deferred.Some? ==> !deferred.value.Broadcast?
      ensures forall id :: id in dead ==> exists n: nat :: fails(id, n)
      ensures var cmds := (if deferred.Some? then [deferred.value] else []) + queue;
              && SubMap(Deliver(cmds, subscribers), target)
              && old(Deliver([Broadcast(msg)] + queue, subscribers)).Keys - dead <= Deliver(cmds, subscribers).Keys
              && (dead == {} ==> Deliver(cmds, subscribers) == old(Deliver([Broadcast(msg)] + queue, subscribers)))
    {
      ghost var before, all := subscribers, [Broadcast(msg)] + queue;
      var batch;
      batch, deferred := Collect(msg);
      ghost var cmds := (if deferred.Some? then [deferred.value] else []) + queue;
      assert all == Broadcasts(batch) + cmds;
      DeliverBatch(batch, cmds, before);
      dead := WriteBatch(batch);
      assert dead == {} ==> subscribers == ServeAll(before, batch);
      DeliverMonotone(cmds, subscribers, ServeAll(before, batch));
      DeliverKeeps(cmds, subscribers, ServeAll(before, batch), dead);
    }
  }

  /** The broadcasts ahead of a shutdown. */
  function Heard(cmds: seq<Cmd>): seq<seq<Bytes>> {
    if cmds == [] || cmds[0].Shutdown? then []
    else (if cmds[0].Broadcast? then [cmds[0].msg] else []) + Heard(cmds[1..])
  }

  ghost predicate NeverAdds(cmds: seq<Cmd>, id: S.Id) {
    forall i :: 0 <= i < |cmds| ==> !(cmds[i].AddSubscriber? && cmds[i].id == id)
  }

  lemma {:induction false} RegisteredHears(cmds: seq<Cmd>, m: Subscribers, id: S.Id)
    requires id in m && NeverAdds(cmds, id)
    ensures id in Deliver(cmds, m) && Deliver(cmds, m)[id] == Served(m[id], Heard(cmds))
    decreases |cmds|
  {
    assert m[id].stream + [] == m[id].stream;
    if cmds == [] {
    } else {
      var rest := cmds[1..];
      assert NeverAdds(rest, id) by { assert forall i :: 0 <= i < |rest| ==> rest[i] == cmds[i + 1]; }
      match cmds[0]
      case Shutdown =>
      case AddSubscriber(other, subs, attaches) =>
        assert !(cmds[0].AddSubscriber? && cmds[0].id == id);
        RegisteredHears(rest, Registered(m, other, subs, attaches), id);
        assert Heard(cmds) == Heard(rest);
      case Broadcast(msg) =>
        RegisteredHears(rest, ServeAll(m, [msg]), id);
        ServeTwice(m, [msg], Heard(rest));
        assert ServeAll(ServeAll(m, [msg]), Heard(rest))[id] == ServeAll(m, [msg] + Heard(rest))[id];
    }
  }

  /** A subscriber's stream is the wire form of the broadcasts it wants that were queued after it was added and
    * before the shutdown, in order. */
  lemma {:induction false} SubscriberStream(before: seq<Cmd>, id: S.Id, subs: seq<Bytes>, after: seq<Cmd>,
      m: Subscribers)
    requires forall i :: 0 <= i < |before| ==> !before[i].Shutdown?
    requires NeverAdds(after, id)
    ensures var end := Deliver(before + [AddSubscriber(id, subs, true)] + after, m);
            id in end && end[id].stream == WireWanted(subs, Heard(after))
    decreases |before|
  {
    var cmds := before + [AddSubscriber(id, subs, true)] + after;
    if before == [] {
      assert cmds[1..] == after;
      RegisteredHears(after, Registered(m, id, subs, true), id);
    } else {
      var rest := before[1..];
      assert cmds[0] == before[0] && cmds[1..] == rest + [AddSubscriber(id, subs, true)] + after;
      assert !before[0].Shutdown?;
      match before[0]
      case AddSubscriber(other, s, attaches) =>
          SubscriberStream(rest, id, subs, after, Registered(m, other, s, attaches));
      case Broadcast(msg) => SubscriberStream(rest, id, subs, after, ServeAll(m, [msg]));
    }
  }

  function Wanted(subs: seq<Bytes>, msgs: seq<seq<Bytes>>): seq<Unit> {
    if msgs == [] then [] else (if Wants(subs, msgs[0]) then AsUnits(msgs[0]) else []) + Wanted(subs, msgs[1..])
  }

  /** What a subscriber decodes from its stream: exactly the messages it wants, in order. */
  lemma {:induction false} SubscriberReceives(subs: seq<Bytes>, msgs: seq<seq<Bytes>>, max: nat)
    requires UnitsFit(Wanted(subs, msgs), max)
    ensures WireWanted(subs, msgs) == WireUnits(Wanted(subs, msgs))
    ensures Received([], WireWanted(subs, msgs), max) == MessagesOf(Wanted(subs, msgs))
  {
    WantedOnWire(subs, msgs);
    WireDelivers(Wanted(subs, msgs), max);
  }

  lemma {:induction false} WantedOnWire(subs: seq<Bytes>, msgs: seq<seq<Bytes>>)
    ensures WireWanted(subs, msgs) == WireUnits(Wanted(subs, msgs))
  {
    if msgs == [] {
    } else {
      WantedOnWire(subs, msgs[1..]);
      var us := if Wants(subs, msgs[0]) then AsUnits(msgs[0]) else [];
      ConcatAppend(WireUnit, us, Wanted(subs, msgs[1..]));
      WireAsUnits(msgs[0]);
    }
  }
}

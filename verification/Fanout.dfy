/** From publish to subscriber: the prefilter, the hand-off and the worker put together
  * (monocoque-zmtp/src/publisher.rs). */
module Fanout {
  import opened ByteStrings
  import opened Framing
  import opened Commands
  import opened Coalesce
  import S = Subscriptions
  import W = Workers

  /** The worker's own test of a message is the one the union is exact for. */
  lemma WantsItsTopic(subs: seq<Bytes>, msg: seq<Bytes>)
    ensures msg != [] ==> (Wants(subs, msg) <==> S.ListMatches(subs, msg[0]))
    ensures msg == [] ==> (Wants(subs, msg) <==> subs == [])
  {
  }

  ghost predicate NoShutdown(cmds: seq<Cmd>) { forall i :: 0 <= i < |cmds| ==> !cmds[i].Shutdown? }

  lemma {:induction false} HeardSnoc(cmds: seq<Cmd>, msg: seq<Bytes>)
    requires NoShutdown(cmds)
    ensures Heard(cmds + [Broadcast(msg)]) == Heard(cmds) + [msg]
  {
    var all := cmds + [Broadcast(msg)];
    if cmds == [] {
      assert all == [Broadcast(msg)] && Heard([]) == [] && [msg] + [] == [msg];
    } else {
      assert all[1..] == cmds[1..] + [Broadcast(msg)] && all[0] == cmds[0];
      assert forall i :: 0 <= i < |cmds[1..]| ==> cmds[1..][i] == cmds[i + 1];
      HeardSnoc(cmds[1..], msg);
      Assoc(if cmds[0].Broadcast? then [cmds[0].msg] else [], Heard(cmds[1..]), [msg]);
    }
  }

  /** One more broadcast that a subscriber wants is one more message at the end of its stream. */
  lemma OneMoreMessage(before: seq<Cmd>, id: S.Id, subs: seq<Bytes>, after: seq<Cmd>, msg: seq<Bytes>)
    requires NoShutdown(before) && NoShutdown(after) && NeverAdds(after, id) && Wants(subs, msg)
    ensures var cmds := before + [AddSubscriber(id, subs, true)] + after;
            var now, later := Deliver(cmds, map[]), Deliver(cmds + [Broadcast(msg)], map[]);
            id in now && id in later && later[id].stream == now[id].stream + WireMessage(msg)
  {
    var cmds, after' := before + [AddSubscriber(id, subs, true)] + after, after + [Broadcast(msg)];
    SubscriberStream(before, id, subs, after, map[]);
    SubscriberStream(before, id, subs, after', map[]);
    Assoc(before + [AddSubscriber(id, subs, true)], after, [Broadcast(msg)]);
    HeardSnoc(after, msg);
    WireWantedAppend(subs, Heard(after), [msg]);
    assert WireWanted(subs, [msg]) == WireMessage(msg) + WireWanted(subs, []);
  }

  datatype SendError = EmptyMessage | WorkerGone(worker: nat)

  function ClosedWorker(error: Option<SendError>): Option<nat> {
    if error.Some? && error.value.WorkerGone? then Some(error.value.worker) else None
  }

  /** `send`: an empty message is an error, a message nobody could want goes nowhere, and any other is handed to the
    * workers. `union` is the publisher's copy, refreshed as need be. */
  method Publish(publisher: W.Publisher, union: S.SubscriptionUnion, msg: seq<Bytes>)
    returns (error: Option<SendError>, ghost loads: seq<W.Load>)
    requires publisher.Valid() && union.Valid()
    modifies publisher`counts, publisher`queues, publisher`open, publisher`dropCount, publisher`enqueued
    ensures publisher.Valid()
    ensures msg == [] <==> error == Some(EmptyMessage)
    ensures W.Handed(old(publisher.enqueued), publisher.enqueued, loads, publisher.hwm, msg)
    ensures W.ClosedAt(loads, publisher.hwm, ClosedWorker(error))
    ensures error.Some? && error.value.WorkerGone? ==> |loads| == error.value.worker + 1
    ensures msg != [] && !S.UnionMatches(S.Union(union.matchAll, union.held), msg[0]) ==> error.None?
    ensures msg == [] || !S.UnionMatches(S.Union(union.matchAll, union.held), msg[0]) ==> loads == []
    ensures msg != [] && S.UnionMatches(S.Union(union.matchAll, union.held), msg[0]) && error.None? ==>
              |loads| == |publisher.counts|
    ensures publisher.dropCount == old(publisher.dropCount) + W.Drops(loads, publisher.hwm)
  {
    loads := [];
    if msg == [] {
      return Some(EmptyMessage), [];
    }
    var allowed := union.Matches(msg[0]);
    if !allowed {
      return None, [];
    }
    var failed;
    failed, loads := publisher.DispatchAll(msg);
    error := if failed.Some? then Some(WorkerGone(failed.value)) else None;
  }
}

/** The commands a PUB socket sends to its workers. */
module Commands {
  import opened ByteStrings
  import opened Subscriptions

  /** A subscriber comes with its subscriptions; `attaches` says whether the worker manages to take its connection
    * over. */
  datatype Cmd = AddSubscriber(id: Id, subs: seq<Bytes>, attaches: bool) | Broadcast(msg: seq<Bytes>) | Shutdown
}

/** A PUB worker's live-subscriber counter and the publisher's hand-off to the workers
  * (monocoque-zmtp/src/publisher.rs). */
module Workers {
  import opened ByteStrings
  import opened Subscriptions
  import opened Commands

  function Adds(queue: seq<Cmd>): nat {
    if queue == [] then 0 else (if queue[0].AddSubscriber? then 1 else 0) + Adds(queue[1..])
  }

  lemma {:induction false} AddsSnoc(queue: seq<Cmd>, c: Cmd)
    ensures Adds(queue + [c]) == Adds(queue) + (if c.AddSubscriber? then 1 else 0)
  {
    if queue == [] {
      assert queue + [c] == [c];
    } else {
      assert (queue + [c])[1..] == queue[1..] + [c];
      AddsSnoc(queue[1..], c);
    }
  }

  /** One worker, its channel and its counter. `joining` is the publisher between raising the counter and handing
    * the subscriber over, `deferred` a command pulled off the queue while a batch is written, and `dying` the
    * subscribers already taken off the counter but not yet out of the map. `taken` are the commands carried out and
    * `removed` the subscribers that went. */
  datatype State = State(
    count: int, queue: seq<Cmd>, registered: set<Id>,
    joining: Option<Cmd>, deferred: Option<Cmd>, dying: set<Id>,
    taken: seq<Cmd>, removed: set<Id>)

  datatype Step =
    | CountNew(cmd: Cmd) | HandOver | HandOverFails
    | Dispatch(msg: seq<Bytes>) | SendShutdown
    | Take | Defer | TakeDeferred
    | Uncount(dead: set<Id>) | Remove

  function Register(s: State, c: Cmd): State {
    s.(taken := s.taken + [c],
       registered := if c.AddSubscriber? && c.attaches then s.registered + {c.id} else s.registered)
  }

  /** The atomic steps; the first four are the publisher's, the others the worker's, which takes no command while
    * it cleans up. */
  ghost predicate Next(s: State, step: Step, s': State) {
    match step
    case CountNew(cmd) => s.joining.None? && cmd.AddSubscriber? && s' == s.(count := s.count + 1, joining := Some(cmd))
    case HandOver => s.joining.Some? && s' == s.(queue := s.queue + [s.joining.value], joining := None)
    case HandOverFails => s.joining.Some? && s' == s.(joining := None)
    case Dispatch(msg) => s.count != 0 && s' == s.(queue := s.queue + [Broadcast(msg)])
    case SendShutdown => s' == s.(queue := s.queue + [Shutdown])
    case Take => s.queue != [] && s.deferred.None? && s.dying == {}
        && s' == Register(s, s.queue[0]).(queue := s.queue[1..])
    case Defer => s.queue != [] && s.deferred.None? && s' == s.(queue := s.queue[1..], deferred := Some(s.queue[0]))
    case TakeDeferred => s.deferred.Some? && s.dying == {} && s' == Register(s, s.deferred.value).(deferred := None)
    case Uncount(dead) => dead <= s.registered && s.dying == {} && s' == s.(count := s.count - |dead|, dying := dead)
    case Remove => s' == s.(registered := s.registered - s.dying, dying := {}, removed := s.removed + s.dying)
  }

  function Pending(c: Option<Cmd>): seq<Cmd> { if c.Some? then [c.value] else [] }

  /** Subscribers the worker holds, or is about to hold. */
  ghost function Live(s: State): nat {
    |s.registered - s.dying| + Adds(s.queue)
    + (if s.deferred.Some? && s.deferred.value.AddSubscriber? then 1 else 0) + (if s.joining.Some? then 1 else 0)
  }

  ghost predicate CountInv(s: State) {
    s.count >= Live(s) && s.dying <= s.registered && (s.joining.Some? ==> s.joining.value.AddSubscriber?)
  }

  /** Whoever was added and attached is registered until removed. */
  ghost predicate HeldInv(s: State) {
    forall c :: c in s.taken && c.AddSubscriber? && c.attaches ==> c.id in s.registered || c.id in s.removed
  }

  ghost predicate Inv(s: State) { CountInv(s) && HeldInv(s) }

  ghost predicate Init(s: State) { s == State(0, [], {}, None, None, {}, [], {}) }

  lemma InvStep(s: State, step: Step, s': State)
    requires Inv(s) && Next(s, step, s')
    ensures Inv(s')
  {
    if step.Uncount? || step.Remove? {
      CleanupStep(s, step, s');
    } else {
      CommandStep(s, step, s');
    }
  }

  lemma CleanupStep(s: State, step: Step, s': State)
    requires Inv(s) && Next(s, step, s') && (step.Uncount? || step.Remove?)
    ensures Inv(s')
  {
    if step.Uncount? {
      assert s.registered - s.dying == s.registered == (s.registered - step.dead) + step.dead;
    } else {
      assert s'.registered - s'.dying == s.registered - s.dying;
    }
  }

  lemma CommandStep(s: State, step: Step, s': State)
    requires Inv(s) && Next(s, step, s') && !step.Uncount? && !step.Remove?
    ensures Inv(s')
  {
    match step
    case HandOver => AddsSnoc(s.queue, s.joining.value);
    case Dispatch(msg) => AddsSnoc(s.queue, Broadcast(msg));
    case SendShutdown => AddsSnoc(s.queue, Shutdown);
    case Take => RegisterOne(s, s.queue[0]);
    case TakeDeferred => RegisterOne(s, s.deferred.value);
    case CountNew(_) =>
    case HandOverFails =>
    case Defer =>
  }

  lemma RegisterOne(s: State, c: Cmd)
    requires s.dying == {} && HeldInv(s)
    ensures |Register(s, c).registered - {}| <= |s.registered - {}| + (if c.AddSubscriber? then 1 else 0)
    ensures HeldInv(Register(s, c))
  {
    var now := Register(s, c).registered;
    assert now - {} == now && s.registered - {} == s.registered;
  }

  ghost predicate IsRun(run: seq<State>, steps: seq<Step>) {
    |run| == |steps| + 1 && Init(run[0]) && forall i :: 0 <= i < |steps| ==> Next(run[i], steps[i], run[i + 1])
  }

  lemma {:induction false} RunInv(run: seq<State>, steps: seq<Step>, k: nat)
    requires IsRun(run, steps) && k < |run|
    ensures Inv(run[k])
    decreases k
  {
    if k == 0 {
    } else {
      RunInv(run, steps, k - 1);
      InvStep(run[k - 1], steps[k - 1], run[k - 1 + 1]);
    }
  }

  /** In every run the counter never underflows, and a counter at zero, which makes `dispatch` skip the worker,
    * means that it neither holds nor is about to hold a subscriber. */
  lemma SkippedWorkerIsEmpty(run: seq<State>, steps: seq<Step>, k: nat)
    requires IsRun(run, steps) && k < |run|
    ensures run[k].count >= 0
    ensures run[k].count == 0 ==>
              run[k].registered == run[k].dying && run[k].joining.None?
              && (forall i :: 0 <= i < |run[k].queue| ==> !run[k].queue[i].AddSubscriber?)
              && (run[k].deferred.Some? ==> !run[k].deferred.value.AddSubscriber?)
  {
    RunInv(run, steps, k);
    EmptyAtZero(run[k]);
  }

  lemma EmptyAtZero(s: State)
    requires Inv(s)
    ensures s.count >= 0
    ensures s.count == 0 ==>
              s.registered == s.dying && s.joining.None?
              && (forall i :: 0 <= i < |s.queue| ==> !s.queue[i].AddSubscriber?)
              && (s.deferred.Some? ==> !s.deferred.value.AddSubscriber?)
  {
    if s.count == 0 {
      NoAdds(s.queue);
      assert s.registered - s.dying == {};
    }
  }

  lemma {:induction false} NoAdds(queue: seq<Cmd>)
    requires Adds(queue) == 0
    ensures forall i :: 0 <= i < |queue| ==> !queue[i].AddSubscriber?
  {
    if queue == [] {
    } else {
      NoAdds(queue[1..]);
      assert forall i :: 0 < i < |queue| ==> queue[i] == queue[1..][i - 1];
    }
  }

  /** Every command ever queued for the worker, in order. */
  function History(s: State): seq<Cmd> { s.taken + Pending(s.deferred) + s.queue }

  /** A subscriber that was added and attached, and has not gone, keeps its worker from being skipped. */
  lemma AddedIsCounted(s: State, c: Cmd)
    requires Inv(s) && c in History(s) && c.AddSubscriber? && c.attaches
    requires c.id !in s.removed && c.id !in s.dying
    ensures s.count > 0
  {
    EmptyAtZero(s);
    assert c in s.taken || c in Pending(s.deferred) || c in s.queue;
    if c in s.queue {
      var i :| 0 <= i < |s.queue| && s.queue[i] == c;
      assert s.queue[i].AddSubscriber?;
    }
  }

  /** What the publisher finds at one worker: its counter, the length of its queue, and whether its channel is open. */
  datatype Load = Load(count: nat, length: nat, open: bool)

  datatype Outcome = Skipped | Closed | Dropped | Enqueued

  function OutcomeOf(load: Load, hwm: nat): Outcome {
    if load.count == 0 then Skipped else if !load.open then Closed else if load.length >= hwm then Dropped else Enqueued
  }

  function Drops(loads: seq<Load>, hwm: nat): nat {
    if loads == [] then 0
    else Drops(loads[..|loads| - 1], hwm) + (if OutcomeOf(loads[|loads| - 1], hwm).Dropped? then 1 else 0)
  }

  lemma DropsSnoc(loads: seq<Load>, load: Load, hwm: nat)
    ensures Drops(loads + [load], hwm) == Drops(loads, hwm) + (if OutcomeOf(load, hwm).Dropped? then 1 else 0)
  {
    assert (loads + [load])[..|loads|] == loads;
  }

  /** The visits that met subscribers and an open channel without room. */
  ghost function FullAt(loads: seq<Load>, hwm: nat): set<nat> {
    set i: nat | i < |loads| && loads[i].count > 0 && loads[i].open && loads[i].length >= hwm
  }

  lemma {:induction false} DropsAreFull(loads: seq<Load>, hwm: nat)
    ensures Drops(loads, hwm) == |FullAt(loads, hwm)|
  {
    if loads == [] {
    } else {
      var k, init := |loads| - 1, loads[..|loads| - 1];
      DropsAreFull(init, hwm);
      assert forall i :: 0 <= i < k ==> init[i] == loads[i];
      if OutcomeOf(loads[k], hwm).Dropped? {
        assert FullAt(loads, hwm) == FullAt(init, hwm) + {k};
      } else {
        assert FullAt(loads, hwm) == FullAt(init, hwm);
      }
    }
  }

  /** What a worker's channel has been given after the visits in `loads`. */
  ghost predicate Handed(before: seq<seq<Cmd>>, after: seq<seq<Cmd>>, loads: seq<Load>, hwm: nat, msg: seq<Bytes>) {
    |loads| <= |after| == |before| && forall i :: 0 <= i < |after| ==>
      after[i] == before[i] + if i < |loads| && OutcomeOf(loads[i], hwm).Enqueued? then [Broadcast(msg)] else []
  }

  lemma HandedStep(before: seq<seq<Cmd>>, after: seq<seq<Cmd>>, loads: seq<Load>, load: Load, hwm: nat, msg: seq<Bytes>)
    requires Handed(before, after, loads, hwm, msg) && |loads| < |after|
    ensures var i := |loads|;
            if OutcomeOf(load, hwm).Enqueued?
            then Handed(before, after[i := after[i] + [Broadcast(msg)]], loads + [load], hwm, msg)
            else Handed(before, after, loads + [load], hwm, msg)
  {
    var i := |loads|;
    assert after[i] == before[i] + [] == before[i];
  }

  /** The publisher's side of the worker channels. The workers run at the same time: between any two visits they may
    * take commands off their queues, change their counters and exit. */
  class Publisher {
    const hwm: nat
    var counts: seq<nat>
    var queues: seq<seq<Cmd>>
    var open: seq<bool>
    var dropCount: nat
    ghost var enqueued: seq<seq<Cmd>>  // everything each channel was ever given

    /** A queue is what is left of what its channel was given. */
    ghost predicate Valid()
      reads this
    {
      && |queues| == |open| == |counts| == |enqueued|
      && forall i :: 0 <= i < |queues| ==> Suffix(queues[i], enqueued[i])
    }

    constructor (hwm: nat, counts: seq<nat>)
      ensures Valid() && this.hwm == hwm && this.counts == counts && dropCount == 0
      ensures forall i :: 0 <= i < |queues| ==> queues[i] == [] && open[i]
    {
      this.hwm, this.counts, dropCount := hwm, counts, 0;
      queues, open := seq(|counts|, _ => []), seq(|counts|, _ => true);
      enqueued := seq(|counts|, _ => []);
    }

    /** Whatever the workers do meanwhile. */
    method WorkersRun()
      requires Valid()
      modifies this`counts, this`queues, this`open
      ensures Valid() && |counts| == old(|counts|)
    {
      counts := seq(|counts|, _ => 0);
      for i := 0 to |counts|
        invariant Valid() && |counts| == old(|counts|)
      {
        var count: nat := *;
        var gone: bool := *;
        var n: nat :| n <= |queues[i]|;
        DropSuffix(queues[i], enqueued[i], n);
        counts, queues, open := counts[i := count], queues[i := queues[i][n..]], open[i := open[i] && !gone];
      }
    }

    /** Where a call stands after the visits in `loads`. */
    ghost predicate Progress(before: seq<seq<Cmd>>, drops: nat, loads: seq<Load>, failed: Option<nat>, msg: seq<Bytes>)
      reads this
    {
      && Handed(before, enqueued, loads, hwm, msg)
      && dropCount == drops + Drops(loads, hwm)
      && ClosedAt(loads, hwm, failed)
    }

    /** Each worker gets the message or adds one to the drop count, unless its counter is zero when it is visited, up to
      * the first whose channel is closed, which ends the call. */
    method DispatchAll(msg: seq<Bytes>) returns (failed: Option<nat>, ghost loads: seq<Load>)
      requires Valid()
      modifies this`counts, this`queues, this`open, this`dropCount, this`enqueued
      ensures Valid() && |counts| == old(|counts|)
      ensures |loads| == if failed.Some? then failed.value + 1 else |counts|
      ensures Progress(old(enqueued), old(dropCount), loads, failed, msg)
      ensures forall i :: 0 <= i < |loads| && loads[i].count > 0 && loads[i].open && loads[i].length < hwm ==>
                enqueued[i] == old(enqueued)[i] + [Broadcast(msg)]
      ensures forall i :: 0 <= i < |loads| && (loads[i].count == 0 || !loads[i].open || loads[i].length >= hwm) ==>
                enqueued[i] == old(enqueued)[i]
      ensures forall i :: |loads| <= i < |enqueued| ==> enqueued[i] == old(enqueued)[i]
      ensures dropCount == old(dropCount) + |FullAt(loads, hwm)|
      ensures failed.Some? ==> loads[failed.value].count > 0 && !loads[failed.value].open
      ensures forall i :: 0 <= i < |loads| && Some(i) != failed ==> loads[i].count == 0 || loads[i].open
    {
      loads, failed := [], None;
      ghost var before, drops := enqueued, dropCount;
      var i: nat := 0;
      while i < |counts| && failed.None?
        invariant Valid() && |counts| == old(|counts|) && |loads| == i <= |counts|
        invariant Progress(before, drops, loads, failed, msg)
        invariant failed.Some? ==> i == failed.value + 1
        decreases |counts| - i
      {
        WorkersRun();
        failed, loads := Visit(i, msg, before, drops, loads);
        i := i + 1;
      }
      DropsAreFull(loads, hwm);
    }

    /** One worker. */
    method Visit(i: nat, msg: seq<Bytes>, ghost before: seq<seq<Cmd>>, ghost drops: nat, ghost loads: seq<Load>)
      returns (failed: Option<nat>, ghost loads': seq<Load>)
      requires Valid() && |loads| == i < |counts| && Progress(before, drops, loads, None, msg)
      modifies this`queues, this`dropCount, this`enqueued
      ensures Valid() && loads' == loads + [old(Load(counts[i], |queues[i]|, open[i]))]
      ensures Progress(before, drops, loads', failed, msg) && (failed.Some? ==> failed.value == i)
    {
      ghost var load := Load(counts[i], |queues[i]|, open[i]);
      loads' := loads + [load];
      DropsSnoc(loads, load, hwm);
      HandedStep(before, enqueued, loads, load, hwm, msg);
      failed := None;
      if counts[i] != 0 {
        if !open[i] {
          return Some(i), loads';
        }
        if |queues[i]| >= hwm {
          dropCount := dropCount + 1;
        } else {
          GrowSuffix(queues[i], enqueued[i], Broadcast(msg));
          queues, enqueued := queues[i := queues[i] + [Broadcast(msg)]], enqueued[i := enqueued[i] + [Broadcast(msg)]];
        }
      }
    }
  }

  /** The only closed channel met is the one the call failed at. */
  ghost predicate ClosedAt(loads: seq<Load>, hwm: nat, failed: Option<nat>) {
    forall i :: 0 <= i < |loads| ==> (OutcomeOf(loads[i], hwm).Closed? <==> failed == Some(i))
  }

  ghost predicate Suffix(s: seq<Cmd>, whole: seq<Cmd>) { |s| <= |whole| && s == whole[|whole| - |s|..] }

  lemma DropSuffix(s: seq<Cmd>, whole: seq<Cmd>, n: nat)
    requires Suffix(s, whole) && n <= |s|
    ensures Suffix(s[n..], whole)
  {
  }

  lemma GrowSuffix(s: seq<Cmd>, whole: seq<Cmd>, c: Cmd)
    requires Suffix(s, whole)
    ensures Suffix(s + [c], whole + [c])
  {
  }
}

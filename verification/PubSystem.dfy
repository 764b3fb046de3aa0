/** One system of subscription readers, publisher and worker (monocoque-zmtp/src/publisher.rs). The readers and the
  * prefilter step as in `Prefilter`, the worker's counter and queue as in `Workers`, and all of them interleave. The
  * worker reads a subscriber's list when it writes to it. */
module PubSystem {
  import opened ByteStrings
  import opened Framing
  import opened Commands
  import opened Coalesce
  import S = Subscriptions
  import P = Prefilter
  import W = Workers

  /** `outgoing` is a message past the prefilter and not yet handed on. The worker collects a `batch` and then writes
    * it to the subscribers in `todo`, one after the other; `failed` are those whose write failed. */
  datatype State = State(
    pub: P.State, worker: W.State, outgoing: Option<seq<Bytes>>,
    batch: seq<seq<Bytes>>, writing: bool, todo: set<S.Id>, failed: set<S.Id>, streams: map<S.Id, Bytes>)

  ghost predicate Init(s: State) {
    P.Init(s.pub) && W.Init(s.worker) && s == State(s.pub, s.worker, None, [], false, {}, {}, map[])
  }

  /** A step of a reader or of the prefilter other than its decision; a publisher with a message in hand does nothing
    * else first. */
  ghost predicate PubStep(s: State, s': State) {
    && P.Next(s.pub, s'.pub) && s' == s.(pub := s'.pub)
    && (s.pub.pub.Deciding? || s.outgoing.Some? ==> s'.pub.pub == s.pub.pub)
  }

  ghost predicate Decides(s: State, msg: seq<Bytes>, s': State) {
    && s.outgoing.None? && s.pub.pub.Deciding? && msg != [] && msg[0] == s.pub.pub.topic && P.Decide(s.pub, s'.pub)
    && s' == s.(pub := s'.pub, outgoing := if S.UnionMatches(s.pub.localUnion, msg[0]) then Some(msg) else None)
  }

  /** The hand-off: skipped at a counter of zero, dropped at a full channel. */
  ghost predicate Hands(s: State, hwm: nat, s': State) {
    s.outgoing.Some? &&
    if s.worker.count == 0 || |s.worker.queue| >= hwm then s' == s.(outgoing := None)
    else W.Next(s.worker, W.Dispatch(s.outgoing.value), s'.worker) && s' == s.(worker := s'.worker, outgoing := None)
  }

  /** The publisher's part of an accept, and of a shutdown. */
  ghost predicate Accepts(s: State, step: W.Step, s': State) {
    && (step.CountNew? || step.HandOver? || step.HandOverFails? || step.SendShutdown?) && s.outgoing.None?
    && W.Next(s.worker, step, s'.worker) && s' == s.(worker := s'.worker)
  }

  ghost predicate Running(s: State) { Shutdown !in s.worker.taken }

  ghost predicate Collects(s: State, s': State) {
    && Running(s) && !s.writing && s.worker.queue != [] && s.worker.queue[0].Broadcast?
    && W.Next(s.worker, W.Take, s'.worker) && s' == s.(worker := s'.worker, batch := s.batch + [s.worker.queue[0].msg])
  }

  /** A command of another kind ends the collecting. */
  ghost predicate Interrupts(s: State, s': State) {
    && Running(s) && !s.writing && s.batch != [] && s.worker.queue != [] && !s.worker.queue[0].Broadcast?
    && W.Next(s.worker, W.Defer, s'.worker) && s' == s.(worker := s'.worker)
  }

  /** A command that is no broadcast, fresh or deferred. */
  ghost predicate Obeys(s: State, c: Cmd, s': State) {
    && Running(s) && !s.writing && s.batch == [] && !c.Broadcast?
    && ((s.worker.queue != [] && c == s.worker.queue[0] && W.Next(s.worker, W.Take, s'.worker))
        || (s.worker.deferred == Some(c) && W.Next(s.worker, W.TakeDeferred, s'.worker)))
    && s' == s.(worker := s'.worker,
                streams := if c.AddSubscriber? && c.attaches then s.streams[c.id := []] else s.streams)
  }

  ghost predicate StartsWriting(s: State, s': State) {
    !s.writing && s.batch != [] && s' == s.(writing := true, todo := s.worker.registered)
  }

  /** One subscriber's slice of the batch, by the list it has now; a failed write may leave some of it behind. */
  ghost predicate Writes(s: State, id: S.Id, ok: bool, n: nat, s': State) {
    s.writing && id in s.todo && id in s.streams && id in s.pub.lists &&
    var out := WireWanted(s.pub.lists[id], s.batch);
    if ok then s' == s.(todo := s.todo - {id}, streams := s.streams[id := s.streams[id] + out])
    else n <= |out| && out != [] &&
         s' == s.(todo := s.todo - {id}, streams := s.streams[id := s.streams[id] + out[..n]],
             failed := s.failed + {id})
  }

  ghost predicate Uncounts(s: State, s': State) {
    && s.writing && s.todo == {} && s.worker.dying == {}
    && W.Next(s.worker, W.Uncount(s.failed), s'.worker) && s' == s.(worker := s'.worker)
  }

  ghost predicate Finishes(s: State, s': State) {
    && s.writing && s.todo == {} && s.worker.dying == s.failed
    && W.Next(s.worker, W.Remove, s'.worker)
    && s' == s.(worker := s'.worker, batch := [], writing := false, failed := {})
  }

  ghost predicate Next(s: State, hwm: nat, s': State) {
    || PubStep(s, s')
    || (exists msg :: Decides(s, msg, s'))
    || Hands(s, hwm, s')
    || (exists step :: Accepts(s, step, s'))
    || Collects(s, s')
    || Interrupts(s, s')
    || (exists c :: Obeys(s, c, s'))
    || StartsWriting(s, s')
    || (exists id, ok, n: nat :: Writes(s, id, ok, n, s'))
    || Uncounts(s, s')
    || Finishes(s, s')
  }

  /** The worker's counter is sound, the batch is the last it took, and only registered subscribers are written to. */
  ghost predicate Inv(s: State) {
    && W.Inv(s.worker)
    && |s.batch| <= |s.worker.taken| && s.worker.taken[|s.worker.taken| - |s.batch|..] == Broadcasts(s.batch)
    && s.todo <= s.worker.registered <= s.streams.Keys
    && s.failed <= s.worker.registered
    && (s.worker.dying == {} || (s.worker.dying == s.failed && s.todo == {}))
    && (!s.writing ==> s.todo == {} && s.failed == {} && s.worker.dying == {})
    && s.failed !! s.todo
  }

  lemma InitInv(s: State)
    requires Init(s)
    ensures Inv(s)
  {
  }

  lemma NextInv(s: State, hwm: nat, s': State)
    requires Inv(s) && Next(s, hwm, s')
    ensures Inv(s')
  {
    if Collects(s, s') {
      CollectInv(s, s');
    } else if c :| Obeys(s, c, s') {
      ObeyInv(s, c, s');
    } else if Uncounts(s, s') || Finishes(s, s') {
      CleanupInv(s, s');
    } else if StartsWriting(s, s') {
      StartInv(s, s');
    } else if id, ok, n: nat :| Writes(s, id, ok, n, s') {
      WriteInv(s, id, ok, n, s');
    } else if Interrupts(s, s') {
      QueueInv(s, W.Defer, s');
    } else if step :| Accepts(s, step, s') {
      QueueInv(s, step, s');
    } else if Hands(s, hwm, s') && s'.worker != s.worker {
      QueueInv(s, W.Dispatch(s.outgoing.value), s');
    } else {
      SameWorker(s, s');
    }
  }

  lemma SameWorker(s: State, s': State)
    requires Inv(s) && s' == s.(pub := s'.pub, outgoing := s'.outgoing)
    ensures Inv(s')
  {
  }

  /** A step that adds to the queue, or sets its front aside. */
  lemma QueueInv(s: State, step: W.Step, s': State)
    requires Inv(s) && W.Next(s.worker, step, s'.worker)
    requires !step.Take? && !step.TakeDeferred? && !step.Uncount? && !step.Remove?
    requires s' == s.(worker := s'.worker, outgoing := s'.outgoing)
    ensures Inv(s')
  {
    W.InvStep(s.worker, step, s'.worker);
  }

  lemma CollectInv(s: State, s': State)
    requires Inv(s) && Collects(s, s')
    ensures Inv(s')
  {
    W.InvStep(s.worker, W.Take, s'.worker);
    CollectedBatch(s.worker.taken, s.batch, s.worker.queue[0].msg);
  }

  lemma CleanupInv(s: State, s': State)
    requires Inv(s) && (Uncounts(s, s') || Finishes(s, s'))
    ensures Inv(s')
  {
    if Uncounts(s, s') {
      W.InvStep(s.worker, W.Uncount(s.failed), s'.worker);
    } else {
      W.InvStep(s.worker, W.Remove, s'.worker);
    }
  }

  lemma StartInv(s: State, s': State)
    requires Inv(s) && StartsWriting(s, s')
    ensures Inv(s')
  {
  }

  lemma WriteInv(s: State, id: S.Id, ok: bool, n: nat, s': State)
    requires Inv(s) && Writes(s, id, ok, n, s')
    ensures Inv(s')
  {
  }

  lemma ObeyInv(s: State, c: Cmd, s': State)
    requires Inv(s) && Obeys(s, c, s')
    ensures Inv(s')
  {
    if s.worker.deferred == Some(c) && W.Next(s.worker, W.TakeDeferred, s'.worker) {
      W.InvStep(s.worker, W.TakeDeferred, s'.worker);
    } else {
      W.InvStep(s.worker, W.Take, s'.worker);
    }
  }

  lemma CollectedBatch(taken: seq<Cmd>, batch: seq<seq<Bytes>>, msg: seq<Bytes>)
    requires |batch| <= |taken| && taken[|taken| - |batch|..] == Broadcasts(batch)
    ensures var now, more := taken + [Broadcast(msg)], batch + [msg];
            now[|now| - |more|..] == Broadcasts(more)
  {
    var now := taken + [Broadcast(msg)];
    assert now[|now| - |batch| - 1..] == taken[|taken| - |batch|..] + [Broadcast(msg)];
  }

  /** The broadcasts among the commands. */
  function Casts(cmds: seq<Cmd>): seq<seq<Bytes>> {
    Concat((c: Cmd) => if c.Broadcast? then [c.msg] else [], cmds)
  }

  lemma CastsAppend(a: seq<Cmd>, b: seq<Cmd>)
    ensures Casts(a + b) == Casts(a) + Casts(b)
  {
    ConcatAppend((c: Cmd) => if c.Broadcast? then [c.msg] else [], a, b);
  }

  lemma CastsOne(c: Cmd)
    ensures Casts([c]) == if c.Broadcast? then [c.msg] else []
  {
    ConcatOne((d: Cmd) => if d.Broadcast? then [d.msg] else [], c);
  }

  lemma {:induction false} CastsOfBatch(batch: seq<seq<Bytes>>)
    ensures Casts(Broadcasts(batch)) == batch
  {
    if batch == [] {
    } else {
      var rest := batch[1..];
      assert Broadcasts(batch) == [Broadcast(batch[0])] + Broadcasts(rest);
      CastsAppend([Broadcast(batch[0])], Broadcasts(rest));
      CastsOne(Broadcast(batch[0]));
      CastsOfBatch(rest);
    }
  }

  /** How many of the commands taken a subscriber has been served for. */
  function ServedUpTo(s: State, id: S.Id): nat {
    if s.writing && id !in s.todo then |s.worker.taken|
    else if |s.batch| <= |s.worker.taken| then |s.worker.taken| - |s.batch| else 0
  }

  /** Registered, and no write has failed. */
  ghost predicate Standing(s: State, id: S.Id) { id in s.worker.registered && id in s.streams && id !in s.failed }

  /** From `s` to `s'` the subscriber's stream grew by the broadcasts its list wants, of those it was served for. */
  ghost predicate Grew(s: State, id: S.Id, subs: seq<Bytes>, s': State) {
    && s.worker.taken <= s'.worker.taken && ServedUpTo(s, id) <= ServedUpTo(s', id) <= |s'.worker.taken|
    && id in s.streams && id in s'.streams
    && s'.streams[id] ==
       s.streams[id] + WireWanted(subs, Casts(s'.worker.taken[ServedUpTo(s, id)..ServedUpTo(s', id)]))
  }

  lemma NothingNew(s: State, id: S.Id, subs: seq<Bytes>, s': State)
    requires Quiet(s, id, s')
    ensures Grew(s, id, subs, s')
  {
    var u := ServedUpTo(s, id);
    assert s'.worker.taken[u..u] == [] && s.streams[id] + [] == s.streams[id];
  }

  /** The subscriber is not added again: identifiers are given out once. */
  ghost predicate NotAddedSince(before: seq<Cmd>, now: seq<Cmd>, id: S.Id) {
    forall i :: |before| <= i < |now| ==> !(now[i].AddSubscriber? && now[i].id == id)
  }

  ghost predicate Quiet(s: State, id: S.Id, s': State) {
    && s.worker.taken <= s'.worker.taken && ServedUpTo(s', id) == ServedUpTo(s, id) <= |s'.worker.taken|
    && id in s.streams && id in s'.streams && s'.streams[id] == s.streams[id]
  }

  lemma CollectQuiet(s: State, s': State, id: S.Id)
    requires Inv(s) && Collects(s, s') && Standing(s, id)
    ensures Quiet(s, id, s')
  {
  }

  lemma CleanupQuiet(s: State, s': State, id: S.Id)
    requires Inv(s) && (Uncounts(s, s') || Finishes(s, s')) && Standing(s, id)
    ensures Quiet(s, id, s')
  {
  }

  lemma StartQuiet(s: State, s': State, id: S.Id)
    requires Inv(s) && StartsWriting(s, s') && Standing(s, id)
    ensures Quiet(s, id, s')
  {
  }

  lemma QueueQuiet(s: State, step: W.Step, s': State, id: S.Id)
    requires Inv(s) && W.Next(s.worker, step, s'.worker) && Standing(s, id)
    requires !step.Take? && !step.TakeDeferred? && !step.Uncount? && !step.Remove?
    requires s' == s.(worker := s'.worker, outgoing := s'.outgoing)
    ensures Quiet(s, id, s')
  {
  }

  /** Every step but a write and a command leaves the subscriber's stream alone, and what it was served for. */
  lemma OtherStepQuiet(s: State, hwm: nat, s': State, id: S.Id)
    requires Inv(s) && Next(s, hwm, s') && Standing(s, id)
    requires !(exists c :: Obeys(s, c, s')) && !(exists w, ok, n: nat :: Writes(s, w, ok, n, s'))
    ensures Quiet(s, id, s')
  {
    if Collects(s, s') {
      CollectQuiet(s, s', id);
    } else if Uncounts(s, s') || Finishes(s, s') {
      CleanupQuiet(s, s', id);
    } else if StartsWriting(s, s') {
      StartQuiet(s, s', id);
    } else if Interrupts(s, s') {
      QueueQuiet(s, W.Defer, s', id);
    } else if step :| Accepts(s, step, s') {
      QueueQuiet(s, step, s', id);
    } else if Hands(s, hwm, s') && s'.worker != s.worker {
      QueueQuiet(s, W.Dispatch(s.outgoing.value), s', id);
    } else {
      assert s' == s.(pub := s'.pub, outgoing := s'.outgoing);
    }
  }

  /** One step, of anybody. */
  lemma GrowsByStep(s: State, hwm: nat, s': State, id: S.Id, subs: seq<Bytes>)
    requires Inv(s) && Next(s, hwm, s') && Standing(s, id) && Standing(s', id)
    requires id in s.pub.lists && s.pub.lists[id] == subs
    requires NotAddedSince(s.worker.taken, s'.worker.taken, id)
    ensures Grew(s, id, subs, s')
  {
    if c :| Obeys(s, c, s') {
      ObeyGrows(s, c, s', id, subs);
    } else if w, ok, n: nat :| Writes(s, w, ok, n, s') {
      WriteGrows(s, w, ok, n, s', id, subs);
    } else {
      OtherStepQuiet(s, hwm, s', id);
      NothingNew(s, id, subs, s');
    }
  }

  lemma ObeyGrows(s: State, c: Cmd, s': State, id: S.Id, subs: seq<Bytes>)
    requires Inv(s) && Obeys(s, c, s') && Standing(s, id)
    requires NotAddedSince(s.worker.taken, s'.worker.taken, id)
    ensures Grew(s, id, subs, s')
  {
    var u := |s.worker.taken|;
    assert s'.worker.taken == s.worker.taken + [c] && s'.worker.taken[u] == c;
    assert s'.worker.taken[u..] == [c] && s'.worker.taken[u..u + 1] == [c];
    CastsOne(c);
    assert s.streams[id] + [] == s.streams[id];
  }

  lemma WriteGrows(s: State, w: S.Id, ok: bool, n: nat, s': State, id: S.Id, subs: seq<Bytes>)
    requires Inv(s) && Writes(s, w, ok, n, s') && Standing(s, id) && Standing(s', id)
    requires id in s.pub.lists && s.pub.lists[id] == subs
    ensures Grew(s, id, subs, s')
  {
    if w == id {
      var taken := s.worker.taken;
      assert taken[|taken| - |s.batch|..|taken|] == taken[|taken| - |s.batch|..];
      CastsOfBatch(s.batch);
    } else {
      NothingNew(s, id, subs, s');
    }
  }

  lemma GrewTwice(a: State, b: State, c: State, id: S.Id, subs: seq<Bytes>)
    requires Grew(a, id, subs, b) && Grew(b, id, subs, c)
    ensures Grew(a, id, subs, c)
  {
    var x, y, z := ServedUpTo(a, id), ServedUpTo(b, id), ServedUpTo(c, id);
    var taken := c.worker.taken;
    assert b.worker.taken[x..y] == taken[x..y];
    assert taken[x..z] == taken[x..y] + taken[y..z];
    CastsAppend(taken[x..y], taken[y..z]);
    WireWantedAppend(subs, Casts(taken[x..y]), Casts(taken[y..z]));
    Assoc(a.streams[id], WireWanted(subs, Casts(taken[x..y])), WireWanted(subs, Casts(taken[y..z])));
  }

  ghost predicate StepAt(run: seq<State>, hwm: nat, i: nat)
    requires i + 1 < |run|
  {
    Next(run[i], hwm, run[i + 1])
  }

  ghost predicate IsRun(run: seq<State>, hwm: nat) {
    run != [] && Init(run[0]) && forall i: nat :: i + 1 < |run| ==> StepAt(run, hwm, i)
  }

  lemma {:induction false} RunInv(run: seq<State>, hwm: nat, k: nat)
    requires IsRun(run, hwm) && k < |run|
    ensures Inv(run[k])
    decreases k
  {
    if k == 0 {
      InitInv(run[0]);
    } else {
      RunInv(run, hwm, k - 1);
      assert StepAt(run, hwm, k - 1);
      NextInv(run[k - 1], hwm, run[k]);
    }
  }

  /** The readers and the prefilter by themselves. */
  function Readers(run: seq<State>): seq<P.State> { seq(|run|, i requires 0 <= i < |run| => run[i].pub) }

  lemma PubMoves(s: State, hwm: nat, s': State)
    requires Next(s, hwm, s')
    ensures P.Moves(s.pub, s'.pub)
  {
    if PubStep(s, s') {
    } else if msg :| Decides(s, msg, s') {
    } else {
      assert s'.pub == s.pub;
    }
  }

  lemma ReadersRun(run: seq<State>, hwm: nat)
    requires IsRun(run, hwm)
    ensures P.IsRun(Readers(run))
  {
    var readers := Readers(run);
    forall i: nat | i + 1 < |readers| ensures P.StepAt(readers, i) {
      assert StepAt(run, hwm, i);
      PubMoves(run[i], hwm, run[i + 1]);
    }
  }

  /** Between `b` and `t` the subscriber is in no update. */
  ghost predicate SteadyFrom(run: seq<State>, b: nat, t: nat, id: S.Id)
    requires t < |run|
  {
    forall i :: b <= i <= t ==> P.Steady(run[i].pub, id) && id in run[i].pub.lists
  }

  ghost predicate StandingFrom(run: seq<State>, b: nat, t: nat, id: S.Id)
    requires t < |run|
  {
    forall i :: b <= i <= t ==> Standing(run[i], id)
  }

  lemma {:induction false} SteadyListAt(run: seq<State>, hwm: nat, b: nat, t: nat, id: S.Id)
    requires IsRun(run, hwm) && b <= t < |run| && SteadyFrom(run, b, t, id)
    ensures run[t].pub.lists[id] == run[b].pub.lists[id]
    decreases t
  {
    if t == b {
    } else {
      SteadyListAt(run, hwm, b, t - 1, id);
      assert StepAt(run, hwm, t - 1);
      PubMoves(run[t - 1], hwm, run[t]);
      assert P.Steady(run[t - 1].pub, id) && P.Steady(run[t].pub, id);
      P.SteadyList(run[t - 1].pub, run[t].pub, id);
    }
  }

  /** In every run, whatever the others do: over a stretch in which a subscriber is in no update and no write to it
    * fails, its stream grows by exactly the broadcasts its list wants, in the order the worker took them. */
  lemma {:induction false} StreamExact(run: seq<State>, hwm: nat, b: nat, t: nat, id: S.Id)
    requires IsRun(run, hwm) && b <= t < |run| && SteadyFrom(run, b, t, id) && StandingFrom(run, b, t, id)
    requires NotAddedSince(run[b].worker.taken, run[t].worker.taken, id)
    ensures Grew(run[b], id, run[b].pub.lists[id], run[t])
    decreases t
  {
    if t == b {
      RunInv(run, hwm, b);
      NothingNew(run[b], id, run[b].pub.lists[id], run[b]);
    } else {
      SteadyListAt(run, hwm, b, t - 1, id);
      TakenGrows(run, hwm, t - 1);
      StreamExact(run, hwm, b, t - 1, id);
      GrowsOn(run[b], run, hwm, t - 1, id, run[b].pub.lists[id]);
    }
  }

  lemma GrowsOn(base: State, run: seq<State>, hwm: nat, i: nat, id: S.Id, subs: seq<Bytes>)
    requires IsRun(run, hwm) && i + 1 < |run| && Grew(base, id, subs, run[i])
    requires Standing(run[i], id) && Standing(run[i + 1], id)
    requires id in run[i].pub.lists && run[i].pub.lists[id] == subs
    requires NotAddedSince(base.worker.taken, run[i + 1].worker.taken, id)
    ensures Grew(base, id, subs, run[i + 1])
  {
    RunInv(run, hwm, i);
    assert StepAt(run, hwm, i);
    assert NotAddedSince(run[i].worker.taken, run[i + 1].worker.taken, id);
    GrowsByStep(run[i], hwm, run[i + 1], id, subs);
    GrewTwice(base, run[i], run[i + 1], id, subs);
  }

  lemma TakenGrows(run: seq<State>, hwm: nat, i: nat)
    requires IsRun(run, hwm) && i + 1 < |run|
    ensures run[i].worker.taken <= run[i + 1].worker.taken
  {
    assert StepAt(run, hwm, i);
  }

  /** Over a steady stretch a wanted message that the worker took as command `p`, and has served the subscriber for, is
    * on the stream, right behind the messages it wanted of those taken before, and ahead of those taken after. */
  lemma OnStream(run: seq<State>, hwm: nat, b: nat, t: nat, id: S.Id, msg: seq<Bytes>, p: nat)
    requires IsRun(run, hwm) && b <= t < |run| && SteadyFrom(run, b, t, id) && StandingFrom(run, b, t, id)
    requires NotAddedSince(run[b].worker.taken, run[t].worker.taken, id)
    requires ServedUpTo(run[b], id) <= p < ServedUpTo(run[t], id) && p < |run[t].worker.taken|
    requires run[t].worker.taken[p] == Broadcast(msg) && Wants(run[b].pub.lists[id], msg)
    ensures InPlace(run[b], run[t], id, run[b].pub.lists[id], p, msg)
  {
    StreamExact(run, hwm, b, t, id);
    OneOfMany(run[b].streams[id], run[b].pub.lists[id], run[t].worker.taken,
              ServedUpTo(run[b], id), p, ServedUpTo(run[t], id), msg);
  }

  ghost predicate InPlace(s: State, s': State, id: S.Id, subs: seq<Bytes>, p: nat, msg: seq<Bytes>) {
    && ServedUpTo(s, id) <= p < ServedUpTo(s', id) <= |s'.worker.taken| && id in s.streams && id in s'.streams
    && var taken := s'.worker.taken;
       s'.streams[id] == s.streams[id] + WireWanted(subs, Casts(taken[ServedUpTo(s, id)..p]))
                         + WireMessage(msg) + WireWanted(subs, Casts(taken[p + 1..ServedUpTo(s', id)]))
  }

  /** A message in hand is only given up by the hand-off, which finds the counter at zero or the channel full, or puts
    * the message behind everything the worker was given before. */
  lemma HandedOn(s: State, hwm: nat, s': State)
    requires Next(s, hwm, s') && s.outgoing.Some?
    ensures s'.outgoing == s.outgoing || s'.outgoing.None?
    ensures s'.outgoing.None? ==>
              || s.worker.count == 0
              || |s.worker.queue| >= hwm
              || W.History(s'.worker) == W.History(s.worker) + [Broadcast(s.outgoing.value)]
  {
    if s'.outgoing.None? {
      assert Hands(s, hwm, s');
      if s'.worker != s.worker {
        Assoc(s.worker.taken + W.Pending(s.worker.deferred), s.worker.queue, [Broadcast(s.outgoing.value)]);
      }
    }
  }

  lemma {:induction false} KeptInHand(run: seq<State>, hwm: nat, b: nat, h: nat)
    requires IsRun(run, hwm) && b <= h < |run| && forall i :: b <= i <= h ==> run[i].outgoing.Some?
    ensures run[h].outgoing == run[b].outgoing
    decreases h
  {
    if h == b {
    } else {
      KeptInHand(run, hwm, b, h - 1);
      assert StepAt(run, hwm, h - 1);
      HandedOn(run[h - 1], hwm, run[h]);
    }
  }

  lemma WorkerHistory(w: W.State, step: W.Step, w': W.State)
    requires W.Next(w, step, w')
    ensures W.History(w) <= W.History(w')
  {
    var was := W.History(w);
    match step
    case Take => assert w.taken + [w.queue[0]] + [] + w.queue[1..] == was;
    case Defer => assert w.taken + [w.queue[0]] + w.queue[1..] == was;
    case TakeDeferred => assert w.taken + [w.deferred.value] + [] + w.queue == was;
    case HandOver => Assoc(w.taken + W.Pending(w.deferred), w.queue, [w.joining.value]);
    case Dispatch(msg) => Assoc(w.taken + W.Pending(w.deferred), w.queue, [Broadcast(msg)]);
    case SendShutdown => Assoc(w.taken + W.Pending(w.deferred), w.queue, [Shutdown]);
    case CountNew(_) =>
    case HandOverFails =>
    case Uncount(_) =>
    case Remove =>
  }

  lemma HistoryStep(s: State, hwm: nat, s': State)
    requires Next(s, hwm, s')
    ensures W.History(s.worker) <= W.History(s'.worker)
  {
    if s'.worker != s.worker {
      var step :| W.Next(s.worker, step, s'.worker);
      WorkerHistory(s.worker, step, s'.worker);
    }
  }

  lemma {:induction false} HistoryGrows(run: seq<State>, hwm: nat, b: nat, t: nat)
    requires IsRun(run, hwm) && b <= t < |run|
    ensures W.History(run[b].worker) <= W.History(run[t].worker)
    decreases t
  {
    if t == b {
    } else {
      HistoryGrows(run, hwm, b, t - 1);
      assert StepAt(run, hwm, t - 1);
      HistoryStep(run[t - 1], hwm, run[t]);
    }
  }

  /** The publisher's load at `a`, its decision on the message in the step from `k`, the hand-off in that from `h`. */
  ghost predicate Published(run: seq<State>, a: nat, k: nat, h: nat, msg: seq<Bytes>) {
    && a < k < h && h + 1 < |run| && msg != []
    && run[a].pub.pub.Resting? && (forall i :: a < i <= k ==> !run[i].pub.pub.Resting?)
    && Decides(run[k], msg, run[k + 1])
    && (forall i :: k < i <= h ==> run[i].outgoing.Some?) && run[h + 1].outgoing.None?
  }

  /** PUB delivery, part one: a message that a steady subscriber wants passes the prefilter, and unless the channel is
    * full it is put behind everything its worker was given before. */
  lemma WantedMessageQueued(run: seq<State>, hwm: nat, a: nat, k: nat, h: nat, id: S.Id, msg: seq<Bytes>)
    requires IsRun(run, hwm) && Published(run, a, k, h, msg) && SteadyFrom(run, a, k, id) && Standing(run[h], id)
    requires Wants(run[k].pub.lists[id], msg)
    ensures run[k + 1].outgoing == Some(msg) && run[h].worker.count > 0
    ensures |run[h].worker.queue| >= hwm || W.History(run[h + 1].worker) == W.History(run[h].worker) + [Broadcast(msg)]
  {
    Passes(run, hwm, a, k, id, msg);
    KeptInHand(run, hwm, k + 1, h);
    RunInv(run, hwm, h);
    W.EmptyAtZero(run[h].worker);
    assert StepAt(run, hwm, h);
    HandedOn(run[h], hwm, run[h + 1]);
  }

  /** Part two: whatever readers, publisher and worker do next, once the worker has served the steady subscriber for
    * that command, the message is on the subscriber's stream in its exact place. */
  lemma WantedMessageDelivered(run: seq<State>, hwm: nat, a: nat, k: nat, h: nat, t: nat, id: S.Id, msg: seq<Bytes>)
    requires IsRun(run, hwm) && Published(run, a, k, h, msg) && h < t < |run|
    requires SteadyFrom(run, a, t, id) && StandingFrom(run, h, t, id)
    requires NotAddedSince(run[h].worker.taken, run[t].worker.taken, id) && Wants(run[k].pub.lists[id], msg)
    ensures var p := |W.History(run[h].worker)|;
            || |run[h].worker.queue| >= hwm
            || ServedUpTo(run[t], id) <= p
            || InPlace(run[h], run[t], id, run[k].pub.lists[id], p, msg)
  {
    var p := |W.History(run[h].worker)|;
    assert Standing(run[h], id);
    WantedMessageQueued(run, hwm, a, k, h, id, msg);
    if |run[h].worker.queue| < hwm && ServedUpTo(run[t], id) > p {
      HistoryGrows(run, hwm, h + 1, t);
      RunInv(run, hwm, h);
      RunInv(run, hwm, t);
      assert run[t].worker.taken[p] == W.History(run[t].worker)[p] == Broadcast(msg);
      SteadyListAt(run, hwm, a, k, id);
      SteadyListAt(run, hwm, a, h, id);
      OnStream(run, hwm, h, t, id, msg, p);
    }
  }

  lemma Passes(run: seq<State>, hwm: nat, a: nat, k: nat, id: S.Id, msg: seq<Bytes>)
    requires IsRun(run, hwm) && a < k < |run| && SteadyFrom(run, a, k, id)
    requires run[a].pub.pub.Resting? && run[k].pub.pub.Deciding? && forall i :: a < i <= k ==> !run[i].pub.pub.Resting?
    requires msg != [] && run[k].pub.pub.topic == msg[0] && Wants(run[k].pub.lists[id], msg)
    ensures S.UnionMatches(run[k].pub.localUnion, msg[0])
  {
    ReadersRun(run, hwm);
    var readers := Readers(run);
    assert forall i :: a <= i <= k ==> readers[i] == run[i].pub;
    P.SteadySubscriberServed(readers, a, k, id);
  }

  lemma OneOfMany(stream: Bytes, subs: seq<Bytes>, taken: seq<Cmd>, x: nat, p: nat, y: nat, msg: seq<Bytes>)
    requires x <= p < y <= |taken| && taken[p] == Broadcast(msg) && Wants(subs, msg)
    ensures stream + WireWanted(subs, Casts(taken[x..y])) ==
            stream + WireWanted(subs, Casts(taken[x..p])) + WireMessage(msg) + WireWanted(subs, Casts(taken[p + 1..y]))
  {
    var before, after := Casts(taken[x..p]), Casts(taken[p + 1..y]);
    assert taken[x..y] == taken[x..p] + [taken[p]] + taken[p + 1..y];
    CastsAppend(taken[x..p] + [taken[p]], taken[p + 1..y]);
    CastsAppend(taken[x..p], [taken[p]]);
    CastsOne(taken[p]);
    WireWantedAppend(subs, before + [msg], after);
    WireWantedAppend(subs, before, [msg]);
    assert WireWanted(subs, [msg]) == WireMessage(msg) + WireWanted(subs, []);
    assert WireMessage(msg) + [] == WireMessage(msg);
    Assoc(stream, WireWanted(subs, before) + WireMessage(msg), WireWanted(subs, after));
    Assoc(stream, WireWanted(subs, before), WireMessage(msg));
  }
}

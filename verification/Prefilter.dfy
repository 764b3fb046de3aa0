/** The publisher's generation-cached prefilter under concurrent subscription writers
  * (monocoque-zmtp/src/publisher.rs), as a transition system over the atomic steps.
  *
  * A reader holds its own list's lock across an update. The union write and the generation bump
  * are two separate atomic steps, and other readers and the publisher run in between. */
module Prefilter {
  import opened ByteStrings
  import opened Subscriptions

  /** Where a subscriber's reader is; `at` is the position of its unfinished write in the log. */
  datatype ReaderPc =
    | Idle
    | SubWrote(prefix: Bytes, at: nat)  // union written, generation not bumped, list not yet extended
    | SubBumped(prefix: Bytes)          // generation bumped, list not yet extended
    | UnsubCut(prefix: Bytes)           // list cut, union not yet written
    | UnsubWrote(at: nat)               // union written, generation not bumped

  /** Where the publisher is; `bumps` are the updates whose bump came before the generation load. */
  datatype PubPc =
    | Resting
    | Accepting(id: Id, at: nat)                          // union written, generation not bumped
    | Loaded(topic: Bytes, gen: nat, bumps: set<nat>)     // generation loaded
    | Deciding(topic: Bytes, bumps: set<nat>)             // cache refreshed if need be, about to match

  /** The shared state, the publisher's cache, and the history: the union writes in lock order, the positions
    * of those already bumped, and the history the cache was read from. */
  datatype State = State(
    union: Union, gen: nat, lists: Lists, readers: map<Id, ReaderPc>,
    localUnion: Union, localGen: nat, pub: PubPc,
    log: seq<Update>, bumped: set<nat>, cacheLen: nat, cacheBumps: set<nat>)

  ghost predicate Init(s: State) {
    s == State(Union(0, multiset{}), 0, map[], map[], Union(0, multiset{}), 0, Resting, [], {}, 0, {})
  }

  /** A write under the union's lock. */
  ghost predicate Writes(s: State, u: Update, union: Union, s': State) {
    && s'.log == s.log + [u] && s'.union == union
    && s'.gen == s.gen && s'.bumped == s.bumped
  }

  /** A bump of the generation for the write at `at`. */
  ghost predicate Bumps(s: State, at: nat, s': State) {
    && s'.gen == s.gen + 1 && s'.bumped == s.bumped + {at}
    && s'.log == s.log && s'.union == s.union
  }

  ghost predicate SharedSame(s: State, s': State) {
    s'.log == s.log && s'.union == s.union && s'.gen == s.gen && s'.bumped == s.bumped
  }

  ghost predicate CacheSame(s: State, s': State) {
    s'.localUnion == s.localUnion && s'.localGen == s.localGen && s'.cacheLen == s.cacheLen
        && s'.cacheBumps == s.cacheBumps
  }

  /** The reader moves to `pc` with the list `list`; nobody else's changes. */
  ghost predicate ReaderAt(s: State, id: Id, pc: ReaderPc, list: seq<Bytes>, s': State) {
    && id in s.readers && id in s.lists
    && s'.readers == s.readers[id := pc] && s'.lists == s.lists[id := list]
    && s'.pub == s.pub && CacheSame(s, s')
  }

  ghost predicate ReaderSubWrite(s: State, id: Id, p: Bytes, s': State) {
    && id in s.readers && id in s.lists && s.readers[id] == Idle && p !in s.lists[id]
    && Writes(s, Sub(id, p),
              Union(if s.lists[id] == [] && s.union.matchAll > 0 then s.union.matchAll - 1 else s.union.matchAll,
                    s.union.held + multiset{p}), s')
    && ReaderAt(s, id, SubWrote(p, |s.log|), s.lists[id], s')
  }

  ghost predicate ReaderSubBump(s: State, id: Id, s': State) {
    && id in s.readers && id in s.lists && s.readers[id].SubWrote?
    && Bumps(s, s.readers[id].at, s') && ReaderAt(s, id, SubBumped(s.readers[id].prefix), s.lists[id], s')
  }

  ghost predicate ReaderSubFinish(s: State, id: Id, s': State) {
    && id in s.readers && id in s.lists && s.readers[id].SubBumped?
    && SharedSame(s, s') && ReaderAt(s, id, Idle, s.lists[id] + [s.readers[id].prefix], s')
  }

  ghost predicate ReaderUnsubCut(s: State, id: Id, p: Bytes, s': State) {
    && id in s.readers && id in s.lists && s.readers[id] == Idle && p in s.lists[id]
    && SharedSame(s, s') && ReaderAt(s, id, UnsubCut(p), Without(s.lists[id], p), s')
  }

  ghost predicate ReaderUnsubWrite(s: State, id: Id, s': State) {
    && id in s.readers && id in s.lists && s.readers[id].UnsubCut?
    && Writes(s, Unsub(id, s.readers[id].prefix),
              Union(s.union.matchAll + (if s.lists[id] == [] then 1 else 0),
                  s.union.held - multiset{s.readers[id].prefix}), s')
    && ReaderAt(s, id, UnsubWrote(|s.log|), s.lists[id], s')
  }

  ghost predicate ReaderUnsubBump(s: State, id: Id, s': State) {
    && id in s.readers && id in s.lists && s.readers[id].UnsubWrote?
    && Bumps(s, s.readers[id].at, s') && ReaderAt(s, id, Idle, s.lists[id], s')
  }

  ghost predicate AcceptWrite(s: State, id: Id, s': State) {
    && s.pub == Resting && s'.pub == Accepting(id, |s.log|) && id !in s.lists
    && Writes(s, Accept(id), s.union.(matchAll := s.union.matchAll + 1), s') && CacheSame(s, s')
    && s'.lists == s.lists[id := []] && s'.readers == s.readers[id := Idle]
  }

  ghost predicate AcceptBump(s: State, s': State) {
    && s.pub.Accepting? && s'.pub == Resting
    && Bumps(s, s.pub.at, s') && CacheSame(s, s')
    && s'.lists == s.lists && s'.readers == s.readers
  }

  ghost predicate LoadGeneration(s: State, topic: Bytes, s': State) {
    && s.pub == Resting && s'.pub == Loaded(topic, s.gen, s.bumped)
    && SharedSame(s, s') && CacheSame(s, s') && s'.lists == s.lists && s'.readers == s.readers
  }

  /** The cache is re-read under the lock only when the generation loaded differs from the cached one. */
  ghost predicate RefreshCache(s: State, s': State) {
    && s.pub.Loaded? && s'.pub == Deciding(s.pub.topic, s.pub.bumps)
    && SharedSame(s, s') && s'.lists == s.lists && s'.readers == s.readers
    && if s.pub.gen != s.localGen then
         && s'.localUnion == s.union && s'.localGen == s.pub.gen
         && s'.cacheLen == |s.log| && s'.cacheBumps == s.pub.bumps
       else CacheSame(s, s')
  }

  ghost predicate Decide(s: State, s': State) {
    s.pub.Deciding? && s' == s.(pub := Resting)
  }

  ghost predicate Next(s: State, s': State) {
    || (exists id, p :: ReaderSubWrite(s, id, p, s'))
    || (exists id :: ReaderSubBump(s, id, s'))
    || (exists id :: ReaderSubFinish(s, id, s'))
    || (exists id, p :: ReaderUnsubCut(s, id, p, s'))
    || (exists id :: ReaderUnsubWrite(s, id, s'))
    || (exists id :: ReaderUnsubBump(s, id, s'))
    || (exists id :: AcceptWrite(s, id, s'))
    || AcceptBump(s, s')
    || (exists topic :: LoadGeneration(s, topic, s'))
    || RefreshCache(s, s')
    || Decide(s, s')
  }

  // The inductive invariant.

  ghost predicate LogInv(s: State) {
    && ValidLog(s.log) && s.union == After(s.log).union
    && s.gen == |s.bumped| && forall i :: i in s.bumped ==> i < |s.log|
  }

  /** How a reader's list relates to the list its logged updates give. */
  ghost predicate ListAt(pc: ReaderPc, list: seq<Bytes>, logged: seq<Bytes>) {
    match pc
    case Idle => list == logged
    case SubWrote(p, _) => list + [p] == logged
    case SubBumped(p) => list + [p] == logged
    case UnsubCut(p) => p in logged && list == Without(logged, p)
    case UnsubWrote(_) => list == logged
  }

  ghost predicate ListInv(s: State)
    requires ValidLog(s.log)
  {
    var logged := After(s.log).lists;
    && s.readers.Keys == s.lists.Keys == logged.Keys
    && forall id :: id in s.lists ==> ListAt(s.readers[id], s.lists[id], logged[id])
  }

  /** The write at position `i` is still to be bumped, by the reader or the publisher that made it. */
  ghost predicate Unfinished(s: State, i: nat)
    requires i < |s.log|
  {
    var id := s.log[i].id;
    || s.pub == Accepting(id, i)
    || (id in s.readers && ((s.readers[id].SubWrote? && s.readers[id].at == i) || s.readers[id] == UnsubWrote(i)))
  }

  ghost predicate WriteLogged(log: seq<Update>, id: Id, pc: ReaderPc) {
    && (pc.SubWrote? ==> pc.at < |log| && log[pc.at] == Sub(id, pc.prefix))
    && (pc.UnsubWrote? ==> pc.at < |log| && log[pc.at].Unsub? && log[pc.at].id == id)
  }

  /** Every write is bumped once its writer is done, and not before. */
  ghost predicate BumpInv(s: State) {
    && (forall i: nat :: i < |s.log| ==> (i in s.bumped <==> !Unfinished(s, i)))
    && (forall id :: id in s.readers ==> WriteLogged(s.log, id, s.readers[id]))
    && (s.pub.Accepting? ==> s.pub.at < |s.log| && s.log[s.pub.at] == Accept(s.pub.id))
  }

  /** The cache is the union after the first `cacheLen` writes, and those include every write bumped before the
    * generation it is filed under was loaded. */
  ghost predicate CacheInv(s: State) {
    && s.cacheLen <= |s.log| && ValidLog(s.log[..s.cacheLen]) && s.localUnion == After(s.log[..s.cacheLen]).union
    && s.cacheBumps <= s.bumped && |s.cacheBumps| == s.localGen
    && forall i :: i in s.cacheBumps ==> i < s.cacheLen
  }

  ghost predicate PubInv(s: State) {
    match s.pub
    case Resting => true
    case Accepting(_, _) => true
    case Loaded(_, gen, bumps) => s.cacheBumps <= bumps <= s.bumped && gen == |bumps|
    case Deciding(_, bumps) => bumps <= s.bumped && forall i :: i in bumps ==> i < s.cacheLen
  }

  ghost predicate Inv(s: State) {
    LogInv(s) && ListInv(s) && BumpInv(s) && CacheInv(s) && PubInv(s)
  }

  lemma InitInv(s: State)
    requires Init(s)
    ensures Inv(s)
  {
  }

  /** A union write leaves the cache where it was in the history. */
  lemma WriteKeepsCache(s: State, u: Update, union: Union, s': State)
    requires Inv(s) && Writes(s, u, union, s') && CacheSame(s, s')
    ensures CacheInv(s')
  {
    assert s'.log[..s.cacheLen] == s.log[..s.cacheLen];
  }

  /** A reader's write is the one new unfinished write. */
  lemma WriteKeepsBumps(s: State, u: Update, union: Union, pc: ReaderPc, s': State)
    requires Inv(s) && Writes(s, u, union, s') && u.id in s.lists && ReaderAt(s, u.id, pc, s.lists[u.id], s')
    requires s.readers[u.id].Idle? || s.readers[u.id].UnsubCut?
    requires (pc.SubWrote? || pc.UnsubWrote?) && pc.at == |s.log| && WriteLogged(s'.log, u.id, pc)
    ensures BumpInv(s')
  {
    forall i: nat | i < |s'.log|
      ensures i in s'.bumped <==> !Unfinished(s', i)
    {
      if i < |s.log| {
        assert s'.log[i] == s.log[i];
        assert Unfinished(s', i) == Unfinished(s, i);
      }
    }
  }

  /** A reader's bump finishes its write and no other. */
  lemma BumpKeepsBumps(s: State, id: Id, pc: ReaderPc, s': State)
    requires Inv(s) && id in s.readers && (s.readers[id].SubWrote? || s.readers[id].UnsubWrote?)
    requires Bumps(s, s.readers[id].at, s') && ReaderAt(s, id, pc, s.lists[id], s')
    requires pc.Idle? || pc.SubBumped?
    ensures BumpInv(s') && s.readers[id].at !in s.bumped
  {
    assert Unfinished(s, s.readers[id].at);
    forall i: nat | i < |s'.log|
      ensures i in s'.bumped <==> !Unfinished(s', i)
    {
      assert i != s.readers[id].at ==> Unfinished(s', i) == Unfinished(s, i);
    }
  }

  /** The publisher's prefilter steps finish nothing. */
  lemma PublisherKeepsBumps(s: State, s': State)
    requires BumpInv(s) && !s.pub.Accepting? && !s'.pub.Accepting?
    requires s'.log == s.log && s'.bumped == s.bumped && s'.readers == s.readers
    ensures BumpInv(s')
  {
    forall i: nat | i < |s'.log|
      ensures i in s'.bumped <==> !Unfinished(s', i)
    {
      assert Unfinished(s', i) == Unfinished(s, i);
    }
  }

  lemma SubWriteInv(s: State, id: Id, p: Bytes, s': State)
    requires Inv(s) && ReaderSubWrite(s, id, p, s')
    ensures Inv(s')
  {
    AfterSnoc(s.log, Sub(id, p));
    WriteKeepsBumps(s, Sub(id, p), s'.union, SubWrote(p, |s.log|), s');
    WriteKeepsCache(s, Sub(id, p), s'.union, s');
  }

  lemma SubBumpInv(s: State, id: Id, s': State)
    requires Inv(s) && ReaderSubBump(s, id, s')
    ensures Inv(s')
  {
    BumpKeepsBumps(s, id, SubBumped(s.readers[id].prefix), s');
  }

  /** A reader that only touches its own list finishes no write and starts none. */
  lemma ListStepKeepsBumps(s: State, id: Id, pc: ReaderPc, list: seq<Bytes>, s': State)
    requires BumpInv(s) && SharedSame(s, s') && ReaderAt(s, id, pc, list, s')
    requires !s.readers[id].SubWrote? && !s.readers[id].UnsubWrote? && !pc.SubWrote? && !pc.UnsubWrote?
    ensures BumpInv(s')
  {
    forall i: nat | i < |s'.log|
      ensures i in s'.bumped <==> !Unfinished(s', i)
    {
      assert Unfinished(s', i) == Unfinished(s, i);
    }
  }

  lemma SubFinishInv(s: State, id: Id, s': State)
    requires Inv(s) && ReaderSubFinish(s, id, s')
    ensures Inv(s')
  {
    ListStepKeepsBumps(s, id, Idle, s'.lists[id], s');
  }

  lemma UnsubCutInv(s: State, id: Id, p: Bytes, s': State)
    requires Inv(s) && ReaderUnsubCut(s, id, p, s')
    ensures Inv(s')
  {
    ListStepKeepsBumps(s, id, UnsubCut(p), s'.lists[id], s');
  }

  lemma UnsubWriteInv(s: State, id: Id, s': State)
    requires Inv(s) && ReaderUnsubWrite(s, id, s')
    ensures Inv(s')
  {
    AfterSnoc(s.log, Unsub(id, s.readers[id].prefix));
    WriteKeepsBumps(s, Unsub(id, s.readers[id].prefix), s'.union, UnsubWrote(|s.log|), s');
    WriteKeepsCache(s, Unsub(id, s.readers[id].prefix), s'.union, s');
  }

  lemma UnsubBumpInv(s: State, id: Id, s': State)
    requires Inv(s) && ReaderUnsubBump(s, id, s')
    ensures Inv(s')
  {
    BumpKeepsBumps(s, id, Idle, s');
  }

  lemma AcceptWriteInv(s: State, id: Id, s': State)
    requires Inv(s) && AcceptWrite(s, id, s')
    ensures Inv(s')
  {
    AcceptKeepsLists(s, id, s');
    AcceptKeepsBumps(s, id, s');
    WriteKeepsCache(s, Accept(id), s'.union, s');
  }

  lemma AcceptKeepsLists(s: State, id: Id, s': State)
    requires LogInv(s) && ListInv(s) && AcceptWrite(s, id, s')
    ensures LogInv(s') && ListInv(s')
  {
    AfterSnoc(s.log, Accept(id));
  }

  /** The publisher's write is the one new unfinished write. */
  lemma AcceptKeepsBumps(s: State, id: Id, s': State)
    requires LogInv(s) && BumpInv(s) && s.readers.Keys == s.lists.Keys && AcceptWrite(s, id, s')
    ensures BumpInv(s')
  {
    forall i: nat | i < |s'.log|
      ensures i in s'.bumped <==> !Unfinished(s', i)
    {
      if i < |s.log| {
        assert s'.log[i] == s.log[i];
        assert Unfinished(s', i) == Unfinished(s, i);
      }
    }
  }

  lemma AcceptBumpInv(s: State, s': State)
    requires Inv(s) && AcceptBump(s, s')
    ensures Inv(s')
  {
  }

  lemma LoadInv(s: State, topic: Bytes, s': State)
    requires Inv(s) && LoadGeneration(s, topic, s')
    ensures Inv(s')
  {
    PublisherKeepsBumps(s, s');
  }

  lemma SubsetSameSize(a: set<nat>, b: set<nat>)
    requires a <= b && |a| == |b|
    ensures a == b
  {
    var rest := b - a;
    assert b == a + rest;
  }

  /** Equal generations mean that nothing was bumped since the cache's own load. */
  lemma RefreshInv(s: State, s': State)
    requires Inv(s) && RefreshCache(s, s')
    ensures Inv(s')
  {
    PublisherKeepsBumps(s, s');
    assert s.log[..|s.log|] == s.log;
    if s.pub.gen == s.localGen {
      SubsetSameSize(s.cacheBumps, s.pub.bumps);
    }
  }

  lemma NextInv(s: State, s': State)
    requires Inv(s) && Next(s, s')
    ensures Inv(s')
  {
    if id, p :| ReaderSubWrite(s, id, p, s') {
      SubWriteInv(s, id, p, s');
    } else if id :| ReaderSubBump(s, id, s') {
      SubBumpInv(s, id, s');
    } else if id :| ReaderSubFinish(s, id, s') {
      SubFinishInv(s, id, s');
    } else if id, p :| ReaderUnsubCut(s, id, p, s') {
      UnsubCutInv(s, id, p, s');
    } else if id :| ReaderUnsubWrite(s, id, s') {
      UnsubWriteInv(s, id, s');
    } else if id :| ReaderUnsubBump(s, id, s') {
      UnsubBumpInv(s, id, s');
    } else if id :| AcceptWrite(s, id, s') {
      AcceptWriteInv(s, id, s');
    } else if AcceptBump(s, s') {
      AcceptBumpInv(s, s');
    } else if topic :| LoadGeneration(s, topic, s') {
      LoadInv(s, topic, s');
    } else if RefreshCache(s, s') {
      RefreshInv(s, s');
    } else {
      PublisherKeepsBumps(s, s');
    }
  }

  // Safety of the prefilter's decisions.

  /** Updates of others leave a subscriber's list alone. */
  lemma {:induction false} UntouchedList(log: seq<Update>, n: nat, id: Id)
    requires ValidLog(log) && n <= |log|
    requires forall i :: n <= i < |log| ==> log[i].id != id
    ensures ValidLog(log[..n])
    ensures id in After(log).lists <==> id in After(log[..n]).lists
    ensures id in After(log).lists ==> After(log).lists[id] == After(log[..n]).lists[id]
  {
    if n < |log| {
      var init := log[..|log| - 1];
      UntouchedList(init, n, id);
      assert init[..n] == log[..n];
    } else {
      assert log[..n] == log;
    }
  }

  /** The cached answer is the exact one for a point of the history that no update bumped before the load
    * comes after. */
  lemma DecisionExact(s: State)
    requires Inv(s) && s.pub.Deciding?
    ensures ValidLog(s.log[..s.cacheLen]) && forall i :: i in s.pub.bumps ==> i < s.cacheLen
    ensures UnionMatches(s.localUnion, s.pub.topic) <==> SomeoneWants(After(s.log[..s.cacheLen]).lists, s.pub.topic)
  {
    UnionExact(s.log[..s.cacheLen]);
    UnionMatchesExactly(After(s.log[..s.cacheLen]).lists, s.localUnion, s.pub.topic);
  }

  /** No topic is dropped that an idle subscriber wants, if all its updates were bumped before the load. */
  lemma DecisionSafe(s: State, id: Id)
    requires Inv(s) && s.pub.Deciding? && id in s.lists && s.readers[id].Idle?
    requires forall i :: 0 <= i < |s.log| && s.log[i].id == id ==> i in s.pub.bumps
    requires ListMatches(s.lists[id], s.pub.topic)
    ensures UnionMatches(s.localUnion, s.pub.topic)
  {
    DecisionExact(s);
    UntouchedList(s.log, s.cacheLen, id);
    var lists := After(s.log[..s.cacheLen]).lists;
    assert id in lists && lists[id] == s.lists[id];
  }

  /** A step, or none here while something else happens. */
  ghost predicate Moves(s: State, s': State) { Next(s, s') || s' == s }

  ghost predicate StepAt(run: seq<State>, i: nat)
    requires i + 1 < |run|
  {
    Moves(run[i], run[i + 1])
  }

  ghost predicate IsRun(run: seq<State>) {
    run != [] && Init(run[0]) && forall i: nat :: i + 1 < |run| ==> StepAt(run, i)
  }

  lemma {:induction false} RunInv(run: seq<State>, k: nat)
    requires IsRun(run) && k < |run|
    ensures Inv(run[k])
    decreases k
  {
    if k == 0 {
      InitInv(run[0]);
    } else {
      RunInv(run, k - 1);
      assert StepAt(run, k - 1);
      if run[k] != run[k - 1] {
        NextInv(run[k - 1], run[k]);
      }
    }
  }

  /** Every update of this subscriber was bumped before the generation was loaded. */
  ghost predicate Settled(s: State, id: Id) {
    && (s.pub.Loaded? || s.pub.Deciding?)
    && forall i :: 0 <= i < |s.log| && s.log[i].id == id ==> i in s.pub.bumps
  }

  /** Accepted, and not in mid-update. */
  ghost predicate Steady(s: State, id: Id) { id in s.readers && s.readers[id].Idle? }

  /** A subscriber in no update keeps its list. */
  lemma SteadyList(s: State, s': State, id: Id)
    requires Moves(s, s') && Steady(s, id) && Steady(s', id) && id in s.lists
    ensures id in s'.lists && s'.lists[id] == s.lists[id]
  {
  }

  /** While a subscriber stays idle and the publisher is between load and decision, it stays settled. */
  lemma SettledStep(s: State, s': State, id: Id)
    requires BumpInv(s) && Moves(s, s') && Steady(s, id) && Steady(s', id)
    requires s.pub.Resting? || s.pub.Accepting? || Settled(s, id)
    requires !s'.pub.Resting?
    ensures s'.pub.Accepting? || Settled(s', id)
  {
    if s.pub.Resting? {
      forall i: nat | i < |s.log| && s.log[i].id == id && !s.pub.Accepting?
        ensures i in s.bumped
      {
        assert !Unfinished(s, i);
      }
    } else {
      forall i | 0 <= i < |s'.log| && s'.log[i].id == id && Settled(s, id)
        ensures i < |s.log|
      {
        assert s'.log == s.log || (exists u: Update :: u.id != id && s'.log == s.log + [u]);
      }
    }
  }

  lemma BumpInvOfRun(run: seq<State>, k: nat)
    requires IsRun(run) && k + 1 < |run|
    ensures BumpInv(run[k]) && Moves(run[k], run[k + 1])
  {
    RunInv(run, k);
    assert StepAt(run, k);
  }

  lemma {:induction false} SettledSince(run: seq<State>, a: nat, k: nat, id: Id)
    requires IsRun(run) && a < k < |run| && run[a].pub.Resting?
    requires forall j :: a < j <= k ==> !run[j].pub.Resting?
    requires forall j :: a <= j <= k ==> Steady(run[j], id)
    ensures run[k].pub.Accepting? || Settled(run[k], id)
    decreases k
  {
    if a < k - 1 {
      SettledSince(run, a, k - 1, id);
    }
    BumpInvOfRun(run, k - 1);
    SettledStep(run[k - 1], run[k], id);
  }

  /** Prefilter safety, for every run of any number of subscribers: from the step that loads the generation to the
    * decision, a subscriber that is not in mid-update never has a message it wants dropped. */
  lemma SteadySubscriberServed(run: seq<State>, a: nat, k: nat, id: Id)
    requires IsRun(run) && a < k < |run| && run[a].pub.Resting? && run[k].pub.Deciding?
    requires forall j :: a < j <= k ==> !run[j].pub.Resting?
    requires forall j :: a <= j <= k ==> Steady(run[j], id)
    ensures id in run[k].lists
    ensures ListMatches(run[k].lists[id], run[k].pub.topic) ==> UnionMatches(run[k].localUnion, run[k].pub.topic)
  {
    RunInv(run, k);
    SettledSince(run, a, k, id);
    if ListMatches(run[k].lists[id], run[k].pub.topic) {
      DecisionSafe(run[k], id);
    }
  }
}

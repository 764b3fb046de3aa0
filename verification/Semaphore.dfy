/** The byte semaphore (monocoque-core/src/backpressure.rs): a mutex and a condition variable shared by any number
  * of threads, as a transition system whose steps are the critical sections. */
module Semaphore {
  import opened ByteStrings

  /** Where a caller of `acquire` is. A waiter whose future was dropped is no longer `wanted`: its blocking thread
    * still waits, and what it claims then belongs to nobody. */
  datatype Pc =
    | Idle
    | Asking(n: nat)                   // about to try the lock once
    | Locking(n: nat, wanted: bool)    // slow path: about to take the lock and look
    | Parked(n: nat, wanted: bool)     // waiting on the condition variable
    | Claimed(claim: nat)              // the blocking thread has the bytes, the permit is not made yet
    | Holding(claim: nat)
    | Notifying                        // bytes given back, waiters not yet notified
    | NoPermit                         // a request for nothing
    | Leaked(claim: nat)

  datatype State = State(available: int, max: nat, threads: seq<Pc>)

  datatype Step =
    | Ask(t: nat, n: nat) | FastClaim(t: nat) | FastMiss(t: nat) | SlowClaim(t: nat) | MakePermit(t: nat)
    | Park(t: nat) | WakeUp(t: nat)
    | Release(t: nat) | NotifyAll(t: nat) | DropNothing(t: nat) | Abandon(t: nat)

  /** An oversized request claims the whole capacity instead. */
  function Claim(s: State, n: nat): nat { Min(n, s.max) }

  /** Bytes claimed for a caller that is gone belong to nobody. */
  function TakenBy(claim: nat, wanted: bool): Pc { if wanted then Claimed(claim) else Leaked(claim) }

  /** Every parked thread wakes up, and the notifier is done. */
  function Notified(threads: seq<Pc>, t: nat): seq<Pc> {
    seq(|threads|, i requires 0 <= i < |threads| => if i == t then Idle else Unpark(threads[i]))
  }

  function Unpark(pc: Pc): Pc { if pc.Parked? then Locking(pc.n, pc.wanted) else pc }

  function At(s: State, t: nat, pc: Pc): State
    requires t < |s.threads|
  {
    s.(threads := s.threads[t := pc])
  }

  ghost predicate Next(s: State, step: Step, s': State) {
    step.t < |s.threads| &&
    var pc := s.threads[step.t];
    match step
    case Ask(t, n) => pc.Idle? && s' == At(s, t, if n == 0 then NoPermit else Asking(n))
    case FastClaim(t) =>
      pc.Asking? && s.available >= Claim(s, pc.n) &&
      s' == At(s, t, Holding(Claim(s, pc.n))).(available := s.available - Claim(s, pc.n))
    case FastMiss(t) => pc.Asking? && s' == At(s, t, Locking(pc.n, true))
    case SlowClaim(t) =>
      pc.Locking? && s.available >= Claim(s, pc.n) &&
      s' == At(s, t, TakenBy(Claim(s, pc.n), pc.wanted)).(available := s.available - Claim(s, pc.n))
    case MakePermit(t) => pc.Claimed? && s' == At(s, t, Holding(pc.claim))
    case Park(t) => pc.Locking? && s.available < Claim(s, pc.n) && s' == At(s, t, Parked(pc.n, pc.wanted))
    case WakeUp(t) => pc.Parked? && s' == At(s, t, Unpark(pc))
    case Release(t) => pc.Holding? && s' == At(s, t, Notifying).(available := s.available + pc.claim)
    case NotifyAll(t) =>
      pc.Notifying? && s' == s.(threads := Notified(s.threads, t))
    case DropNothing(t) => pc.NoPermit? && s' == At(s, t, Idle)
    case Abandon(t) =>
      || (pc.Locking? && s' == At(s, t, Locking(pc.n, false)))
      || (pc.Parked? && s' == At(s, t, Parked(pc.n, false)))
      || (pc.Claimed? && s' == At(s, t, Leaked(pc.claim)))
  }

  function HeldBy(pc: Pc): nat { if pc.Holding? || pc.Claimed? then pc.claim else 0 }
  function LeakedBy(pc: Pc): nat { if pc.Leaked? then pc.claim else 0 }

  function Total(threads: seq<Pc>, f: Pc -> nat): nat {
    if threads == [] then 0 else f(threads[0]) + Total(threads[1..], f)
  }

  lemma {:induction false} TotalUpdate(threads: seq<Pc>, t: nat, pc: Pc, f: Pc -> nat)
    requires t < |threads|
    ensures Total(threads[t := pc], f) == Total(threads, f) - f(threads[t]) + f(pc)
  {
    var threads' := threads[t := pc];
    if t == 0 {
      assert threads'[1..] == threads[1..];
    } else {
      assert threads'[1..] == threads[1..][t - 1 := pc];
      TotalUpdate(threads[1..], t - 1, pc, f);
    }
  }

  lemma {:induction false} TotalSame(a: seq<Pc>, b: seq<Pc>, f: Pc -> nat)
    requires |a| == |b| && forall i :: 0 <= i < |a| ==> f(a[i]) == f(b[i])
    ensures Total(a, f) == Total(b, f)
  {
    if a == [] {
    } else {
      TotalSame(a[1..], b[1..], f);
    }
  }

  lemma {:induction false} TotalZero(threads: seq<Pc>, f: Pc -> nat)
    ensures Total(threads, f) == 0 <==> forall i :: 0 <= i < |threads| ==> f(threads[i]) == 0
  {
    if threads == [] {
    } else {
      TotalZero(threads[1..], f);
      if Total(threads, f) == 0 {
        forall i | 0 <= i < |threads| ensures f(threads[i]) == 0 {
          assert i > 0 ==> threads[i] == threads[1..][i - 1];
        }
      } else if f(threads[0]) == 0 {
        var i :| 0 <= i < |threads[1..]| && f(threads[1..][i]) != 0;
        assert f(threads[i + 1]) != 0;
      }
    }
  }

  /** No byte is made or lost: what is available, held and leaked is the capacity. */
  ghost predicate Conserved(s: State) {
    s.available >= 0 && s.available + Total(s.threads, HeldBy) + Total(s.threads, LeakedBy) == s.max
  }

  /** A parked waiter whose claim fits has a notification coming. */
  ghost predicate NoLostWakeup(s: State) {
    (exists i :: 0 <= i < |s.threads| && s.threads[i].Parked? && Claim(s, s.threads[i].n) <= s.available) ==>
      exists j :: 0 <= j < |s.threads| && s.threads[j].Notifying?
  }

  ghost predicate Inv(s: State) { Conserved(s) && NoLostWakeup(s) }

  ghost predicate Init(s: State) {
    s.available == s.max && forall i :: 0 <= i < |s.threads| ==> s.threads[i].Idle?
  }

  lemma InitInv(s: State)
    requires Init(s)
    ensures Inv(s)
  {
    TotalZero(s.threads, HeldBy);
    TotalZero(s.threads, LeakedBy);
  }

  lemma ConservedStep(s: State, step: Step, s': State)
    requires Conserved(s) && Next(s, step, s')
    ensures Conserved(s')
  {
    if step.NotifyAll? {
      assert s'.threads == Notified(s.threads, step.t);
      TotalSame(s.threads, s'.threads, HeldBy);
      TotalSame(s.threads, s'.threads, LeakedBy);
    } else {
      assert s' == At(s, step.t, s'.threads[step.t]).(available := s'.available);
      ConservedChange(s, step.t, s'.threads[step.t], s'.available);
    }
  }

  /** One thread moves, and what it gains or gives up comes out of or goes into what is available. */
  lemma ConservedChange(s: State, t: nat, pc: Pc, available: int)
    requires Conserved(s) && t < |s.threads| && available >= 0
    requires available + HeldBy(pc) + LeakedBy(pc) == s.available + HeldBy(s.threads[t]) + LeakedBy(s.threads[t])
    ensures Conserved(At(s, t, pc).(available := available))
  {
    TotalUpdate(s.threads, t, pc, HeldBy);
    TotalUpdate(s.threads, t, pc, LeakedBy);
  }

  lemma NoLostWakeupStep(s: State, step: Step, s': State)
    requires NoLostWakeup(s) && Next(s, step, s')
    ensures NoLostWakeup(s')
  {
    if i :| 0 <= i < |s'.threads| && s'.threads[i].Parked? && Claim(s', s'.threads[i].n) <= s'.available {
      if step.Release? {
        assert s'.threads[step.t].Notifying?;
      } else if !step.NotifyAll? && !(step.Park? && i == step.t) {
        assert s.threads[i].Parked? && Claim(s, s.threads[i].n) <= s.available;
        var j :| 0 <= j < |s.threads| && s.threads[j].Notifying?;
        assert s'.threads[j].Notifying?;
      }
    }
  }

  ghost predicate IsRun(run: seq<State>, steps: seq<Step>) {
    |run| == |steps| + 1 && Init(run[0]) && forall i :: 0 <= i < |steps| ==> Next(run[i], steps[i], run[i + 1])
  }

  /** At every step of every run, bytes are conserved and no wakeup is lost. */
  lemma {:induction false} RunInv(run: seq<State>, steps: seq<Step>, k: nat)
    requires IsRun(run, steps) && k < |run|
    ensures Inv(run[k]) && run[k].max == run[0].max
    decreases k
  {
    if k == 0 {
      InitInv(run[0]);
    } else {
      RunInv(run, steps, k - 1);
      ConservedStep(run[k - 1], steps[k - 1], run[k - 1 + 1]);
      NoLostWakeupStep(run[k - 1], steps[k - 1], run[k - 1 + 1]);
    }
  }

  /** The bytes a request stands for: as many as asked for, or the whole capacity if that is less. */
  lemma ClaimsWhatIsAsked(s: State, step: Step, s': State)
    requires Next(s, step, s') && (step.FastClaim? || step.SlowClaim?)
    ensures s.available - s'.available == HeldBy(s'.threads[step.t]) + LeakedBy(s'.threads[step.t])
    ensures s.threads[step.t].n <= s.max ==> s.available - s'.available == s.threads[step.t].n
    ensures s.threads[step.t].n > s.max ==> s.available - s'.available == s.max
    ensures step.FastClaim? ==> s'.threads[step.t].Holding?
    ensures forall i :: 0 <= i < |s.threads| && i != step.t ==> s'.threads[i] == s.threads[i]
  {
  }

  /** The step that grants thread `t` its request, where it stands now. */
  function Grant(s: State, t: nat): Step
    requires t < |s.threads|
  {
    if s.threads[t].Asking? then FastClaim(t) else SlowClaim(t)
  }

  /** In every run a request can be granted exactly when it fits the capacity beside the bytes held and leaked, and one
    * for more than the capacity when none are. */
  lemma GrantedWhenItFits(run: seq<State>, steps: seq<Step>, k: nat, t: nat)
    requires IsRun(run, steps) && k < |run| && t < |run[k].threads|
    requires run[k].threads[t].Asking? || run[k].threads[t].Locking?
    ensures (exists s' :: Next(run[k], Grant(run[k], t), s')) <==>
            var n, max := run[k].threads[t].n, run[k].max;
            Total(run[k].threads, HeldBy) + Total(run[k].threads, LeakedBy) + (if n <= max then n else max) <= max
  {
    RunInv(run, steps, k);
    var s := run[k];
    var pc := s.threads[t];
    var left := s.available - Claim(s, pc.n);
    if pc.Asking? && left >= 0 {
      assert Next(s, Grant(s, t), At(s, t, Holding(Claim(s, pc.n))).(available := left));
    } else if left >= 0 {
      assert Next(s, Grant(s, t), At(s, t, TakenBy(Claim(s, pc.n), pc.wanted)).(available := left));
    }
  }

  lemma {:induction false} NoLeakWithoutAbandon(run: seq<State>, steps: seq<Step>, k: nat)
    requires IsRun(run, steps) && k < |run|
    requires forall i :: 0 <= i < k ==> !steps[i].Abandon?
    ensures forall i :: 0 <= i < |run[k].threads| ==>
              !run[k].threads[i].Leaked?
                  && (run[k].threads[i].Locking? || run[k].threads[i].Parked? ==> run[k].threads[i].wanted)
    decreases k
  {
    if k == 0 {
    } else {
      NoLeakWithoutAbandon(run, steps, k - 1);
      assert Next(run[k - 1], steps[k - 1], run[k - 1 + 1]);
    }
  }

  /** With no permit outstanding a waiter can proceed exactly when its claim fits what abandoned waiters left over;
    * when no acquire was abandoned, that is always. */
  lemma WaiterCanProceed(run: seq<State>, steps: seq<Step>, k: nat, t: nat)
    requires IsRun(run, steps) && k < |run| && t < |run[k].threads|
    requires forall i :: 0 <= i < |run[k].threads| ==> !run[k].threads[i].Holding? && !run[k].threads[i].Claimed?
    requires run[k].threads[t].Locking? || run[k].threads[t].Parked?
    ensures run[k].available >= Claim(run[k], run[k].threads[t].n) <==>
            Claim(run[k], run[k].threads[t].n) + Total(run[k].threads, LeakedBy) <= run[k].max
    ensures (forall i :: 0 <= i < k ==> !steps[i].Abandon?) ==>
              run[k].available == run[k].max >= Claim(run[k], run[k].threads[t].n)
  {
    RunInv(run, steps, k);
    TotalZero(run[k].threads, HeldBy);
    if forall i :: 0 <= i < k ==> !steps[i].Abandon? {
      NoLeakWithoutAbandon(run, steps, k);
      TotalZero(run[k].threads, LeakedBy);
    }
  }

  lemma LeakStays(s: State, step: Step, s': State)
    requires Next(s, step, s')
    ensures Total(s'.threads, LeakedBy) >= Total(s.threads, LeakedBy)
  {
    if step.NotifyAll? {
      TotalSame(s.threads, s'.threads, LeakedBy);
    } else {
      TotalUpdate(s.threads, step.t, s'.threads[step.t], LeakedBy);
    }
  }

  lemma {:induction false} LeakGrows(run: seq<State>, steps: seq<Step>, k: nat, j: nat)
    requires IsRun(run, steps) && k <= j < |run|
    ensures Total(run[j].threads, LeakedBy) >= Total(run[k].threads, LeakedBy)
    decreases j
  {
    if k == j {
    } else {
      LeakGrows(run, steps, k, j - 1);
      LeakStays(run[j - 1], steps[j - 1], run[j - 1 + 1]);
    }
  }

  /** A request that does not fit beside the bytes leaked so far is never met again, whatever is released. */
  lemma BlockedForGood(run: seq<State>, steps: seq<Step>, k: nat, j: nat, n: nat)
    requires IsRun(run, steps) && k <= j < |run|
    requires Claim(run[k], n) + Total(run[k].threads, LeakedBy) > run[k].max
    ensures run[j].available < Claim(run[j], n)
  {
    RunInv(run, steps, k);
    RunInv(run, steps, j);
    LeakGrows(run, steps, k, j);
  }

  /** A run goes on by one step. */
  lemma Then(run: seq<State>, steps: seq<Step>, step: Step, s': State) returns (run': seq<State>, steps': seq<Step>)
    requires IsRun(run, steps) && Next(run[|steps|], step, s')
    ensures IsRun(run', steps') && |steps'| == |steps| + 1 && run'[|steps'|] == s'
  {
    run', steps' := run + [s'], steps + [step];
  }

  /** One thread holds the only byte; another starts to wait for it and is abandoned. */
  lemma Abandoned() returns (run: seq<State>, steps: seq<Step>)
    ensures IsRun(run, steps) && |steps| == 5 && run[5] == State(0, 1, [Holding(1), Locking(1, false)])
  {
    run, steps := [State(1, 1, [Idle, Idle])], [];
    run, steps := Then(run, steps, Ask(0, 1), State(1, 1, [Asking(1), Idle]));
    run, steps := Then(run, steps, FastClaim(0), State(0, 1, [Holding(1), Idle]));
    run, steps := Then(run, steps, Ask(1, 1), State(0, 1, [Holding(1), Asking(1)]));
    run, steps := Then(run, steps, FastMiss(1), State(0, 1, [Holding(1), Locking(1, true)]));
    run, steps := Then(run, steps, Abandon(1), State(0, 1, [Holding(1), Locking(1, false)]));
  }

  /** A leak is reachable: with a capacity of one byte, a waiter abandoned while another thread holds the byte claims
    * it once it is released, and from then on nobody holds a permit and the next caller waits in vain. */
  lemma LeakingRun() returns (run: seq<State>, steps: seq<Step>)
    ensures IsRun(run, steps) && |steps| == 10
    ensures run[10] == State(0, 1, [Locking(1, true), Leaked(1)])
    ensures Claim(run[10], 1) + Total(run[10].threads, LeakedBy) > run[10].max
  {
    run, steps := Abandoned();
    run, steps := Then(run, steps, Release(0), State(1, 1, [Notifying, Locking(1, false)]));
    run, steps := Then(run, steps, NotifyAll(0), State(1, 1, [Idle, Locking(1, false)]));
    run, steps := Then(run, steps, SlowClaim(1), State(0, 1, [Idle, Leaked(1)]));
    run, steps := Then(run, steps, Ask(0, 1), State(0, 1, [Asking(1), Leaked(1)]));
    run, steps := Then(run, steps, FastMiss(0), State(0, 1, [Locking(1, true), Leaked(1)]));
    assert run[10].threads[1..] == [Leaked(1)];
    assert Total([Leaked(1)], LeakedBy) == 1;
  }
}

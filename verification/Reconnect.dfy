/** Reconnect backoff: the stateful form (monocoque-core/src/reconnect.rs), the closed form in the options
  * (monocoque-core/src/options.rs) and the jitter applied to a delay (monocoque-zmtp/src/base.rs). Durations are
  * nanosecond counts. */
module Reconnect {
  import opened ByteStrings

  const U32_MAX := 0xFFFF_FFFF

  const U64_MAX := 0xFFFF_FFFF_FFFF_FFFF

  /** Duration::MAX: u64::MAX seconds and 999999999 nanoseconds. */
  const DURATION_MAX := U64_MAX * 1_000_000_000 + 999_999_999

  function Pow2(k: nat): (p: nat)
    ensures p >= 1
  {
    if k == 0 then 1 else 2 * Pow2(k - 1)
  }

  lemma Pow2Ten()
    ensures Pow2(10) == 1024
  {
    assert Pow2(5) == 32 && Pow2(6) == 64 && Pow2(7) == 128 && Pow2(8) == 256 && Pow2(9) == 512;
  }

  lemma {:induction false} Pow2Monotone(j: nat, k: nat)
    requires j <= k
    ensures Pow2(j) <= Pow2(k)
  {
    if j == k {
    } else {
      Pow2Monotone(j, k - 1);
    }
  }

  /** `d.checked_mul(factor)`. */
  function CheckedMul(d: nat, factor: nat): Option<nat> {
    if d * factor <= DURATION_MAX then Some(d * factor) else None
  }

  /** The delay before the attempt with `k` failed attempts since the last reset. */
  function Delay(base: nat, max: nat, k: nat): nat {
    if max > base then Min(base * Pow2(Min(k, 10)), max) else base
  }

  lemma Grows(base: nat, j: nat, k: nat)
    requires j <= k
    ensures base * Pow2(j) <= base * Pow2(k)
  {
    Pow2Monotone(j, k);
  }

  /** Backoff never shrinks, starts at the base and stays between the base and the larger of base and maximum. */
  lemma DelayMonotone(base: nat, max: nat, j: nat, k: nat)
    requires j <= k
    ensures Delay(base, max, j) <= Delay(base, max, k)
    ensures Delay(base, max, 0) == base
    ensures base <= Delay(base, max, k) <= if max > base then max else base
  {
    Grows(base, Min(j, 10), Min(k, 10));
    Grows(base, 0, Min(k, 10));
    Grows(base, 0, Min(j, 10));
  }

  class ReconnectState {
    const baseInterval: nat
    const maxInterval: nat
    var attempt: nat
    var currentInterval: nat

    /** Durations are in range, the counter is a u32 and the stored interval is the delay for that counter. */
    ghost predicate Valid()
      reads this
    {
      && baseInterval <= DURATION_MAX && maxInterval <= DURATION_MAX && attempt <= U32_MAX
      && currentInterval == Delay(baseInterval, maxInterval, attempt)
    }

    constructor (baseInterval: nat, maxInterval: nat)
      requires baseInterval <= DURATION_MAX && maxInterval <= DURATION_MAX
      ensures Valid() && this.baseInterval == baseInterval && this.maxInterval == maxInterval && attempt == 0
    {
      this.baseInterval, this.maxInterval, attempt, currentInterval := baseInterval, maxInterval, 0, baseInterval;
      new;
      DelayMonotone(baseInterval, maxInterval, 0, 0);
    }

    /** The counter is a u32; its increment wraps in builds without overflow checks. */
    method NextDelay() returns (delay: nat)
      requires Valid()
      modifies this`attempt, this`currentInterval
      ensures Valid() && attempt == (old(attempt) + 1) % (U32_MAX + 1)
      ensures delay == Delay(baseInterval, maxInterval, old(attempt))
    {
      delay := currentInterval;
      attempt := (attempt + 1) % (U32_MAX + 1);
      if maxInterval == 0 || maxInterval <= baseInterval {
        currentInterval := baseInterval;
      } else {
        var grown := CheckedMul(baseInterval, Pow2(Min(attempt, 10)));
        currentInterval := Min(if grown.Some? then grown.value else maxInterval, maxInterval);
      }
    }

    method Reset()
      requires Valid()
      modifies this`attempt, this`currentInterval
      ensures Valid() && attempt == 0
    {
      attempt, currentInterval := 0, baseInterval;
      DelayMonotone(baseInterval, maxInterval, 0, 0);
    }
  }

  /** The delay due after a run. */
  function DelayAfter(base: nat, max: nat, run: seq<bool>): nat {
    Delay(base, max, Counter(run))
  }

  /** Any run of failed attempts and resets: each delay is the closed form of the number of attempts since the
    * last reset. `true` asks for a delay, `false` resets after a successful connection. */
  method AnyRun(baseInterval: nat, maxInterval: nat, run: seq<bool>) returns (delays: seq<nat>)
    requires baseInterval <= DURATION_MAX && maxInterval <= DURATION_MAX
    ensures |delays| == |run|
    ensures forall i :: 0 <= i < |run| && run[i] ==> delays[i] == DelayAfter(baseInterval, maxInterval, run[..i])
  {
    var state := new ReconnectState(baseInterval, maxInterval);
    delays := [];
    for i := 0 to |run|
      invariant fresh(state) && state.Valid() && state.baseInterval == baseInterval && state.maxInterval == maxInterval
      invariant |delays| == i && state.attempt == Counter(run[..i])
      invariant forall j :: 0 <= j < i && run[j] ==> delays[j] == DelayAfter(baseInterval, maxInterval, run[..j])
    {
      var delay := 0;
      if run[i] {
        delay := state.NextDelay();
      } else {
        state.Reset();
      }
      delays := delays + [delay];
      CounterStep(run, i);
    }
  }

  /** The attempts since the last reset, as a u32 counts them. */
  function Counter(run: seq<bool>): nat {
    SinceReset(run) % (U32_MAX + 1)
  }

  lemma CounterStep(run: seq<bool>, i: nat)
    requires i < |run|
    ensures Counter(run[..i + 1]) == if run[i] then (Counter(run[..i]) + 1) % (U32_MAX + 1) else 0
  {
    assert run[..i + 1][..i] == run[..i];
  }

  /** The attempts made since the last reset. */
  function SinceReset(run: seq<bool>): (k: nat)
    ensures k <= |run|
  {
    if run == [] || !run[|run| - 1] then 0 else 1 + SinceReset(run[..|run| - 1])
  }

  /** `2u32.saturating_pow(attempt)`. */
  function SaturatingPow2(attempt: nat): nat {
    Min(Pow2(attempt), U32_MAX)
  }

  /** The interval the socket options compute for an attempt: uncapped doubling, then the maximum. */
  function NextReconnectIvl(base: nat, max: nat, attempt: nat): nat {
    if max == 0 then base else Min(Min(base * SaturatingPow2(attempt), DURATION_MAX), max)
  }

  lemma SaturatingPow2Small(k: nat)
    ensures k <= 10 ==> SaturatingPow2(k) == Pow2(k)
    ensures k > 10 ==> SaturatingPow2(k) >= 2048
  {
    Pow2Ten();
    if k <= 10 {
      Pow2Monotone(k, 10);
    } else {
      Pow2Monotone(11, k);
    }
  }

  /** The two backoff forms agree exactly here: backoff is off, or the maximum is not below the base and either the
    * state has not yet stopped doubling or ten doublings already reach the maximum. */
  lemma BackoffFormsAgree(base: nat, max: nat, k: nat)
    requires base <= DURATION_MAX && max <= DURATION_MAX
    ensures Delay(base, max, k) == NextReconnectIvl(base, max, k) <==>
            max == 0 || (max >= base && (k <= 10 || 1024 * base >= max || base == 0))
  {
    SaturatingPow2Small(k);
    Pow2Ten();
    if max < base {
      assert NextReconnectIvl(base, max, k) <= max || max == 0;
    } else if max == base {
      Grows(base, 0, k);
      AtLeastBase(base, SaturatingPow2(k));
    } else if k > 10 {
      Scale(base, 2048, SaturatingPow2(k));
    }
  }

  lemma AtLeastBase(base: nat, factor: nat)
    requires factor >= 1
    ensures base * factor >= base
  {
  }

  lemma Scale(base: nat, a: nat, b: nat)
    requires a <= b
    ensures base * a <= base * b
  {
  }

  /** Half the delay in nanoseconds, cut to a u64. */
  function Half(delay: nat): nat {
    delay / 2 % (U64_MAX + 1)
  }

  /** The sleep for a random `pick` in `0..=half`; the u64 addition wraps. */
  function Jittered(delay: nat, pick: nat): nat {
    if delay == 0 then delay else (Half(delay) + pick) % (U64_MAX + 1)
  }

  ghost predicate InUpperHalf(delay: nat, pick: nat) {
    delay / 2 <= Jittered(delay, pick) <= delay
  }

  /** Every sleep lies between half the delay and the delay exactly when the delay's nanoseconds fit a u64. */
  lemma JitterRange(delay: nat)
    ensures (forall pick: nat :: pick <= Half(delay) ==> InUpperHalf(delay, pick)) <==> delay <= U64_MAX
  {
    if delay <= U64_MAX {
      assert forall pick: nat :: pick <= Half(delay) ==> Jittered(delay, pick) == delay / 2 + pick;
    } else {
      OutOfRange(delay);
    }
  }

  /** The smallest pick misses the range when the half is cut, the largest when the sum wraps. */
  lemma OutOfRange(delay: nat)
    requires delay > U64_MAX
    ensures !InUpperHalf(delay, 0) || !InUpperHalf(delay, Half(delay))
  {
    if delay / 2 > U64_MAX {
      assert Jittered(delay, 0) <= U64_MAX;
    } else {
      assert Jittered(delay, Half(delay)) == 2 * (delay / 2) - (U64_MAX + 1);
    }
  }

  /** The delay a reconnect sleeps for. */
  method JitteredBackoff(delay: nat) returns (slept: nat)
    ensures delay <= U64_MAX ==> delay / 2 <= slept <= delay
    ensures exists pick: nat :: pick <= Half(delay) && slept == Jittered(delay, pick)
  {
    var half := Half(delay);
    var pick: nat :| pick <= half;
    assert delay <= U64_MAX ==> InUpperHalf(delay, pick) by {
      JitterRange(delay);
    }
    slept := if delay == 0 then delay else (half + pick) % (U64_MAX + 1);
    assert slept == Jittered(delay, pick);
  }
}

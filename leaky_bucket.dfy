/**
  The leaky-bucket rate limiter.  A bucket holds a fill level that drains at
  `leakRate` units per second; draining is lazy, computed from the time
  elapsed since the last evaluation.  A message of size `amount` is admitted
  when it fits under `capacity` after draining.

  The wall clock (`time.time()`) is an input `now`, in seconds; the level is an
  exact `real`.
*/
module RateLimiter {

  /** The two fields a bucket updates: `_current_level` and `_last_leak_time`. */
  datatype BucketState = BucketState(level: real, lastLeak: real)

  /**
    `_leak`: the level drops by elapsed time times the leak rate, floored at
    zero, and the clock restarts at `now`.
  */
  function Drained(s: BucketState, leakRate: real, now: real): (r: BucketState)
    ensures r.lastLeak == now
    ensures r.level >= 0.0 && r.level >= s.level - (now - s.lastLeak) * leakRate
    ensures r.level == 0.0 || r.level == s.level - (now - s.lastLeak) * leakRate
  {
    var drained := s.level - (now - s.lastLeak) * leakRate;
    BucketState(if drained > 0.0 then drained else 0.0, now)
  }

  /**
    `add_message`: drain, then admit iff the message fits.  The result is the
    new state and whether the message was admitted.
  */
  function Admit(s: BucketState, capacity: int, leakRate: real, amount: int, now: real): (BucketState, bool)
  {
    var d := Drained(s, leakRate, now);
    if d.level + amount as real <= capacity as real then (BucketState(d.level + amount as real, now), true)
    else (d, false)
  }

  /** Draining never raises the level when the clock does not run backwards. */
  lemma DrainNeverRaises(s: BucketState, leakRate: real, now: real)
    requires s.level >= 0.0 && leakRate >= 0.0 && now >= s.lastLeak
    ensures 0.0 <= Drained(s, leakRate, now).level <= s.level
  {
    assert (now - s.lastLeak) * leakRate >= 0.0;
  }

  /**
    `0 <= level <= capacity` is kept by every call, for non-negative sizes and
    rates and a clock that does not run backwards.
  */
  lemma AdmitKeepsBounds(s: BucketState, capacity: int, leakRate: real, amount: int, now: real)
    requires 0.0 <= s.level <= capacity as real
    requires leakRate >= 0.0 && amount >= 0 && now >= s.lastLeak
    ensures 0.0 <= Admit(s, capacity, leakRate, amount, now).0.level <= capacity as real
  {
    DrainNeverRaises(s, leakRate, now);
  }

  /** The verdicts of `n` calls with `amount` 1, all made at the same instant `now`. */
  function Burst(s: BucketState, capacity: int, leakRate: real, n: nat, now: real): (r: seq<bool>)
    ensures |r| == n
    decreases n
  {
    if n == 0 then []
    else
      var (s', ok) := Admit(s, capacity, leakRate, 1, now);
      [ok] + Burst(s', capacity, leakRate, n - 1, now)
  }

  /** From a whole level `k`, the next `capacity - k` instantaneous calls succeed and the one after fails. */
  lemma {:induction false} BurstFromLevel(k: nat, capacity: nat, leakRate: real, now: real)
    requires k <= capacity
    ensures Burst(BucketState(k as real, now), capacity, leakRate, capacity - k + 1, now)
         == seq(capacity - k, _ => true) + [false]
    decreases capacity - k
  {
    var s := BucketState(k as real, now);
    assert (now - now) * leakRate == 0.0;
    assert Drained(s, leakRate, now) == s;
    if k < capacity {
      BurstFromLevel(k + 1, capacity, leakRate, now);
      assert Admit(s, capacity, leakRate, 1, now) == (BucketState((k + 1) as real, now), true);
      assert seq(capacity - k, _ => true) == [true] + seq(capacity - (k + 1), _ => true);
    } else {
      assert Admit(s, capacity, leakRate, 1, now) == (s, false);
    }
  }

  /**
    A fresh bucket admits `capacity` messages at one instant and rejects the
    next one.
  */
  lemma FreshBucketBurst(capacity: nat, leakRate: real, now: real)
    ensures Burst(BucketState(0.0, now), capacity, leakRate, capacity + 1, now)
         == seq(capacity, _ => true) + [false]
  {
    BurstFromLevel(0, capacity, leakRate, now);
  }

  /**
    Waiting `capacity / leakRate` seconds drains any level within capacity, so
    the next message (of size at most `capacity`) is admitted.
  */
  lemma AdmitAfterFullDrain(s: BucketState, capacity: int, leakRate: real, amount: int)
    requires 0.0 <= s.level <= capacity as real && leakRate > 0.0 && 0 <= amount <= capacity
    ensures Admit(s, capacity, leakRate, amount, s.lastLeak + capacity as real / leakRate).1
  {
    var now := s.lastLeak + capacity as real / leakRate;
    assert (now - s.lastLeak) * leakRate == capacity as real;
    assert Drained(s, leakRate, now).level == 0.0;
  }

  /** The rate limiter of one session (`LeakyBucket`). */
  class LeakyBucket {
    const capacity: int
    const leakRate: real
    var currentLevel: real
    var lastLeakTime: real

    function State(): BucketState
      reads this
    {
      BucketState(currentLevel, lastLeakTime)
    }

    /** A new bucket is empty and its clock starts now. */
    constructor (capacity: int, leakRate: real, now: real)
      ensures this.capacity == capacity && this.leakRate == leakRate
      ensures State() == BucketState(0.0, now)
    {
      this.capacity := capacity;
      this.leakRate := leakRate;
      currentLevel := 0.0;
      lastLeakTime := now;
    }

    /** `_leak`. */
    method Leak(now: real)
      modifies this
      ensures State() == Drained(old(State()), leakRate, now)
    {
      var timeElapsed := now - lastLeakTime;
      var leakedAmount := timeElapsed * leakRate;
      var remaining := currentLevel - leakedAmount;
      assert Drained(State(), leakRate, now) == BucketState(if remaining > 0.0 then remaining else 0.0, now);
      currentLevel := if remaining > 0.0 then remaining else 0.0;
      lastLeakTime := now;
    }

    /**
      `add_message`: true iff the drained level plus `amount` fits under the
      capacity, in which case the level grows by exactly `amount`; on rejection
      the level stays drained.  The clock restarts in both cases.
    */
    method AddMessage(amount: int, now: real) returns (added: bool)
      modifies this
      ensures (State(), added) == Admit(old(State()), capacity, leakRate, amount, now)
      ensures lastLeakTime == now
      ensures added <==> Drained(old(State()), leakRate, now).level + amount as real <= capacity as real
      ensures currentLevel == Drained(old(State()), leakRate, now).level + (if added then amount as real else 0.0)
    {
      Leak(now);
      if currentLevel + amount as real <= capacity as real {
        currentLevel := currentLevel + amount as real;
        added := true;
      } else {
        added := false;
      }
    }
  }
}

/**
 The lazy token bucket in front of every send (internal/service/account.go:101-138),
 over exact reals and a clock that never goes backwards.

 The main results: the calls the bucket admits obey the bound `max + rate * (t - s)` in
 every window; no other limiter obeying that bound is ahead of the bucket after any
 prefix of the calls; and a denied call leaves no trace on the calls around it.
 */
module SendLimiter {

  datatype Bucket = Bucket(tokens: real, max: real, rate: real, lastTime: real)

  function Min(x: real, y: real): real {
    if x < y then x else y
  }

  /** The tokens available at `now`, before the call at `now` takes one. */
  function Refill(b: Bucket, now: real): real {
    Min(b.max, b.tokens + (now - b.lastTime) * b.rate)
  }

  function Next(b: Bucket, now: real): Bucket {
    var available := Refill(b, now);
    b.(tokens := if available < 1.0 then available else available - 1.0, lastTime := now)
  }

  ghost predicate WellFormed(b: Bucket) {
    0.0 <= b.tokens <= b.max && 0.0 <= b.rate
  }

  // ---- The limiter as the program runs it ----

  class TokenBucket {
    var tokens: real
    const max: real
    const rate: real
    var lastTime: real

    ghost function State(): Bucket
      reads this
    {
      Bucket(tokens, max, rate, lastTime)
    }

    constructor (perMinute: real, now: real)
      requires 0.0 <= perMinute
      ensures State() == Bucket(perMinute, perMinute, perMinute / 60.0, now)
      ensures WellFormed(State())
    {
      rate := perMinute / 60.0;
      tokens := perMinute;
      max := perMinute;
      lastTime := now;
    }

    method Allow(now: real) returns (ok: bool)
      requires WellFormed(State()) && lastTime <= now
      modifies this
      ensures State() == Next(old(State()), now) && WellFormed(State())
      ensures ok <==> 1.0 <= Refill(old(State()), now)
    {
      hide Refill;
      ghost var before := State();
      var elapsed := now - lastTime;
      RefillInRange(before, now);
      RefillBy(before, now, elapsed * rate);
      tokens := tokens + elapsed * rate;
      if tokens > max {
        tokens := max;
      }
      assert tokens == Refill(before, now);
      lastTime := now;
      if tokens < 1.0 {
        return false;
      }
      tokens := tokens - 1.0;
      return true;
    }
  }

  lemma Accrues(b: Bucket, s: real, t: real)
    requires 0.0 <= b.rate && s <= t
    ensures 0.0 <= (t - s) * b.rate
  {
  }

  lemma RefillInRange(b: Bucket, now: real)
    requires WellFormed(b) && b.lastTime <= now
    ensures 0.0 <= Refill(b, now) <= b.max && WellFormed(Next(b, now))
  {
    var gain := (now - b.lastTime) * b.rate;
    assert 0.0 <= gain by {
      Accrues(b, b.lastTime, now);
    }
    assert Refill(b, now) == Min(b.max, b.tokens + gain);
  }

  // ---- Runs: one bucket, a series of call times ----

  /** Call times that start no earlier than the bucket and never go back. */
  ghost predicate Clock(b: Bucket, times: seq<real>) {
    && (forall i :: 0 <= i < |times| ==> b.lastTime <= times[i])
    && (forall i, j :: 0 <= i <= j < |times| ==> times[i] <= times[j])
  }

  /** The bucket after the first `n` calls. */
  ghost function After(b: Bucket, times: seq<real>, n: nat): Bucket
    requires n <= |times|
  {
    if n == 0 then b else Next(After(b, times, n - 1), times[n - 1])
  }

  /** Whether call `i` of the run is admitted. */
  ghost predicate Admits(b: Bucket, times: seq<real>, i: nat)
    requires i < |times|
  {
    1.0 <= Refill(After(b, times, i), times[i])
  }

  ghost function Decisions(b: Bucket, times: seq<real>): seq<bool> {
    seq(|times|, i requires 0 <= i < |times| => Admits(b, times, i))
  }

  lemma {:induction false} AfterKeepsShape(b: Bucket, times: seq<real>, n: nat)
    requires WellFormed(b) && Clock(b, times) && n <= |times|
    ensures WellFormed(After(b, times, n))
    ensures After(b, times, n).max == b.max && After(b, times, n).rate == b.rate
    ensures After(b, times, n).lastTime == if n == 0 then b.lastTime else times[n - 1]
  {
    if n > 0 {
      AfterKeepsShape(b, times, n - 1);
      RefillInRange(After(b, times, n - 1), times[n - 1]);
    }
  }

  // ---- Choices of calls, replayed against the refill ----

  /** The refill earned up to each call, in tokens and without the cap. */
  ghost function Earned(b: Bucket, times: seq<real>): seq<real> {
    seq(|times|, i requires 0 <= i < |times| => (times[i] - b.lastTime) * b.rate)
  }

  /** Refill earned only grows. */
  ghost predicate Grows(earned: seq<real>) {
    && (forall i :: 0 <= i < |earned| ==> 0.0 <= earned[i])
    && (forall i, j :: 0 <= i <= j < |earned| ==> earned[i] <= earned[j])
  }

  /** How many of the calls `i..j` are taken. */
  ghost function Count(taken: seq<bool>, i: nat, j: nat): nat
    requires i <= j <= |taken|
    decreases j
  {
    if i == j then 0 else Count(taken, i, j - 1) + (if taken[j - 1] then 1 else 0)
  }

  /** The refill between the previous call and call `n`. */
  ghost function Gain(earned: seq<real>, n: nat): real
    requires n < |earned|
  {
    earned[n] - (if n == 0 then 0.0 else earned[n - 1])
  }

  /**
   What is left after the first `n` calls if exactly the calls in `taken` consume one,
   whether or not one is there; negative means the choice overdrew.
   */
  ghost function Level(max: real, start: real, earned: seq<real>, taken: seq<bool>, n: nat): real
    requires n <= |earned| == |taken|
  {
    if n == 0 then
      start
    else
      var available := Min(max, Level(max, start, earned, taken, n - 1) + Gain(earned, n - 1));
      if taken[n - 1] then available - 1.0 else available
  }

  /** What is there for call `n` to take. */
  ghost function Available(max: real, start: real, earned: seq<real>, taken: seq<bool>, n: nat): real
    requires n < |earned| == |taken|
  {
    Min(max, Level(max, start, earned, taken, n) + Gain(earned, n))
  }

  /** A choice that takes a call exactly when a token is there. */
  ghost predicate Greedy(max: real, start: real, earned: seq<real>, taken: seq<bool>)
    requires |earned| == |taken|
  {
    forall i {:trigger Available(max, start, earned, taken, i)} :: 0 <= i < |taken| ==>
      (taken[i] <==> 1.0 <= Available(max, start, earned, taken, i))
  }

  ghost predicate Overdrawn(max: real, start: real, earned: seq<real>, taken: seq<bool>)
    requires |earned| == |taken|
  {
    exists n :: 0 <= n <= |taken| && Level(max, start, earned, taken, n) < 0.0
  }

  /** A window's use plus what is left is paid for by a full bucket and the window's refill. */
  lemma {:induction false} LevelBoundsWindow(max: real, start: real, earned: seq<real>, taken: seq<bool>,
                                             i: nat, j: nat)
    requires i <= j < |earned| == |taken|
    ensures Level(max, start, earned, taken, j + 1) + Count(taken, i, j + 1) as real
         <= max + earned[j] - earned[i]
  {
    if i < j {
      LevelBoundsWindow(max, start, earned, taken, i, j - 1);
    } else {
      assert Count(taken, i, i) == 0;
    }
  }

  /** From a full bucket the level is exactly some window's slack. */
  lemma {:induction false} LevelIsSomeWindowsSlack(max: real, earned: seq<real>, taken: seq<bool>, j: nat)
    returns (i: nat)
    requires Grows(earned) && j < |earned| == |taken|
    ensures i <= j
    ensures Level(max, max, earned, taken, j + 1) + Count(taken, i, j + 1) as real
         == max + earned[j] - earned[i]
  {
    if j == 0 || max <= Level(max, max, earned, taken, j) + earned[j] - earned[j - 1] {
      i := j;
      assert Count(taken, j, j) == 0;
    } else {
      i := LevelIsSomeWindowsSlack(max, earned, taken, j - 1);
    }
  }

  /** The bound in every window, with the refill already in tokens. */
  ghost predicate Within(max: real, earned: seq<real>, taken: seq<bool>)
    requires |earned| == |taken|
  {
    forall i, j :: 0 <= i <= j < |earned| ==> Count(taken, i, j + 1) as real <= max + (earned[j] - earned[i])
  }

  lemma NeverOverdrawnIsWithin(max: real, start: real, earned: seq<real>, taken: seq<bool>)
    requires |earned| == |taken| && !Overdrawn(max, start, earned, taken)
    ensures Within(max, earned, taken)
  {
    forall i, j | 0 <= i <= j < |earned|
      ensures Count(taken, i, j + 1) as real <= max + (earned[j] - earned[i])
    {
      LevelBoundsWindow(max, start, earned, taken, i, j);
      assert 0.0 <= Level(max, start, earned, taken, j + 1);
    }
  }

  lemma NeverOverdrawnIffWithin(max: real, earned: seq<real>, taken: seq<bool>)
    requires 0.0 <= max && Grows(earned) && |earned| == |taken|
    ensures Within(max, earned, taken) <==> !Overdrawn(max, max, earned, taken)
  {
    if Within(max, earned, taken) {
      forall n | 0 < n <= |taken|
        ensures 0.0 <= Level(max, max, earned, taken, n)
      {
        var j := n - 1;
        var i := LevelIsSomeWindowsSlack(max, earned, taken, j);
        assert Count(taken, i, j + 1) as real <= max + (earned[j] - earned[i]);
      }
    }
    if !Overdrawn(max, max, earned, taken) {
      NeverOverdrawnIsWithin(max, max, earned, taken);
    }
  }

  /**
   A greedy choice never trails one that is never overdrawn: it has taken at least as many
   calls, and counting tokens in hand it is never poorer.
   */
  lemma {:induction false} NeverBehind(max: real, start: real, earned: seq<real>,
                                       greedy: seq<bool>, taken: seq<bool>, n: nat)
    requires n <= |earned| == |greedy| == |taken|
    requires Greedy(max, start, earned, greedy) && !Overdrawn(max, start, earned, taken)
    ensures Count(taken, 0, n) <= Count(greedy, 0, n)
    ensures Count(taken, 0, n) as real + Level(max, start, earned, taken, n)
         <= Count(greedy, 0, n) as real + Level(max, start, earned, greedy, n)
  {
    if n > 0 {
      NeverBehind(max, start, earned, greedy, taken, n - 1);
      assert greedy[n - 1] <==> 1.0 <= Available(max, start, earned, greedy, n - 1);
      assert 0.0 <= Level(max, start, earned, taken, n);
    }
  }

  lemma {:induction false} GreedyIsUnique(max: real, start: real, earned: seq<real>,
                                          one: seq<bool>, other: seq<bool>, n: nat)
    requires n <= |earned| == |one| == |other|
    requires Greedy(max, start, earned, one) && Greedy(max, start, earned, other)
    ensures forall i :: 0 <= i < n ==> one[i] == other[i]
    ensures Level(max, start, earned, one, n) == Level(max, start, earned, other, n)
  {
    if n > 0 {
      GreedyIsUnique(max, start, earned, one, other, n - 1);
      assert Available(max, start, earned, one, n - 1) == Available(max, start, earned, other, n - 1);
    }
  }

  // ---- The bucket is the greedy choice ----

  lemma EarnedBetween(b: Bucket, times: seq<real>, i: nat, j: nat)
    requires i < |times| && j < |times|
    ensures Earned(b, times)[j] - Earned(b, times)[i] == (times[j] - times[i]) * b.rate
  {
  }

  lemma EarnedGrows(b: Bucket, times: seq<real>)
    requires WellFormed(b) && Clock(b, times)
    ensures Grows(Earned(b, times))
  {
    forall i | 0 <= i < |times|
      ensures 0.0 <= Earned(b, times)[i]
    {
      Accrues(b, b.lastTime, times[i]);
    }
    forall i, j | 0 <= i <= j < |times|
      ensures Earned(b, times)[i] <= Earned(b, times)[j]
    {
      EarnedBetween(b, times, i, j);
      Accrues(b, times[i], times[j]);
    }
  }

  lemma RefillBy(b: Bucket, now: real, gain: real)
    requires (now - b.lastTime) * b.rate == gain
    ensures Refill(b, now) == Min(b.max, b.tokens + gain)
  {
  }

  /** The gain before call `n` is what the bucket adds at call `n`. */
  lemma GainIsRefill(b: Bucket, before: Bucket, times: seq<real>, n: nat)
    requires n < |times| && before.rate == b.rate && before.max == b.max
    requires before.lastTime == if n == 0 then b.lastTime else times[n - 1]
    ensures Refill(before, times[n]) == Min(b.max, before.tokens + Gain(Earned(b, times), n))
  {
    if n > 0 {
      EarnedBetween(b, times, n - 1, n);
    }
    RefillBy(before, times[n], Gain(Earned(b, times), n));
  }

  lemma BucketStep(b: Bucket, times: seq<real>, n: nat)
    requires WellFormed(b) && Clock(b, times) && n < |times|
    ensures After(b, times, n + 1).tokens
         == Refill(After(b, times, n), times[n]) - (if Decisions(b, times)[n] then 1.0 else 0.0)
  {
  }

  lemma {:induction false} BucketLevel(b: Bucket, times: seq<real>, n: nat)
    requires WellFormed(b) && Clock(b, times) && n <= |times|
    ensures After(b, times, n).tokens == Level(b.max, b.tokens, Earned(b, times), Decisions(b, times), n)
    ensures n < |times| ==>
      Refill(After(b, times, n), times[n]) == Available(b.max, b.tokens, Earned(b, times), Decisions(b, times), n)
  {
    if n > 0 {
      BucketLevel(b, times, n - 1);
      BucketStep(b, times, n - 1);
    }
    if n < |times| {
      AfterKeepsShape(b, times, n);
      GainIsRefill(b, After(b, times, n), times, n);
    }
  }

  lemma {:induction false} BucketIsGreedy(b: Bucket, times: seq<real>)
    requires WellFormed(b) && Clock(b, times)
    ensures Greedy(b.max, b.tokens, Earned(b, times), Decisions(b, times))
    ensures !Overdrawn(b.max, b.tokens, Earned(b, times), Decisions(b, times))
  {
    forall n | 0 <= n <= |times|
      ensures 0.0 <= Level(b.max, b.tokens, Earned(b, times), Decisions(b, times), n)
      ensures n < |times| ==>
        (Decisions(b, times)[n] <==> 1.0 <= Available(b.max, b.tokens, Earned(b, times), Decisions(b, times), n))
    {
      BucketLevel(b, times, n);
      AfterKeepsShape(b, times, n);
    }
  }

  // ---- Main results ----

  /**
   A choice of calls conforms when it obeys the bucket's bound in every window; this
   mentions no bucket state.
   */
  ghost predicate Conforms(b: Bucket, times: seq<real>, taken: seq<bool>)
    requires |taken| == |times|
  {
    forall i, j :: 0 <= i <= j < |times| ==>
      Count(taken, i, j + 1) as real <= b.max + (times[j] - times[i]) * b.rate
  }

  lemma ConformsGivesWithin(b: Bucket, times: seq<real>, taken: seq<bool>)
    requires |taken| == |times| && Conforms(b, times, taken)
    ensures Within(b.max, Earned(b, times), taken)
  {
    var earned := Earned(b, times);
    forall i, j | 0 <= i <= j < |earned|
      ensures Count(taken, i, j + 1) as real <= b.max + (earned[j] - earned[i])
    {
      EarnedBetween(b, times, i, j);
    }
  }

  lemma WithinGivesConforms(b: Bucket, times: seq<real>, taken: seq<bool>)
    requires |taken| == |times| && Within(b.max, Earned(b, times), taken)
    ensures Conforms(b, times, taken)
  {
    var earned := Earned(b, times);
    forall i, j | 0 <= i <= j < |times|
      ensures Count(taken, i, j + 1) as real <= b.max + (times[j] - times[i]) * b.rate
    {
      EarnedBetween(b, times, i, j);
      assert Count(taken, i, j + 1) as real <= b.max + (earned[j] - earned[i]);
    }
  }

  /**
   The bound and the bucket say the same thing: a choice of calls conforms exactly when
   replaying it through a full bucket never overdraws it.
   */
  lemma ConformsIffNeverOverdrawn(b: Bucket, times: seq<real>, taken: seq<bool>)
    requires WellFormed(b) && Clock(b, times) && |taken| == |times|
    ensures Conforms(b, times, taken) <==> !Overdrawn(b.max, b.max, Earned(b, times), taken)
  {
    EarnedGrows(b, times);
    NeverOverdrawnIffWithin(b.max, Earned(b, times), taken);
    if Conforms(b, times, taken) {
      ConformsGivesWithin(b, times, taken);
    } else if Within(b.max, Earned(b, times), taken) {
      WithinGivesConforms(b, times, taken);
    }
  }

  /**
   Window bound, from any starting level: between call `i` and call `j` at most
   `max + rate * (t_j - t_i)` sends are admitted.
   */
  lemma {:induction false} WindowBound(b: Bucket, times: seq<real>)
    requires WellFormed(b) && Clock(b, times)
    ensures Conforms(b, times, Decisions(b, times))
  {
    BucketIsGreedy(b, times);
    NeverOverdrawnIsWithin(b.max, b.tokens, Earned(b, times), Decisions(b, times));
    WithinGivesConforms(b, times, Decisions(b, times));
  }

  /** With the program's 30 per minute, no sixty seconds see more than sixty sends. */
  lemma {:induction false} SendsInOneMinute(times: seq<real>, start: real, i: nat, j: nat)
    requires Clock(Bucket(30.0, 30.0, 30.0 / 60.0, start), times)
    requires i <= j < |times| && times[j] - times[i] <= 60.0
    ensures Count(Decisions(Bucket(30.0, 30.0, 30.0 / 60.0, start), times), i, j + 1) <= 60
  {
    WindowBound(Bucket(30.0, 30.0, 30.0 / 60.0, start), times);
  }

  /**
   Greedy optimality: whatever subset of the calls another limiter with the same bound
   admits, after every prefix a bucket that started full has admitted at least as many.
   */
  lemma {:induction false} GreedyIsOptimal(b: Bucket, times: seq<real>, taken: seq<bool>, n: nat)
    requires WellFormed(b) && b.tokens == b.max && Clock(b, times) && n <= |times| == |taken|
    requires Conforms(b, times, taken)
    ensures Count(taken, 0, n) <= Count(Decisions(b, times), 0, n)
  {
    ConformsIffNeverOverdrawn(b, times, taken);
    BucketIsGreedy(b, times);
    NeverBehind(b.max, b.max, Earned(b, times), Decisions(b, times), taken, n);
  }

  // ---- Denied calls leave no trace ----

  function Without<T>(s: seq<T>, k: nat): (r: seq<T>)
    requires k < |s|
    ensures |r| == |s| - 1
    ensures forall i :: 0 <= i < |r| ==> r[i] == if i < k then s[i] else s[i + 1]
  {
    s[..k] + s[k + 1..]
  }

  /** Skipping a call that took nothing leaves the same tokens for every other call. */
  lemma {:induction false} SkippingKeepsLevels(max: real, start: real, earned: seq<real>, taken: seq<bool>,
                                               k: nat, n: nat)
    requires Grows(earned) && k < |earned| == |taken| && !taken[k] && n < |earned|
    ensures n <= k ==>
      Level(max, start, Without(earned, k), Without(taken, k), n) == Level(max, start, earned, taken, n)
    ensures k < n ==>
      Level(max, start, Without(earned, k), Without(taken, k), n) == Level(max, start, earned, taken, n + 1)
  {
    if n > 0 {
      SkippingKeepsLevels(max, start, earned, taken, k, n - 1);
      var earned', taken' := Without(earned, k), Without(taken, k);
      if n <= k {
        assert earned'[n - 1] == earned[n - 1] && taken'[n - 1] == taken[n - 1];
      } else {
        assert earned'[n - 1] == earned[n] && taken'[n - 1] == taken[n];
        if n == k + 1 {
          assert Level(max, start, earned, taken, k + 1) == Available(max, start, earned, taken, k);
        }
      }
    }
  }

  lemma SkippingKeepsGreedy(max: real, start: real, earned: seq<real>, taken: seq<bool>, k: nat)
    requires Grows(earned) && k < |earned| == |taken| && !taken[k]
    requires Greedy(max, start, earned, taken)
    ensures Greedy(max, start, Without(earned, k), Without(taken, k))
  {
    forall i | 0 <= i < |earned| - 1
      ensures Without(taken, k)[i] <==> 1.0 <= Available(max, start, Without(earned, k), Without(taken, k), i)
    {
      SkippingKeepsLevels(max, start, earned, taken, k, i);
      assert taken[k] <==> 1.0 <= Available(max, start, earned, taken, k);
      if i < k {
        assert taken[i] <==> 1.0 <= Available(max, start, earned, taken, i);
      } else {
        assert taken[i + 1] <==> 1.0 <= Available(max, start, earned, taken, i + 1);
      }
    }
  }

  lemma EarnedWithout(b: Bucket, times: seq<real>, k: nat)
    requires k < |times|
    ensures Earned(b, Without(times, k)) == Without(Earned(b, times), k)
  {
    var one, other := Earned(b, Without(times, k)), Without(Earned(b, times), k);
    forall i | 0 <= i < |one|
      ensures one[i] == other[i]
    {
      assert Without(times, k)[i] == times[if i < k then i else i + 1];
    }
  }

  /**
   Taking a denied call out of a run, or putting one in, changes the outcome of no other
   call.
   */
  lemma DeniedCallsLeaveNoTrace(b: Bucket, times: seq<real>, k: nat)
    requires WellFormed(b) && Clock(b, times) && k < |times| && !Decisions(b, times)[k]
    ensures Decisions(b, Without(times, k)) == Without(Decisions(b, times), k)
  {
    var shorter := Without(times, k);
    EarnedGrows(b, times);
    BucketIsGreedy(b, times);
    SkippingKeepsGreedy(b.max, b.tokens, Earned(b, times), Decisions(b, times), k);
    EarnedWithout(b, times, k);
    BucketIsGreedy(b, shorter);
    var one, other := Decisions(b, shorter), Without(Decisions(b, times), k);
    GreedyIsUnique(b.max, b.tokens, Earned(b, shorter), one, other, |shorter|);
  }
}

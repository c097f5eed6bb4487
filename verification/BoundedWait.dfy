/** The session store's bounded wait for its lock: try at once, then poll with
    a backoff that doubles from 5 ms to a 100 ms ceiling until a deadline.
    Times and durations are in nanoseconds. */
module BoundedWait {
  import opened FixedWidth

  const MILLI := 1_000_000
  const LOCK_BACKOFF_START := 5 * MILLI
  const LOCK_BACKOFF_MAX := 100 * MILLI

  /** What one non-blocking attempt on the lock reports. */
  datatype Try = Taken | WouldBlock | Broken

  datatype Outcome = Acquired | TimedOut | IoError | WaitsForEver

  /** The wait after the `n`-th refused attempt (from 0), before it is cut to
      the time left. */
  function Backoff(n: nat): (d: nat)
    ensures LOCK_BACKOFF_START <= d <= LOCK_BACKOFF_MAX
  {
    if n == 0 then LOCK_BACKOFF_START else Min(2 * Backoff(n - 1), LOCK_BACKOFF_MAX)
  }

  /** What the sleep after attempt `n` (from 1) asks for, if the clock then
      reads `now`. */
  function Asked(n: nat, now: nat, deadline: nat): nat
    requires n >= 1
  {
    Min(Backoff(n - 1), if now < deadline then deadline - now else 0)
  }

  /** `clock(0)` is the reading at the start and `clock(n)` the one after
      attempt `n`: the clock does not go back, and a sleep takes at least the
      time asked. */
  ghost predicate SleepsAreHonest(clock: nat -> nat, deadline: nat) {
    && clock(0) <= clock(1)
    && forall n: nat :: n >= 1 ==> SleepIsHonest(clock, deadline, n)
  }

  predicate SleepIsHonest(clock: nat -> nat, deadline: nat, n: nat)
    requires n >= 1
  {
    clock(n) + Asked(n, clock(n), deadline) <= clock(n + 1)
  }

  /** The first `n` waits, uncut, added up. */
  function Total(n: nat): nat {
    if n == 0 then 0 else Total(n - 1) + Backoff(n - 1)
  }

  /** The doubling: 5, 10, 20, 40 and 80 ms, 155 ms in all, then 100 ms. */
  lemma FirstWaits()
    ensures Backoff(5) == LOCK_BACKOFF_MAX && Total(5) == 155 * MILLI
  {
    assert Backoff(1) == 10 * MILLI && Total(1) == 5 * MILLI;
    assert Backoff(2) == 20 * MILLI && Total(2) == 15 * MILLI;
    assert Backoff(3) == 40 * MILLI && Total(3) == 35 * MILLI;
    assert Backoff(4) == 80 * MILLI && Total(4) == 75 * MILLI;
  }

  lemma {:induction false} BackoffReachesItsCeiling(n: nat)
    requires n >= 5
    ensures Backoff(n) == LOCK_BACKOFF_MAX
    ensures Total(n) == 155 * MILLI + (n - 5) * LOCK_BACKOFF_MAX
  {
    FirstWaits();
    if n > 5 {
      BackoffReachesItsCeiling(n - 1);
    }
  }

  /** If `n` full waits fit strictly inside the budget, then `n + 2` attempts
      are within the bound. */
  lemma AttemptBound(n: nat, budget: nat)
    requires Total(n) < budget
    ensures n + 2 <= 7 + budget / LOCK_BACKOFF_MAX
  {
    if n >= 5 {
      BackoffReachesItsCeiling(n);
    }
  }

  /** `budget` is None for "no bound"; a deadline past `instantMax` cannot be
      represented, and then the wait has no bound either. `answer(n)` is what
      attempt `n` (from 1) reports. */
  method LockExclusiveBounded(budget: Option<nat>, instantMax: nat, answer: nat -> Try, clock: nat -> nat)
    returns (r: Outcome, tries: nat, slept: nat)
    requires budget.Some? ==> SleepsAreHonest(clock, clock(0) + budget.value)
    ensures r.WaitsForEver? <==> budget.None? || clock(0) + budget.value > instantMax
    ensures !r.WaitsForEver? ==>
              && slept <= budget.value
              && 1 <= tries <= 7 + budget.value / LOCK_BACKOFF_MAX
              && (forall n :: 1 <= n < tries ==> answer(n).WouldBlock?)
              && (r.Acquired? <==> answer(tries).Taken?)
              && (r.IoError? <==> answer(tries).Broken?)
              && (r.TimedOut? ==> answer(tries).WouldBlock? && clock(tries) >= clock(0) + budget.value)
  {
    tries, slept := 0, 0;
    if budget.None? || clock(0) + budget.value > instantMax {
      return WaitsForEver, tries, slept;
    }
    var deadline := clock(0) + budget.value;
    var wait := LOCK_BACKOFF_START;
    while true
      invariant wait == Backoff(tries)
      invariant slept <= budget.value && clock(0) + slept <= clock(tries + 1)
      invariant clock(tries + 1) >= deadline || slept == Total(tries)
      invariant tries >= 1 ==> Total(tries - 1) < budget.value
      invariant forall n :: 1 <= n <= tries ==> answer(n).WouldBlock?
      decreases Max(0, deadline - clock(tries + 1)), deadline - clock(tries + 1) >= 0
    {
      tries := tries + 1;
      if tries >= 2 {
        AttemptBound(tries - 2, budget.value);
      }
      if answer(tries).Taken? {
        return Acquired, tries, slept;
      }
      if answer(tries).Broken? {
        return IoError, tries, slept;
      }
      var now := clock(tries);
      if now >= deadline {
        return TimedOut, tries, slept;
      }
      var asked := Min(wait, deadline - now);
      assert asked == Asked(tries, now, deadline);
      assert SleepIsHonest(clock, deadline, tries);
      slept := slept + asked;
      wait := Min(2 * wait, LOCK_BACKOFF_MAX);
    }
  }
}

/**
The per-endpoint token bucket of the RPC client.  `Bucket` is the limiter's state as a value and
`Poll` one turn of the loop in `acquire`; `RateLimiter` is the limiter that the client updates in
place, proved against them.  Clock readings are parameters.
*/
module TokenBucket {

  const SLEEP_SECONDS := 0.05

  datatype Bucket = Bucket(tokens: real, lastRefill: real, capacity: real, refillPerSec: real)
  {
    ghost predicate WellFormed() {
      0.0 <= tokens <= capacity && 1.0 <= capacity && 1.0 <= refillPerSec
    }
  }

  function NewBucket(rps: nat, now: real): (b: Bucket)
    ensures b.WellFormed() && b.tokens == b.capacity == b.refillPerSec
  {
    var c := if rps < 1 then 1.0 else rps as real;
    Bucket(c, now, c, c)
  }

  /** Tokens earned in `dt` seconds; its proofs see it through the three lemmas below only. */
  function Earned(rate: real, dt: real): real { rate * dt }

  lemma EarnedNonNegative(rate: real, dt: real)
    requires 0.0 <= rate && 0.0 <= dt
    ensures 0.0 <= Earned(rate, dt)
  {
  }

  lemma EarnedAdds(rate: real, x: real, y: real)
    ensures Earned(rate, x + y) == Earned(rate, x) + Earned(rate, y)
  {
  }

  lemma EarnedMonotone(rate: real, x: real, y: real)
    requires 0.0 <= rate && x <= y
    ensures Earned(rate, x) <= Earned(rate, y)
  {
    hide Earned;
    EarnedNonNegative(rate, y - x);
    EarnedAdds(rate, x, y - x);
  }

  lemma EarnedAtLeast(rate: real, dt: real)
    requires 1.0 <= rate && 0.0 <= dt
    ensures dt <= Earned(rate, dt)
  {
    EarnedNonNegative(rate - 1.0, dt);
  }

  function Refill(b: Bucket, now: real): Bucket {
    // `duration_since` saturates at zero
    var elapsed := if b.lastRefill <= now then now - b.lastRefill else 0.0;
    var level := b.tokens + Earned(b.refillPerSec, elapsed);
    b.(lastRefill := now, tokens := if level <= b.capacity then level else b.capacity)
  }

  predicate Grants(b: Bucket, now: real) {
    Refill(b, now).tokens >= 1.0
  }

  function Poll(b: Bucket, now: real): Bucket {
    var r := Refill(b, now);
    if Grants(b, now) then r.(tokens := r.tokens - 1.0) else r
  }

  /** The bucket after polling it at each of the given times in turn. */
  function Run(b: Bucket, polls: seq<real>): Bucket {
    if polls == [] then b
    else Poll(Run(b, polls[..|polls| - 1]), polls[|polls| - 1])
  }

  /** The times, in order, of the polls that took a token. */
  function GrantTimes(b: Bucket, polls: seq<real>): seq<real> {
    if polls == [] then []
    else
      var before := polls[..|polls| - 1];
      var now := polls[|polls| - 1];
      GrantTimes(b, before) + (if Grants(Run(b, before), now) then [now] else [])
  }

  ghost predicate Monotone(start: real, polls: seq<real>) {
    && (forall i :: 0 <= i < |polls| ==> start <= polls[i])
    && (forall i, j :: 0 <= i <= j < |polls| ==> polls[i] <= polls[j])
  }

  function CountWithin(times: seq<real>, from: real, to: real): nat {
    if times == [] then 0
    else CountWithin(times[..|times| - 1], from, to)
         + (if from <= times[|times| - 1] <= to then 1 else 0)
  }

  lemma PollStep(b: Bucket, now: real)
    requires b.WellFormed() && b.lastRefill <= now
    ensures var p := Poll(b, now);
      var taken := if Grants(b, now) then 1.0 else 0.0;
      p.WellFormed() && p.lastRefill == now
      && p.tokens + taken <= b.tokens + Earned(b.refillPerSec, now - b.lastRefill)
      && p.tokens + taken <= b.capacity
  {
    hide Earned;
    EarnedNonNegative(b.refillPerSec, now - b.lastRefill);
  }

  lemma {:induction false} RunWellFormed(b: Bucket, polls: seq<real>)
    requires b.WellFormed() && Monotone(b.lastRefill, polls)
    ensures var r := Run(b, polls);
      r.WellFormed() && r.capacity == b.capacity && r.refillPerSec == b.refillPerSec
      && r.lastRefill == if polls == [] then b.lastRefill else polls[|polls| - 1]
  {
    if polls != [] {
      var before := polls[..|polls| - 1];
      RunWellFormed(b, before);
      PollStep(Run(b, before), polls[|polls| - 1]);
    }
  }

  lemma CountStep(times: seq<real>, granted: bool, t: real, from: real, to: real)
    ensures CountWithin(times + (if granted then [t] else []), from, to)
            == CountWithin(times, from, to) + (if granted && from <= t <= to then 1 else 0)
  {
    if granted {
      assert (times + [t])[..|times|] == times;
    } else {
      assert times + [] == times;
    }
  }

  /** What is true of the window [from, to] when the last poll was at r.lastRefill. */
  ghost predicate WindowInvariant(r: Bucket, granted: nat, from: real, to: real) {
    if r.lastRefill < from then granted == 0
    else if r.lastRefill <= to then
      granted as real + r.tokens <= r.capacity + Earned(r.refillPerSec, r.lastRefill - from)
    else granted as real <= r.capacity + Earned(r.refillPerSec, to - from)
  }

  lemma WindowStep(b: Bucket, now: real, granted: nat, from: real, to: real)
    requires b.WellFormed() && b.lastRefill <= now && from <= to
    requires WindowInvariant(b, granted, from, to)
    ensures WindowInvariant(Poll(b, now),
                            granted + (if Grants(b, now) && from <= now <= to then 1 else 0), from, to)
  {
    hide Earned;
    PollStep(b, now);
    if now > to {
      WindowCloses(b, granted, from, to);
    } else if b.lastRefill >= from {
      EarnedAdds(b.refillPerSec, now - b.lastRefill, b.lastRefill - from);
    } else if now >= from {
      EarnedNonNegative(b.refillPerSec, now - from);
    }
  }

  lemma WindowCloses(r: Bucket, granted: nat, from: real, to: real)
    requires r.WellFormed() && from <= to && WindowInvariant(r, granted, from, to)
    ensures granted as real <= r.capacity + Earned(r.refillPerSec, to - from)
  {
    hide Earned;
    if r.lastRefill < from {
      EarnedNonNegative(r.refillPerSec, to - from);
    } else if r.lastRefill <= to {
      EarnedMonotone(r.refillPerSec, r.lastRefill - from, to - from);
    }
  }

  lemma {:induction false} WindowHolds(b: Bucket, polls: seq<real>, from: real, to: real)
    requires b.WellFormed() && Monotone(b.lastRefill, polls) && from <= to
    ensures WindowInvariant(Run(b, polls), CountWithin(GrantTimes(b, polls), from, to), from, to)
  {
    hide Earned;
    if polls == [] {
      if b.lastRefill > to { EarnedNonNegative(b.refillPerSec, to - from); }
      else if from <= b.lastRefill { EarnedNonNegative(b.refillPerSec, b.lastRefill - from); }
    } else {
      var before := polls[..|polls| - 1];
      var now := polls[|polls| - 1];
      WindowHolds(b, before, from, to);
      RunWellFormed(b, before);
      var was := Run(b, before);
      WindowStep(was, now, CountWithin(GrantTimes(b, before), from, to), from, to);
      PollStep(was, now);
      CountStep(GrantTimes(b, before), Grants(was, now), now, from, to);
    }
  }

  /** In every run and every window, at most capacity + rate * length tokens are taken. */
  lemma WindowBound(b: Bucket, polls: seq<real>, from: real, to: real)
    requires b.WellFormed() && Monotone(b.lastRefill, polls) && from <= to
    ensures CountWithin(GrantTimes(b, polls), from, to) as real
            <= b.capacity + b.refillPerSec * (to - from)
  {
    hide Run, Grants, GrantTimes, CountWithin;
    WindowHolds(b, polls, from, to);
    RunWellFormed(b, polls);
    WindowCloses(Run(b, polls), CountWithin(GrantTimes(b, polls), from, to), from, to);
  }

  function Repeated(t: real, n: nat): seq<real> { seq(n, _ => t) }

  /** The bound is reached: a full bucket serves its whole capacity in one instant, and no more. */
  lemma {:induction false} BurstIsServed(rps: nat, now: real, n: nat)
    requires 1 <= rps
    ensures var b := NewBucket(rps, now);
      CountWithin(GrantTimes(b, Repeated(now, n)), now, now) == (if n <= rps then n else rps)
      && Run(b, Repeated(now, n))
         == b.(tokens := if n <= rps then (rps - n) as real else 0.0)
  {
    if n > 0 {
      BurstIsServed(rps, now, n - 1);
      var b := NewBucket(rps, now);
      var polls, before := Repeated(now, n), Repeated(now, n - 1);
      assert polls[..n - 1] == before && polls[n - 1] == now;
      BurstStep(Run(b, before), now);
      CountStep(GrantTimes(b, before), Grants(Run(b, before), now), now, now, now);
    }
  }

  lemma BurstStep(b: Bucket, now: real)
    requires b.WellFormed() && b.lastRefill == now
    ensures Grants(b, now) == (b.tokens >= 1.0)
    ensures Poll(b, now) == if b.tokens >= 1.0 then b.(tokens := b.tokens - 1.0) else b
  {
  }

  function Readings(clock: nat -> real, n: nat): seq<real> {
    if n == 0 then [] else Readings(clock, n - 1) + [clock(n - 1)]
  }

  /** Tokens earned in n sleeps of the shortest length. */
  function EarnedAsleep(rate: real, n: nat): real {
    if n == 0 then 0.0 else EarnedAsleep(rate, n - 1) + Earned(rate, SLEEP_SECONDS)
  }

  lemma RunMore(b: Bucket, polls: seq<real>, now: real)
    ensures Run(b, polls + [now]) == Poll(Run(b, polls), now)
    ensures GrantTimes(b, polls + [now]) == GrantTimes(b, polls) + (if Grants(Run(b, polls), now) then [now] else [])
  {
    hide Poll, Grants;
    assert (polls + [now])[..|polls|] == polls;
  }

  /** A reading not before the last refill is not before any reading. */
  lemma {:induction false} MonotoneMore(b: Bucket, polls: seq<real>, now: real)
    requires Monotone(b.lastRefill, polls) && Run(b, polls).lastRefill <= now
    ensures Monotone(b.lastRefill, polls + [now])
  {
    hide Earned;
    if polls != [] { assert Run(b, polls).lastRefill >= polls[|polls| - 1]; }
  }

  /** The bucket fills at its rate, up to its capacity; a whole token is taken. */
  ghost predicate TurnIsRight(b: Bucket, now: real, granted: bool, tokens: real) {
    var level := b.tokens + b.refillPerSec * (now - b.lastRefill);
    var full := if level <= b.capacity then level else b.capacity;
    granted == (full >= 1.0) && tokens == if full >= 1.0 then full - 1.0 else full
  }

  /** What n sleeps of 50 ms earn. */
  function Slept(n: nat, rate: real): real { n as real * rate * 0.05 }

  class RateLimiter {
    var tokens: real
    var lastRefill: real
    const capacity: real
    const refillPerSec: real
    ghost const start: Bucket
    /** Every clock reading the limiter has polled at. */
    ghost var polls: seq<real>

    ghost function State(): Bucket
      reads this
    {
      Bucket(tokens, lastRefill, capacity, refillPerSec)
    }

    ghost predicate Valid()
      reads this
    {
      && start.WellFormed() && start.capacity == capacity && start.refillPerSec == refillPerSec
      && Monotone(start.lastRefill, polls)
      && State() == Run(start, polls)
    }

    constructor (rps: nat, now: real)
      ensures Valid() && polls == [] && start == NewBucket(rps, now)
      ensures tokens == capacity == refillPerSec == (if rps == 0 then 1 else rps) as real && lastRefill == now
    {
      var c := if rps < 1 then 1.0 else rps as real;
      tokens, lastRefill, capacity, refillPerSec := c, now, c, c;
      start, polls := NewBucket(rps, now), [];
    }

    /** One turn of the loop: refill, and take a token if there is a whole one. */
    method Turn(now: real) returns (granted: bool)
      requires Valid() && lastRefill <= now
      modifies this
      ensures Valid() && polls == old(polls) + [now] && lastRefill == now
      ensures State() == Poll(old(State()), now) && granted == Grants(old(State()), now)
      ensures TurnIsRight(old(State()), now, granted, tokens)
      ensures GrantTimes(start, polls)
              == GrantTimes(start, old(polls)) + (if granted then [now] else [])
    {
      hide Earned, Run, GrantTimes;
      RunWellFormed(start, polls);
      RunMore(start, polls, now);
      MonotoneMore(start, polls, now);
      var elapsed := if lastRefill <= now then now - lastRefill else 0.0;
      var level := tokens + Earned(refillPerSec, elapsed);
      lastRefill, tokens := now, if level <= capacity then level else capacity;
      granted := tokens >= 1.0;
      if granted { tokens := tokens - 1.0; }
      polls := polls + [now];
      PollExactly(old(State()), now);
    }

    /**
    `clock(i)` is the reading of the i-th turn of the loop; a 50 ms sleep lies between two turns.
    The call takes exactly one token, at its last reading, and sleeps at most 20 / rate times,
    rounded up.
    */
    method Acquire(clock: nat -> real) returns (sleeps: nat)
      requires Valid()
      requires lastRefill <= clock(0)
      requires forall i: nat, j: nat :: i < j ==> clock(i) + SLEEP_SECONDS <= clock(j)
      modifies this
      ensures Valid() && 0.0 <= tokens <= capacity
      ensures polls == old(polls) + Readings(clock, sleeps + 1)
      ensures GrantTimes(start, polls) == GrantTimes(start, old(polls)) + [clock(sleeps)]
      ensures sleeps > 0 ==> Slept(sleeps - 1, refillPerSec) < 1.0
      ensures sleeps <= 20
    {
      hide EarnedAsleep, Refill, Grants, Poll, Run, GrantTimes, TurnIsRight, Slept;
      sleeps := 0;
      RunWellFormed(start, polls);
      while true
        invariant Valid() && State().WellFormed()
        invariant lastRefill <= clock(sleeps)
        invariant sleeps > 0 ==> lastRefill + SLEEP_SECONDS <= clock(sleeps)
        invariant polls == old(polls) + Readings(clock, sleeps)
        invariant GrantTimes(start, polls) == GrantTimes(start, old(polls))
        invariant sleeps > 0 ==> EarnedAsleep(refillPerSec, sleeps - 1) <= tokens < 1.0
        invariant sleeps <= 20
        decreases 20 - sleeps
      {
        ghost var was := State();
        var granted := Turn(clock(sleeps));
        RunWellFormed(start, polls);
        if granted {
          if sleeps > 0 { AsleepIs(refillPerSec, sleeps - 1); }
          return;
        }
        SleepGain(was, clock(sleeps), sleeps);
        sleeps := sleeps + 1;
      }
    }
  }

  /** A turn that finds no token still gained 50 ms worth of refill since the turn before it. */
  lemma SleepGain(b: Bucket, now: real, sleeps: nat)
    requires b.WellFormed() && b.lastRefill <= now && !Grants(b, now)
    requires sleeps > 0 ==> b.lastRefill + SLEEP_SECONDS <= now
    requires sleeps > 0 ==> EarnedAsleep(b.refillPerSec, sleeps - 1) <= b.tokens
    ensures EarnedAsleep(b.refillPerSec, sleeps) <= Poll(b, now).tokens < 1.0
    ensures sleeps < 20
  {
    hide Earned;
    EarnedAsleepAtLeast(b.refillPerSec, sleeps);
    if sleeps > 0 {
      EarnedMonotone(b.refillPerSec, SLEEP_SECONDS, now - b.lastRefill);
    } else {
      EarnedNonNegative(b.refillPerSec, now - b.lastRefill);
    }
  }

  lemma {:induction false} AsleepIs(rate: real, n: nat)
    ensures EarnedAsleep(rate, n) == Slept(n, rate)
  {
    if n > 0 {
      AsleepIs(rate, n - 1);
      OneMoreSlept(n, rate);
      hide Earned, Slept;
    }
  }

  lemma OneMoreSlept(n: nat, rate: real)
    requires n > 0
    ensures Slept(n, rate) == Slept(n - 1, rate) + Earned(rate, SLEEP_SECONDS)
  {
    OneMore((n - 1) as real, n as real, rate);
  }

  lemma OneMore(n: real, m: real, rate: real)
    requires m == n + 1.0
    ensures n * rate * 0.05 + rate * 0.05 == m * rate * 0.05
  {
    assert m * rate == n * rate + rate;
  }

  /** A poll grants iff the tokens left and those earned since, up to the capacity, make one. */
  lemma PollExactly(b: Bucket, now: real)
    requires b.lastRefill <= now
    ensures TurnIsRight(b, now, Grants(b, now), Poll(b, now).tokens)
    ensures Poll(b, now) == Bucket(Poll(b, now).tokens, now, b.capacity, b.refillPerSec)
  {
  }

  lemma {:induction false} EarnedAsleepAtLeast(rate: real, n: nat)
    requires rate >= 1.0
    ensures EarnedAsleep(rate, n) >= n as real * SLEEP_SECONDS
  {
    EarnedAtLeast(rate, SLEEP_SECONDS);
    hide Earned;
    if n > 0 { EarnedAsleepAtLeast(rate, n - 1); }
  }
}

/** The cooperative work and time budget of src/graph/work-budget.js. */
module WorkBudgets {
  import opened Wrappers

  datatype StopReason = Running | MaxWorkUnits | MaxWallClockMs

  /** Whether the `n`-th unit taken one at a time from a fresh budget is let through: the unit limit is not
      reached, and the clock had not expired at any multiple of the check interval up to `n`. */
  ghost predicate LetsThrough(maxUnits: Option<nat>, maxMs: Option<nat>, interval: nat, clock: nat -> int, n: nat)
    requires interval > 0
  {
    && (maxUnits.Some? ==> n < maxUnits.value)
    && (maxMs.Some? ==> forall m :: 0 < m <= n && m % interval == 0 ==> clock(m) < maxMs.value)
  }

  /** A budget at one moment; `onlySingles` when it only ever let single units through, `spent` when the last
      unit taken is the first a fresh budget does not let through. */
  datatype Meter = Meter(used: nat, running: bool, onlySingles: bool, spent: bool)

  /** From `a` to `b` single units were taken, `passed` of them let through: all of them, or all but the last
      when the budget stopped. */
  ghost predicate Charged(a: Meter, b: Meter, passed: nat) {
    && (!a.running ==> passed == 0 && b == a)
    && (a.running ==> b.used == a.used + passed + if b.running then 0 else 1)
    && (a.onlySingles ==> if b.running then b.onlySingles else b.spent)
  }

  /** From `a` to `b` nothing was taken, or the budget is still running. */
  ghost predicate Continues(a: Meter, b: Meter, passed: nat) {
    (passed == 0 && b == a) || b.running
  }

  lemma ChargedCompose(a: Meter, b: Meter, c: Meter, m: nat, n: nat)
    requires Charged(a, b, m) && Charged(b, c, n) && Continues(a, b, m)
    ensures Charged(a, c, m + n)
    ensures Continues(b, c, n) ==> Continues(a, c, m + n)
  {
  }

  lemma ChargedNothing(a: Meter)
    requires a.onlySingles ==> a.running
    ensures Charged(a, a, 0) && Continues(a, a, 0)
  {
  }

  lemma RemainderUnique(a: nat, s: nat, k: nat, r: nat)
    requires s > 0 && a == s * k + r && r < s
    ensures a % s == r
  {
    var d := k - a / s;
    assert a == s * (a / s) + a % s;
    assert s * d == a % s - r;
    MultipleBeyond(s, d);
  }

  lemma MultipleBeyond(s: int, d: int)
    requires s > 0
    ensures d >= 1 ==> s * d >= s
    ensures d <= -1 ==> s * d <= -s
  {
  }

  lemma NextRemainder(n: nat, s: nat)
    requires s > 0
    ensures (n + 1) % s == if n % s + 1 == s then 0 else n % s + 1
  {
    assert n == s * (n / s) + n % s;
    if n % s + 1 == s {
      RemainderUnique(n + 1, s, n / s + 1, 0);
    } else {
      RemainderUnique(n + 1, s, n / s, n % s + 1);
    }
  }

  /** The clock is an arbitrary oracle: `clock(n)` is the time elapsed when it is read with `n` units used. */
  class WorkBudget {
    const maxUnits: Option<nat>
    const maxMs: Option<nat>
    const checkEvery: nat
    var used: nat
    var lastCheckAt: nat
    var reason: StopReason

    constructor (maxWorkUnits: Option<nat>, maxWallClockMs: Option<nat>, checkEvery: nat)
      ensures Valid() && maxUnits == maxWorkUnits && maxMs == maxWallClockMs && this.checkEvery == checkEvery
      ensures used == 0 && reason == Running && forall clock :: Fresh(clock)
    {
      maxUnits, maxMs, this.checkEvery := maxWorkUnits, maxWallClockMs, checkEvery;
      used, lastCheckAt, reason := 0, 0, Running;
    }

    /** Units between two checks of the clock, taken one at a time. */
    ghost function Interval(): (n: nat)
      ensures n >= 1 && n >= checkEvery && (checkEvery >= 1 ==> n == checkEvery)
    {
      Max(1, checkEvery)
    }

    predicate Unlimited() { maxUnits.None? && maxMs.None? }

    /** A running budget that took a unit is below its unit limit, and less than one check interval has
        passed since the clock was last read. */
    ghost predicate Valid()
      reads this
    {
      && lastCheckAt <= used
      && (reason == Running && maxUnits.Some? ==> used == 0 || used < maxUnits.value)
      && (reason == Running && maxMs.Some? ==> used - lastCheckAt < Interval())
      && (reason == MaxWorkUnits ==> maxUnits.Some? && used >= maxUnits.value)
      && (reason == MaxWallClockMs ==> maxMs.Some?)
    }

    /** The `n`-th single unit is let through. */
    ghost predicate Passes(clock: nat -> int, n: nat) {
      LetsThrough(maxUnits, maxMs, Interval(), clock, n)
    }

    /** Units were only ever taken one at a time, and all were let through. */
    ghost predicate Fresh(clock: nat -> int)
      reads this
    {
      && reason == Running
      && (maxMs.Some? ==> lastCheckAt == used - used % Interval())
      && (used > 0 ==> Passes(clock, used))
    }

    ghost function Reading(clock: nat -> int): (m: Meter)
      reads this
      ensures m.onlySingles ==> m.running
    {
      Meter(used, reason == Running, Fresh(clock), !Passes(clock, used) && (used > 1 ==> Passes(clock, used - 1)))
    }

    /** `passed` is the number of single units a fresh budget lets through: below the unit limit, and once the
        budget has stopped not one less than it could be. */
    ghost predicate LetThrough(clock: nat -> int, passed: nat)
      reads this
    {
      && (passed > 0 ==> Passes(clock, passed))
      && (reason != Running ==> !Passes(clock, passed + 1))
      && (maxUnits.Some? ==> passed < Max(1, maxUnits.value))
    }

    lemma ReadingFresh(clock: nat -> int)
      ensures Reading(clock).used == used && (Reading(clock).onlySingles <==> Fresh(clock))
      ensures Reading(clock).running <==> reason == Running
    {
    }

    lemma FreshLetsThrough(clock: nat -> int, start: Meter, passed: nat)
      requires start.used == 0 && start.running && start.onlySingles && Charged(start, Reading(clock), passed)
      ensures LetThrough(clock, passed)
    {
    }

    /** Once stopped, always stopped.  Otherwise the whole part of the units is added first, one at least and one
        when no number is given; reaching the unit limit stops, and so does an expired clock, but the clock is
        read only at a check. */
    method Consume(units: Option<real>, clock: nat -> int) returns (stop: bool)
      requires Valid()
      modifies this
      ensures Valid()
      ensures stop <==> reason != Running
      ensures old(reason) != Running ==> reason == old(reason) && used == old(used) && lastCheckAt == old(lastCheckAt)
      ensures old(reason) == Running ==> used == old(used) + Max(1, if units.Some? then units.value.Floor else 1)
      ensures old(reason) == Running ==> (reason == MaxWorkUnits <==> maxUnits.Some? && used >= maxUnits.value)
      ensures old(reason) == Running && reason != MaxWorkUnits ==>
                var check := maxMs.Some? && used - old(lastCheckAt) >= checkEvery;
                && (reason == MaxWallClockMs <==> check && clock(used) >= maxMs.value)
                && lastCheckAt == if check then used else old(lastCheckAt)
      ensures used == old(used) + 1 && old(Fresh(clock)) ==> if Passes(clock, used) then Fresh(clock) else stop
    {
      if reason != Running { return true; }
      NextRemainder(used, Interval());
      used := used + Max(1, if units.Some? then units.value.Floor else 1);
      if maxUnits.Some? && used >= maxUnits.value {
        reason := MaxWorkUnits;
        return true;
      }
      if maxMs.Some? && used - lastCheckAt >= checkEvery {
        lastCheckAt := used;
        if clock(used) >= maxMs.value {
          reason := MaxWallClockMs;
        }
      }
      return reason != Running;
    }
  }
}

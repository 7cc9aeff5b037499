/** Login lockout, one attempt at a time: how often a password can be tried. */
module Lockout {
  import opened Money
  import Scaled

  const MAX_FAILED_LOGINS: nat := 8
  /** Fifteen minutes, in microseconds. */
  const LOCKOUT_DURATION := 900_000_000

  datatype Account = Account(failed: nat, lockedUntil: Option<int>)

  /** The clock is read twice: `at` for the lock, `stamp` when a failure is recorded. */
  datatype Attempt = Attempt(at: int, stamp: int, right: bool, active: bool)
  datatype Verdict = Locked | Wrong | Inactive | Welcome

  predicate IsLocked(a: Account, now: int) { a.lockedUntil.Some? && a.lockedUntil.value > now }

  function Judge(a: Account, x: Attempt): Verdict {
    if IsLocked(a, x.at) then Locked else if !x.right then Wrong else if !x.active then Inactive else Welcome
  }

  function Next(a: Account, x: Attempt): Account {
    match Judge(a, x)
    case Locked => a
    case Inactive => a
    case Welcome => Account(0, None)
    case Wrong =>
      if a.failed + 1 >= MAX_FAILED_LOGINS then Account(a.failed + 1, Some(x.stamp + LOCKOUT_DURATION))
      else a.(failed := a.failed + 1)
  }

  class User {
    var failedLoginCount: nat
    var lockedUntil: Option<int>

    constructor ()
      ensures State() == Account(0, None)
    {
      failedLoginCount, lockedUntil := 0, None;
    }

    function State(): Account
      reads this
    {
      Account(failedLoginCount, lockedUntil)
    }

    method RecordFailure(stamp: int)
      modifies this
      ensures failedLoginCount == old(failedLoginCount) + 1
      ensures lockedUntil == if failedLoginCount >= MAX_FAILED_LOGINS then Some(stamp + LOCKOUT_DURATION)
              else old(lockedUntil)
    {
      failedLoginCount := failedLoginCount + 1;
      if failedLoginCount >= MAX_FAILED_LOGINS {
        lockedUntil := Some(stamp + LOCKOUT_DURATION);
      }
    }

    method Authenticate(x: Attempt) returns (v: Verdict)
      modifies this
      ensures v == Judge(old(State()), x) && State() == Next(old(State()), x)
      ensures var held := old(lockedUntil).Some? && old(lockedUntil).value > x.at;
              && (v == Welcome <==> !held && x.right && x.active)
              && (v == Inactive <==> !held && x.right && !x.active)
              && (v == Wrong <==> !held && !x.right)
      ensures v == Welcome ==> failedLoginCount == 0 && lockedUntil == None
      ensures v in {Locked, Inactive} ==> failedLoginCount == old(failedLoginCount) && lockedUntil == old(lockedUntil)
    {
      if lockedUntil.Some? && lockedUntil.value > x.at {
        return Locked;
      }
      if !x.right {
        RecordFailure(x.stamp);
        return Wrong;
      }
      if !x.active {
        return Inactive;
      }
      failedLoginCount := 0;
      lockedUntil := None;
      return Welcome;
    }
  }

  /** The four answers, from the lock, the password and the account's standing alone. */
  lemma VerdictIff(a: Account, x: Attempt)
    ensures var held := a.lockedUntil.Some? && a.lockedUntil.value > x.at;
            && (Judge(a, x) == Welcome <==> !held && x.right && x.active)
            && (Judge(a, x) == Inactive <==> !held && x.right && !x.active)
            && (Judge(a, x) == Wrong <==> !held && !x.right)
            && (Judge(a, x) == Locked <==> held)
  {}

  // ----- runs -----

  function After(a: Account, xs: seq<Attempt>): Account {
    if |xs| == 0 then a else Next(After(a, xs[..|xs| - 1]), xs[|xs| - 1])
  }

  /** When the failed password checks of a run happened. */
  function Failures(a: Account, xs: seq<Attempt>): (times: seq<int>)
    ensures |times| <= |xs|
  {
    if |xs| == 0 then [] else
    var front, x := xs[..|xs| - 1], xs[|xs| - 1];
    Failures(a, front) + if Judge(After(a, front), x) == Wrong then [x.at] else []
  }

  predicate NobodyGotIn(a: Account, xs: seq<Attempt>) {
    |xs| == 0 || (NobodyGotIn(a, xs[..|xs| - 1]) && Judge(After(a, xs[..|xs| - 1]), xs[|xs| - 1]) != Welcome)
  }

  predicate Clocked(xs: seq<Attempt>) {
    && (forall i :: 0 <= i < |xs| ==> xs[i].at <= xs[i].stamp)
    && (forall i, j :: 0 <= i < j < |xs| ==> xs[i].at <= xs[j].at)
  }

  lemma {:induction false} FailuresAreAttempts(a: Account, xs: seq<Attempt>)
    requires Clocked(xs) && |xs| > 0
    ensures forall k :: 0 <= k < |Failures(a, xs)| ==> xs[0].at <= Failures(a, xs)[k] <= xs[|xs| - 1].at
  {
    if |xs| > 1 {
      FailuresAreAttempts(a, xs[..|xs| - 1]);
    } else {
      assert xs[..0] == [];
    }
  }

  /** n lockouts end to end. */
  function Lockouts(n: nat): int { if n == 0 then 0 else Lockouts(n - 1) + LOCKOUT_DURATION }

  lemma {:induction false} LockoutsMultiply(n: nat)
    ensures Lockouts(n) == n * LOCKOUT_DURATION
  {
    if n > 0 {
      LockoutsMultiply(n - 1);
      Scaled.Distribute(n, 1, LOCKOUT_DURATION);
    }
  }

  lemma {:induction false} FailuresAddUp(a: Account, xs: seq<Attempt>)
    requires Clocked(xs) && NobodyGotIn(a, xs)
    ensures After(a, xs).failed >= |Failures(a, xs)|
    ensures var times := Failures(a, xs);
            |times| >= MAX_FAILED_LOGINS ==>
              && times[|times| - 1] - times[0] >= Lockouts(|times| - MAX_FAILED_LOGINS)
              && After(a, xs).lockedUntil.Some?
              && After(a, xs).lockedUntil.value >= times[|times| - 1] + LOCKOUT_DURATION
  {
    if |xs| > 0 {
      var front, x := xs[..|xs| - 1], xs[|xs| - 1];
      FailuresAddUp(a, front);
      FailuresAreAttempts(a, xs);
      if |front| > 0 {
        FailuresAreAttempts(a, front);
      }
    }
  }

  /** Whatever the account looked like before: k failed checks with no login between
      them take at least k - 8 lockouts. */
  lemma FailuresTakeTime(a: Account, xs: seq<Attempt>)
    requires Clocked(xs) && NobodyGotIn(a, xs)
    ensures var times := Failures(a, xs);
            |times| >= MAX_FAILED_LOGINS ==>
              times[|times| - 1] - times[0] >= (|times| - MAX_FAILED_LOGINS) * LOCKOUT_DURATION
  {
    FailuresAddUp(a, xs);
    if |Failures(a, xs)| >= MAX_FAILED_LOGINS {
      LockoutsMultiply(|Failures(a, xs)| - MAX_FAILED_LOGINS);
    }
  }

  lemma Fits(n: int, window: nat)
    requires n * LOCKOUT_DURATION <= window
    ensures n <= window / LOCKOUT_DURATION
  {
    var q := window / LOCKOUT_DURATION;
    Scaled.DivMod(window, LOCKOUT_DURATION);
    Scaled.Distribute(q, n, LOCKOUT_DURATION);
    Scaled.NonNegative(q - n, LOCKOUT_DURATION);
  }

  /** So a window of length T sees at most 8 + floor(T / 15 minutes) failed checks. */
  lemma AtMostEightAndOnePerLockout(a: Account, xs: seq<Attempt>, window: nat)
    requires Clocked(xs) && NobodyGotIn(a, xs) && |xs| > 0 && xs[|xs| - 1].at - xs[0].at <= window
    ensures |Failures(a, xs)| <= MAX_FAILED_LOGINS + window / LOCKOUT_DURATION
  {
    FailuresTakeTime(a, xs);
    FailuresAreAttempts(a, xs);
    if |Failures(a, xs)| >= MAX_FAILED_LOGINS {
      Fits(|Failures(a, xs)| - MAX_FAILED_LOGINS, window);
    }
  }

  /** A login forgives: until eight more failures the account is never locked. */
  lemma {:induction false} LoginForgives(a: Account, x: Attempt, xs: seq<Attempt>)
    requires Judge(a, x) == Welcome && NobodyGotIn(Next(a, x), xs) && |Failures(Next(a, x), xs)| < MAX_FAILED_LOGINS
    ensures After(Next(a, x), xs) == Account(|Failures(Next(a, x), xs)|, None)
  {
    if |xs| > 0 {
      LoginForgives(a, x, xs[..|xs| - 1]);
    }
  }

  /** A lock refuses every attempt, right password or not, until it expires, and
      nothing but time lifts it. */
  lemma {:induction false} LockHolds(a: Account, xs: seq<Attempt>)
    requires a.lockedUntil.Some? && forall i :: 0 <= i < |xs| ==> xs[i].at < a.lockedUntil.value
    ensures After(a, xs) == a && Failures(a, xs) == [] && NobodyGotIn(a, xs)
  {
    if |xs| > 0 {
      LockHolds(a, xs[..|xs| - 1]);
    }
  }

  // ----- who gets in -----

  /** A deactivated user never gets in, whatever is sent, and none of it is forgiven: the
      counter never falls, and a lock is never lifted or shortened by one. */
  lemma {:induction false} InactiveNeverGetsIn(a: Account, xs: seq<Attempt>)
    requires Clocked(xs) && forall i :: 0 <= i < |xs| ==> !xs[i].active
    ensures NobodyGotIn(a, xs) && After(a, xs).failed == a.failed + |Failures(a, xs)|
    ensures a.lockedUntil.Some? ==>
              After(a, xs).lockedUntil.Some? && After(a, xs).lockedUntil.value >= a.lockedUntil.value
  {
    if |xs| > 0 {
      InactiveNeverGetsIn(a, xs[..|xs| - 1]);
    }
  }

  /** Every lock set on the way is gone fifteen minutes after the last attempt. */
  lemma {:induction false} LocksExpire(a: Account, xs: seq<Attempt>, now: int)
    requires !IsLocked(a, now) && forall i :: 0 <= i < |xs| ==> xs[i].stamp + LOCKOUT_DURATION <= now
    ensures !IsLocked(After(a, xs), now)
  {
    if |xs| > 0 {
      LocksExpire(a, xs[..|xs| - 1], now);
    }
  }

  /** Whatever came before, fifteen quiet minutes are enough: then an active user with the
      right password gets in, and only such a user does. */
  lemma QuietMinutesAreEnough(a: Account, xs: seq<Attempt>, x: Attempt)
    requires a.lockedUntil.Some? ==> a.lockedUntil.value <= x.at
    requires forall i :: 0 <= i < |xs| ==> xs[i].stamp + LOCKOUT_DURATION <= x.at
    ensures Judge(After(a, xs), x) == Welcome <==> x.right && x.active
    ensures x.right && x.active ==> After(a, xs + [x]) == Account(0, None)
  {
    LocksExpire(a, xs, x.at);
    assert (xs + [x])[..|xs|] == xs;
  }

  // ----- the bound is reached -----

  /** Eight wrong passwords at once, then one the moment each lock expires. */
  function Hammering(k: nat): (xs: seq<Attempt>)
    ensures |xs| == k
  {
    if k == 0 then [] else
    var at := if k <= MAX_FAILED_LOGINS then 0 else Lockouts(k - MAX_FAILED_LOGINS);
    Hammering(k - 1) + [Attempt(at, at, false, true)]
  }

  /** The account after k of them. */
  function Hammered(k: nat): Account {
    Account(k, if k < MAX_FAILED_LOGINS then None else Some(Lockouts(k + 1 - MAX_FAILED_LOGINS)))
  }

  lemma OneMoreHit(k: nat)
    requires k > 0
    ensures var x := Hammering(k)[k - 1];
            Judge(Hammered(k - 1), x) == Wrong && Next(Hammered(k - 1), x) == Hammered(k)
  {
    if k > MAX_FAILED_LOGINS {
      assert Lockouts(k + 1 - MAX_FAILED_LOGINS) == Lockouts(k - MAX_FAILED_LOGINS) + LOCKOUT_DURATION;
    }
  }

  lemma {:induction false} HammeringNeverWaits(k: nat)
    ensures After(Account(0, None), Hammering(k)) == Hammered(k)
    ensures |Failures(Account(0, None), Hammering(k))| == k && NobodyGotIn(Account(0, None), Hammering(k))
  {
    if k > 0 {
      HammeringNeverWaits(k - 1);
      OneMoreHit(k);
      assert Hammering(k)[..k - 1] == Hammering(k - 1);
    }
  }

  lemma {:induction false} HammeringIsClocked(k: nat)
    ensures Clocked(Hammering(k))
    ensures forall i :: 0 <= i < k ==> !Hammering(k)[i].right
    ensures k > 0 ==> Hammering(k)[0].at == 0
                      && Hammering(k)[k - 1].at == if k <= MAX_FAILED_LOGINS then 0 else Lockouts(k - MAX_FAILED_LOGINS)
  {
    if k > 0 {
      HammeringIsClocked(k - 1);
    }
  }

  /** No smaller bound holds: in every window some run of failures fills it. */
  lemma BoundIsReached(window: nat)
    ensures var k := MAX_FAILED_LOGINS + window / LOCKOUT_DURATION;
            var xs := Hammering(k);
            && Clocked(xs) && NobodyGotIn(Account(0, None), xs) && xs[k - 1].at - xs[0].at <= window
            && |Failures(Account(0, None), xs)| == k
  {
    var k := MAX_FAILED_LOGINS + window / LOCKOUT_DURATION;
    HammeringNeverWaits(k);
    HammeringIsClocked(k);
    LockoutsMultiply(window / LOCKOUT_DURATION);
    Scaled.DivMod(window, LOCKOUT_DURATION);
  }
}

/** Brute-force protection of `login`. A lock is lifted lazily, by the first
    attempt after it has run out. */
module LoginLockout {

  import opened Sql

  datatype Account = Account(failed: nat, lockedUntil: Option<int>)

  datatype Limits = Limits(maxAttempts: int, lockout: int)

  const UNLOCKED := Account(0, None)

  /** `NotCompared`: inactive or still locked, whatever the password. */
  datatype Outcome = NotCompared | WrongPassword | LoggedIn

  function AttemptOutcome(a: Account, active: bool, correct: bool, now: int): Outcome {
    if !active || (a.lockedUntil.Some? && a.lockedUntil.value > now) then NotCompared
    else if correct then LoggedIn
    else WrongPassword
  }

  /** `stamp` is the clock when the failure is recorded. */
  function AfterAttempt(a: Account, limits: Limits, active: bool, correct: bool, now: int, stamp: int): Account {
    match AttemptOutcome(a, active, correct, now)
    case NotCompared => a
    case LoggedIn => UNLOCKED
    case WrongPassword =>
      var failed := if a.lockedUntil.Some? then 1 else a.failed + 1;
      Account(failed, if failed >= limits.maxAttempts then Some(stamp + limits.lockout) else None)
  }

  datatype Try = Try(active: bool, correct: bool, now: int, stamp: int)

  function After(a: Account, limits: Limits, tries: seq<Try>): Account
    decreases |tries|
  {
    if tries == [] then a
    else After(AfterAttempt(a, limits, tries[0].active, tries[0].correct, tries[0].now, tries[0].stamp), limits, tries[1..])
  }

  /** How many of the tries were wrong passwords that were compared. */
  function Compared(a: Account, limits: Limits, tries: seq<Try>): nat
    decreases |tries|
  {
    if tries == [] then 0
    else
      var t := tries[0];
      (if AttemptOutcome(a, t.active, t.correct, t.now).WrongPassword? then 1 else 0)
      + Compared(AfterAttempt(a, limits, t.active, t.correct, t.now, t.stamp), limits, tries[1..])
  }

  predicate NobodyLogsIn(a: Account, limits: Limits, tries: seq<Try>)
    decreases |tries|
  {
    tries == [] ||
    var t := tries[0];
    && !AttemptOutcome(a, t.active, t.correct, t.now).LoggedIn?
    && NobodyLogsIn(AfterAttempt(a, limits, t.active, t.correct, t.now, t.stamp), limits, tries[1..])
  }

  /** A single failure locks when the limit is below one. */
  function Limit(limits: Limits): nat {
    if limits.maxAttempts < 1 then 1 else limits.maxAttempts
  }

  ghost predicate Valid(a: Account, limits: Limits) {
    a.lockedUntil.None? ==> a.failed < Limit(limits)
  }

  lemma {:induction false} ValidFromTheStart(limits: Limits, a: Account, tries: seq<Try>)
    requires Valid(a, limits)
    ensures Valid(UNLOCKED, limits) && Valid(After(a, limits, tries), limits)
    decreases |tries|
  {
    if tries != [] {
      ValidFromTheStart(limits, AfterAttempt(a, limits, tries[0].active, tries[0].correct, tries[0].now, tries[0].stamp), tries[1..]);
    }
  }

  /** What can still be compared before `from + lockout`. */
  function Budget(a: Account, limits: Limits, from: int): int {
    if a.lockedUntil.None? then Limit(limits) - a.failed
    else if a.lockedUntil.value >= from + limits.lockout then 0
    else Limit(limits)
  }

  lemma {:induction false} ComparedWithinBudget(a: Account, limits: Limits, from: int, tries: seq<Try>)
    requires Valid(a, limits) && NobodyLogsIn(a, limits, tries)
    requires forall t | t in tries :: from <= t.now <= t.stamp && t.now < from + limits.lockout
    ensures Compared(a, limits, tries) <= Budget(a, limits, from)
    decreases |tries|
  {
    if tries != [] {
      var t := tries[0];
      ComparedWithinBudget(AfterAttempt(a, limits, t.active, t.correct, t.now, t.stamp), limits, from, tries[1..]);
    }
  }

  /** After any history of the account: in any stretch no longer than the lockout
      in which nobody logs in, at most `maxAttempts` wrong passwords are compared
      (one, if the setting is below one). */
  lemma GuessRate(limits: Limits, history: seq<Try>, from: int, tries: seq<Try>)
    requires NobodyLogsIn(After(UNLOCKED, limits, history), limits, tries)
    requires forall t | t in tries :: from <= t.now <= t.stamp && t.now < from + limits.lockout
    ensures Compared(After(UNLOCKED, limits, history), limits, tries) <= Limit(limits)
  {
    ValidFromTheStart(limits, UNLOCKED, history);
    ComparedWithinBudget(After(UNLOCKED, limits, history), limits, from, tries);
  }

  /** What can be compared before the account locks, at a time it is not locked. */
  function Free(a: Account, limits: Limits): int {
    if a.lockedUntil.None? then Limit(limits) - a.failed else Limit(limits)
  }

  /** The bound is met. However the account got here, as long as it is not locked
      now, what is left of the limit is compared, all of it again if a lock has
      run out; then the right password is turned away until exactly the end of
      the lock, and logs in from there on, to a clean slate. */
  lemma {:induction false} LimitIsReached(limits: Limits, a: Account, now: int)
    requires Valid(a, limits) && (a.lockedUntil.None? || a.lockedUntil.value <= now) && limits.lockout > 0
    ensures var tries := seq(Free(a, limits), i => Try(true, false, now, now));
            && Compared(a, limits, tries) == Free(a, limits)
            && After(a, limits, tries).lockedUntil == Some(now + limits.lockout)
            && (forall later :: AttemptOutcome(After(a, limits, tries), true, true, later) ==
                                if later < now + limits.lockout then NotCompared else LoggedIn)
            && (forall later, stamp | later >= now + limits.lockout ::
                  AfterAttempt(After(a, limits, tries), limits, true, true, later, stamp) == Account(0, None))
    decreases Free(a, limits)
  {
    var tries := seq(Free(a, limits), i => Try(true, false, now, now));
    var next := AfterAttempt(a, limits, true, false, now, now);
    if Free(a, limits) > 1 {
      LimitIsReached(limits, next, now);
      assert tries[1..] == seq(Free(next, limits), i => Try(true, false, now, now));
    } else {
      assert tries[1..] == [];
    }
  }

  /** An inactive account never logs in and never changes. */
  lemma {:induction false} InactiveIsUntouched(limits: Limits, a: Account, tries: seq<Try>)
    requires forall t | t in tries :: !t.active
    ensures After(a, limits, tries) == a && NobodyLogsIn(a, limits, tries) && Compared(a, limits, tries) == 0
    decreases |tries|
  {
    if tries != [] {
      assert tries[0] in tries;
      InactiveIsUntouched(limits, a, tries[1..]);
    }
  }
}

/** One delivery channel of one outbox row: the columns the channel owns, the
    claim and completion rules, and the theory of every run of claims, sends,
    completions and crashes on it.

    Times are integers (microseconds). No law below needs the clocks of two
    workers to agree, so an event carries its own `now`. */
module OutboxChannel {

  import opened Sql

  datatype Kind = Telegram | Push

  /** An error text, up to the one thing the protocol asks of it: which of the
      three reserved texts it is, if any. A provider may well answer with a
      reserved text, so a send can be refused with any of these. */
  datatype ErrorText = AwaitingDestination | NoDeviceRegistered | OwnerUnresolved | OtherError(text: string)

  /** The error a channel retries for ever instead of counting it ("Case A"). */
  function WaitingError(kind: Kind): ErrorText {
    match kind
    case Telegram => AwaitingDestination
    case Push => NoDeviceRegistered
  }

  datatype Status = Pending | Processing | Sent | Failed

  datatype Columns = Columns(
    status: Status,
    attemptCount: int,
    claimedAt: Option<int>,
    lastAttemptedAt: Option<int>,
    lastError: Option<ErrorText>,
    sentAt: Option<int>)

  const FRESH := Columns(Pending, 0, None, None, None, None)

  // ---------------------------------------------------------------- rules

  /** The `WHERE` clause of the claim query. */
  function Due(kind: Kind, c: Columns, now: int, lease: int, retry: int): Truth {
    Or(And(Of(c.status == Pending),
           Or(Or(NotEqual(c.lastError, WaitingError(kind)), IsNull(c.lastAttemptedAt)),
              AtMost(c.lastAttemptedAt, now - retry))),
       And(Of(c.status == Processing), Below(c.claimedAt, now - lease)))
  }

  predicate Eligible(kind: Kind, c: Columns, now: int, lease: int, retry: int) {
    Due(kind, c, now, lease, retry) == Yes
  }

  /** What claiming writes. */
  function Claimed(c: Columns, now: int): Columns {
    c.(status := Processing, claimedAt := Some(now), attemptCount := c.attemptCount + 1)
  }

  /** What completing writes. Nothing here looks at the old status or lease. */
  function Completed(kind: Kind, c: Columns, now: int, success: bool, error: Option<ErrorText>, maxAttempts: int): Columns {
    var d := c.(lastAttemptedAt := Some(now));
    if success then
      d.(status := Sent, sentAt := Some(now), lastError := None)
    else if error == Some(WaitingError(kind)) then
      d.(attemptCount := if c.attemptCount - 1 > 0 then c.attemptCount - 1 else 0,
         lastError := error, status := Pending)
    else
      d.(lastError := error, status := if c.attemptCount >= maxAttempts then Failed else Pending)
  }

  // ------------------------------------------------------------ histories

  /** What a worker's send came to: nothing yet, the provider took the message,
      or there was an error (a provider failure, or no destination). */
  datatype Outcome = Unsent | Accepted | Refused(error: ErrorText) {
    predicate Waiting(kind: Kind) {
      this == Refused(WaitingError(kind))
    }
  }

  /** `Held`: the claiming worker may still act on it. `Finished`: its outcome
      was recorded; `late` if the row had been reclaimed before that.
      `Abandoned`: the worker died without recording anything. */
  datatype Fate = Held | Finished(late: bool) | Abandoned

  datatype Attempt = Attempt(at: int, outcome: Outcome, fate: Fate)

  /** A channel together with the log of all its claims. */
  datatype History = History(columns: Columns, attempts: seq<Attempt>)

  const NEW := History(FRESH, [])

  datatype Event =
    | Claim(now: int, lease: int, retry: int)
    | Deliver(i: nat, outcome: Outcome)
    | Complete(i: nat, now: int, maxAttempts: int)
    | Crash(i: nat)

  predicate Enabled(kind: Kind, h: History, e: Event) {
    match e
    case Claim(now, lease, retry) => Eligible(kind, h.columns, now, lease, retry)
    case Deliver(i, _) => i < |h.attempts| && h.attempts[i].fate == Held && h.attempts[i].outcome.Unsent? && !e.outcome.Unsent?
    case Complete(i, _, _) => i < |h.attempts| && h.attempts[i].fate == Held && !h.attempts[i].outcome.Unsent?
    case Crash(i) => i < |h.attempts| && h.attempts[i].fate == Held
  }

  /** The log once claim `i` is recorded as completed. */
  function Finish(log: seq<Attempt>, i: nat): seq<Attempt>
    requires i < |log|
  {
    log[i := log[i].(fate := Finished(i < |log| - 1))]
  }

  function Apply(kind: Kind, h: History, e: Event): History {
    match e
    case Claim(now, _, _) =>
      History(Claimed(h.columns, now), h.attempts + [Attempt(now, Unsent, Held)])
    case Deliver(i, outcome) =>
      if i < |h.attempts| then h.(attempts := h.attempts[i := h.attempts[i].(outcome := outcome)]) else h
    case Complete(i, now, maxAttempts) =>
      if i < |h.attempts| then
        var outcome := h.attempts[i].outcome;
        History(
          Completed(kind, h.columns, now, outcome.Accepted?,
                    if outcome.Refused? then Some(outcome.error) else None, maxAttempts),
          Finish(h.attempts, i))
      else h
    case Crash(i) =>
      if i < |h.attempts| then h.(attempts := h.attempts[i := h.attempts[i].(fate := Abandoned)]) else h
  }

  function Replay(kind: Kind, run: seq<Event>): History {
    if run == [] then NEW else Apply(kind, Replay(kind, run[..|run| - 1]), run[|run| - 1])
  }

  ghost predicate Legal(kind: Kind, run: seq<Event>) {
    run == [] ||
    (Legal(kind, run[..|run| - 1]) && Enabled(kind, Replay(kind, run[..|run| - 1]), run[|run| - 1]))
  }

  // ------------------------------------------------------- what we count

  /** Claims whose send the provider took. */
  ghost function AcceptedSends(log: seq<Attempt>): set<int> {
    set i | 0 <= i < |log| && log[i].outcome.Accepted?
  }

  /** The claim was abandoned, or the row was reclaimed before it completed. */
  ghost predicate Lost(log: seq<Attempt>, i: int)
    requires 0 <= i < |log|
  {
    var fate := log[i].fate;
    fate == Abandoned || fate == Finished(true) || (fate == Held && i < |log| - 1)
  }

  ghost function LostClaims(log: seq<Attempt>): set<int> {
    set i | 0 <= i < |log| && Lost(log, i)
  }

  predicate Refunded(kind: Kind, a: Attempt) {
    a.fate.Finished? && a.outcome.Waiting(kind)
  }

  /** Completions that recorded the waiting error. */
  ghost function WaitingCompletions(kind: Kind, log: seq<Attempt>): set<int> {
    set i | 0 <= i < |log| && Refunded(kind, log[i])
  }

  ghost function PromptAccepted(log: seq<Attempt>): set<int> {
    set i | 0 <= i < |log| && log[i].fate == Finished(false) && log[i].outcome.Accepted?
  }

  ghost function LateRefused(log: seq<Attempt>): set<int> {
    set i | 0 <= i < |log| && log[i].fate == Finished(true) && !log[i].outcome.Accepted?
  }

  ghost predicate LastHeld(log: seq<Attempt>) {
    |log| > 0 && log[|log| - 1].fate == Held
  }

  // ------------------------------------------------------------ invariant

  /** Columns and claim log agree in every reachable state. */
  ghost predicate Consistent(kind: Kind, h: History) {
    var c := h.columns;
    && (forall i | 0 <= i < |h.attempts| :: h.attempts[i].fate.Finished? ==> !h.attempts[i].outcome.Unsent?)
    && (c.lastAttemptedAt.None? ==> c.status == Processing || (c.status == Pending && h.attempts == []))
    && (c.lastAttemptedAt.Some? && c.status != Sent ==> c.lastError.Some?)
    && (c.status == Processing ==>
          |h.attempts| > 0
          && c.claimedAt == Some(h.attempts[|h.attempts| - 1].at)
          && !h.attempts[|h.attempts| - 1].fate.Finished?)
    && (c.status == Failed ==> c.lastError != Some(WaitingError(kind)))
    && (c.status == Sent ==> AcceptedSends(h.attempts) != {})
  }

  /** Every reopening of a sent row is paid for by a late refusal. */
  ghost predicate SendsBalanced(h: History) {
    && |PromptAccepted(h.attempts)| <= |LateRefused(h.attempts)| + 1
    && (h.columns.status != Sent || LastHeld(h.attempts) ==> |PromptAccepted(h.attempts)| <= |LateRefused(h.attempts)|)
  }

  ghost predicate CountExact(kind: Kind, h: History) {
    h.columns.attemptCount == |h.attempts| - |WaitingCompletions(kind, h.attempts)|
  }

  ghost predicate Inv(kind: Kind, h: History) {
    Consistent(kind, h) && SendsBalanced(h) && CountExact(kind, h)
  }

  lemma ConsistentStep(kind: Kind, h: History, e: Event)
    requires Consistent(kind, h) && Enabled(kind, h, e)
    ensures Consistent(kind, Apply(kind, h, e))
  {
    var g := Apply(kind, h, e);
    if g.columns.status == Sent {
      match e
      case Complete(i, _, _) =>
        if h.attempts[i].outcome.Accepted? {
          assert i in AcceptedSends(g.attempts);
        }
      case Deliver(i, _) =>
        var j :| j in AcceptedSends(h.attempts);
        assert j in AcceptedSends(g.attempts);
      case Crash(i) =>
        var j :| j in AcceptedSends(h.attempts);
        assert j in AcceptedSends(g.attempts);
      case Claim(_, _, _) =>
    }
  }

  lemma PromptAcceptedAfter(log: seq<Attempt>, i: nat)
    requires i < |log| && log[i].fate == Held
    ensures |PromptAccepted(Finish(log, i))| ==
            |PromptAccepted(log)| + if i == |log| - 1 && log[i].outcome.Accepted? then 1 else 0
  {
    if i == |log| - 1 && log[i].outcome.Accepted? {
      assert PromptAccepted(Finish(log, i)) == PromptAccepted(log) + {i as int};
    } else {
      assert PromptAccepted(Finish(log, i)) == PromptAccepted(log);
    }
  }

  lemma LateRefusedAfter(log: seq<Attempt>, i: nat)
    requires i < |log| && log[i].fate == Held
    ensures |LateRefused(Finish(log, i))| ==
            |LateRefused(log)| + if i < |log| - 1 && !log[i].outcome.Accepted? then 1 else 0
  {
    if i < |log| - 1 && !log[i].outcome.Accepted? {
      assert LateRefused(Finish(log, i)) == LateRefused(log) + {i as int};
    } else {
      assert LateRefused(Finish(log, i)) == LateRefused(log);
    }
  }

  lemma BalancedStep(kind: Kind, h: History, e: Event)
    requires Consistent(kind, h) && SendsBalanced(h) && Enabled(kind, h, e)
    ensures SendsBalanced(Apply(kind, h, e))
  {
    if e.Complete? {
      PromptAcceptedAfter(h.attempts, e.i);
      LateRefusedAfter(h.attempts, e.i);
    } else {
      var g := Apply(kind, h, e);
      assert PromptAccepted(g.attempts) == PromptAccepted(h.attempts);
      assert LateRefused(g.attempts) == LateRefused(h.attempts);
    }
  }

  /** A claim that can still complete has been counted and not refunded. */
  lemma CompletingClaimIsCounted(kind: Kind, h: History, i: nat)
    requires CountExact(kind, h)
    requires i < |h.attempts| && h.attempts[i].fate == Held
    ensures h.columns.attemptCount >= 1
  {
    var w := WaitingCompletions(kind, h.attempts);
    SubsetCount(w + {i as int}, Indices(|h.attempts|));
    assert |w + {i as int}| == |w| + 1;
  }

  lemma WaitingAfterFinish(kind: Kind, log: seq<Attempt>, i: nat)
    requires i < |log| && log[i].fate == Held
    ensures |WaitingCompletions(kind, Finish(log, i))| ==
            |WaitingCompletions(kind, log)| + if log[i].outcome.Waiting(kind) then 1 else 0
  {
    var was, will := WaitingCompletions(kind, log), WaitingCompletions(kind, Finish(log, i));
    var added := if log[i].outcome.Waiting(kind) then {i as int} else {};
    assert forall j :: j in will <==> j in was || j in added;
    assert will == was + added;
  }

  lemma CountStep(kind: Kind, h: History, e: Event)
    requires CountExact(kind, h) && Enabled(kind, h, e)
    ensures CountExact(kind, Apply(kind, h, e))
  {
    if e.Complete? {
      CompletingClaimIsCounted(kind, h, e.i);
      WaitingAfterFinish(kind, h.attempts, e.i);
    } else {
      assert WaitingCompletions(kind, Apply(kind, h, e).attempts) == WaitingCompletions(kind, h.attempts);
    }
  }

  lemma InvStep(kind: Kind, h: History, e: Event)
    requires Inv(kind, h) && Enabled(kind, h, e)
    ensures Inv(kind, Apply(kind, h, e))
  {
    ConsistentStep(kind, h, e);
    BalancedStep(kind, h, e);
    CountStep(kind, h, e);
  }

  lemma {:induction false} LegalRunsKeepInv(kind: Kind, run: seq<Event>)
    requires Legal(kind, run)
    ensures Inv(kind, Replay(kind, run))
  {
    if run == [] {
      assert PromptAccepted(NEW.attempts) == LateRefused(NEW.attempts) == WaitingCompletions(kind, NEW.attempts) == {};
    } else {
      LegalRunsKeepInv(kind, run[..|run| - 1]);
      InvStep(kind, Replay(kind, run[..|run| - 1]), run[|run| - 1]);
    }
  }

  // ------------------------------------------------------ how many sends

  lemma SendsBoundedByLoss(kind: Kind, h: History)
    requires Inv(kind, h)
    ensures |AcceptedSends(h.attempts)| <= 1 + |LostClaims(h.attempts)|
    ensures h.columns.status == Sent ==> |AcceptedSends(h.attempts)| >= 1
  {
    var lostAccepted := set i | i in AcceptedSends(h.attempts) && Lost(h.attempts, i);
    var tail := if LastHeld(h.attempts) then {|h.attempts| - 1} else {};
    SubsetCount(AcceptedSends(h.attempts), PromptAccepted(h.attempts) + lostAccepted + tail);
    assert LateRefused(h.attempts) !! lostAccepted;
    SubsetCount(LateRefused(h.attempts) + lostAccepted, LostClaims(h.attempts));
    assert |LateRefused(h.attempts) + lostAccepted| == |LateRefused(h.attempts)| + |lostAccepted|;
  }

  /** At-least-once delivery, with its exact price. */
  lemma AcceptedSendsBounded(kind: Kind, run: seq<Event>)
    requires Legal(kind, run)
    ensures var h := Replay(kind, run);
            && |AcceptedSends(h.attempts)| <= 1 + |LostClaims(h.attempts)|
            && (h.columns.status == Sent ==> |AcceptedSends(h.attempts)| >= 1)
            && (h.columns.status == Sent && LostClaims(h.attempts) == {} ==> |AcceptedSends(h.attempts)| == 1)
  {
    LegalRunsKeepInv(kind, run);
    SendsBoundedByLoss(kind, Replay(kind, run));
  }

  // -------------------------------------------------- attempts and limits

  lemma AttemptCountExact(kind: Kind, run: seq<Event>)
    requires Legal(kind, run)
    ensures var h := Replay(kind, run);
            && h.columns.attemptCount == |h.attempts| - |WaitingCompletions(kind, h.attempts)|
            && (forall i: nat, now: int, max: int | Enabled(kind, h, Complete(i, now, max)) :: h.columns.attemptCount >= 1)
  {
    LegalRunsKeepInv(kind, run);
    var h := Replay(kind, run);
    forall i: nat, now: int, max: int | Enabled(kind, h, Complete(i, now, max))
      ensures h.columns.attemptCount >= 1
    {
      CompletingClaimIsCounted(kind, h, i);
    }
  }

  /** Every completion of the run used the same limit. */
  ghost predicate UniformLimit(run: seq<Event>, max: int) {
    forall k | 0 <= k < |run| :: run[k].Complete? ==> run[k].maxAttempts == max
  }

  ghost predicate Limited(h: History, max: int) {
    var c, lost := h.columns, |LostClaims(h.attempts)|;
    && c.attemptCount <= max + lost
    && (c.status == Pending ==> c.attemptCount < max + lost)
    && (c.status == Processing && !LastHeld(h.attempts) ==> c.attemptCount < max + lost)
    && (c.status == Failed ==> c.attemptCount >= max)
  }

  lemma LostAfterClaim(log: seq<Attempt>, a: Attempt)
    requires a.fate == Held
    ensures |LostClaims(log + [a])| == |LostClaims(log)| + if LastHeld(log) then 1 else 0
  {
    if LastHeld(log) {
      assert LostClaims(log + [a]) == LostClaims(log) + {|log| - 1};
    } else {
      assert LostClaims(log + [a]) == LostClaims(log);
    }
  }

  lemma LostAfterFinish(log: seq<Attempt>, i: nat)
    requires i < |log| && log[i].fate == Held
    ensures LostClaims(Finish(log, i)) == LostClaims(log)
  {
  }

  lemma LostAfterCrash(log: seq<Attempt>, i: nat)
    requires i < |log| && log[i].fate == Held
    ensures |LostClaims(log[i := log[i].(fate := Abandoned)])| == |LostClaims(log)| + if i == |log| - 1 then 1 else 0
  {
    var after := log[i := log[i].(fate := Abandoned)];
    if i == |log| - 1 {
      assert LostClaims(after) == LostClaims(log) + {i as int};
    } else {
      assert LostClaims(after) == LostClaims(log);
    }
  }

  lemma LossStep(kind: Kind, h: History, e: Event)
    requires Enabled(kind, h, e)
    ensures |LostClaims(Apply(kind, h, e).attempts)| ==
            |LostClaims(h.attempts)| +
            if (e.Claim? && LastHeld(h.attempts)) || (e.Crash? && e.i == |h.attempts| - 1) then 1 else 0
  {
    match e
    case Claim(now, _, _) => LostAfterClaim(h.attempts, Attempt(now, Unsent, Held));
    case Deliver(_, _) => assert LostClaims(Apply(kind, h, e).attempts) == LostClaims(h.attempts);
    case Complete(i, _, _) => LostAfterFinish(h.attempts, i);
    case Crash(i) => LostAfterCrash(h.attempts, i);
  }

  lemma LimitedStep(kind: Kind, h: History, e: Event, max: int)
    requires max >= 1 && Inv(kind, h) && Limited(h, max) && Enabled(kind, h, e)
    requires e.Complete? ==> e.maxAttempts == max
    ensures Limited(Apply(kind, h, e), max)
  {
    LossStep(kind, h, e);
    if e.Complete? {
      CompletingClaimIsCounted(kind, h, e.i);
    }
  }

  lemma {:induction false} LegalRunsStayLimited(kind: Kind, run: seq<Event>, max: int)
    requires max >= 1 && Legal(kind, run) && UniformLimit(run, max)
    ensures Limited(Replay(kind, run), max)
  {
    if run == [] {
      assert LostClaims(NEW.attempts) == {};
    } else {
      var before := run[..|run| - 1];
      LegalRunsStayLimited(kind, before, max);
      LegalRunsKeepInv(kind, before);
      LimitedStep(kind, Replay(kind, before), run[|run| - 1], max);
    }
  }

  /** Each lost claim buys one attempt beyond the limit; with none lost the
      limit is exact, and a row never fails for want of a destination. */
  lemma AttemptLimit(kind: Kind, run: seq<Event>, max: int)
    requires max >= 1 && Legal(kind, run) && UniformLimit(run, max)
    ensures var h := Replay(kind, run);
            var c := h.columns;
            && c.attemptCount <= max + |LostClaims(h.attempts)|
            && (c.status == Pending ==> c.attemptCount < max + |LostClaims(h.attempts)|)
            && (c.status == Failed ==> max <= c.attemptCount && c.lastError != Some(WaitingError(kind)))
            && (LostClaims(h.attempts) == {} ==>
                  && (c.status == Pending ==> c.attemptCount < max)
                  && (c.status == Failed ==> c.attemptCount == max))
  {
    LegalRunsKeepInv(kind, run);
    LegalRunsStayLimited(kind, run, max);
  }

  lemma ReplayAppend(kind: Kind, run: seq<Event>, e: Event)
    ensures Replay(kind, run + [e]) == Apply(kind, Replay(kind, run), e)
    ensures Legal(kind, run + [e]) <==> Legal(kind, run) && Enabled(kind, Replay(kind, run), e)
  {
    assert (run + [e])[..|run|] == run;
  }

  lemma {:induction false} PrefixIsLegal(kind: Kind, run: seq<Event>, n: nat)
    requires Legal(kind, run) && n <= |run|
    ensures Legal(kind, run[..n])
  {
    if n < |run| {
      PrefixIsLegal(kind, run[..|run| - 1], n);
      assert run[..|run| - 1][..n] == run[..n];
    } else {
      assert run[..n] == run;
    }
  }

  ghost predicate NeverCompletes(run: seq<Event>) {
    forall k | 0 <= k < |run| :: !run[k].Complete?
  }

  lemma Start(kind: Kind)
    ensures Legal(kind, []) && Replay(kind, []) == NEW
  {
  }

  /** One more step of a run, as a run of its own. */
  lemma Extend(kind: Kind, run: seq<Event>, e: Event) returns (longer: seq<Event>)
    requires Legal(kind, run) && Enabled(kind, Replay(kind, run), e)
    ensures run < longer && Legal(kind, longer)
    ensures NeverCompletes(run) && !e.Complete? ==> NeverCompletes(longer)
    ensures Replay(kind, longer) == Apply(kind, Replay(kind, run), e)
  {
    longer := run + [e];
    ReplayAppend(kind, run, e);
  }

  /** A worker claims the row, sends it and dies. */
  lemma DieAfterSending(kind: Kind, run: seq<Event>, now: int) returns (longer: seq<Event>)
    requires Legal(kind, run) && NeverCompletes(run)
    requires Enabled(kind, Replay(kind, run), Claim(now, 1, 0))
    ensures Legal(kind, longer) && NeverCompletes(longer)
    ensures var h := Replay(kind, run);
            Replay(kind, longer) == History(Claimed(h.columns, now), h.attempts + [Attempt(now, Accepted, Abandoned)])
  {
    var h := Replay(kind, run);
    var claimed := Extend(kind, run, Claim(now, 1, 0));
    var sent := Extend(kind, claimed, Deliver(|h.attempts|, Accepted));
    longer := Extend(kind, sent, Crash(|h.attempts|));
    assert Replay(kind, longer).attempts == h.attempts + [Attempt(now, Accepted, Abandoned)];
  }

  /** Claiming never looks at the limit: a row whose claimant always dies is
      claimed for ever. After `n` crashes its count is `n`, whatever the limit,
      and it may have been sent `n` times. */
  lemma {:induction false} PoisonPillIsClaimedForEver(kind: Kind, n: nat) returns (run: seq<Event>)
    ensures Legal(kind, run) && NeverCompletes(run)
    ensures var h := Replay(kind, run);
            && h.columns.attemptCount == n == |h.attempts|
            && (forall i | 0 <= i < n :: h.attempts[i].fate == Abandoned && h.attempts[i].outcome == Accepted)
            && (if n == 0 then h == NEW else h.columns.status == Processing && h.columns.claimedAt == Some(2 * n))
  {
    run := [];
    if n > 0 {
      run := PoisonPillIsClaimedForEver(kind, n - 1);
      run := DieAfterSending(kind, run, 2 * n);
    }
  }

  /** The bound on sends is reached: `n` workers that die just after sending,
      then one that completes, send `n + 1` times. */
  lemma SendBoundIsTight(kind: Kind, n: nat) returns (run: seq<Event>)
    ensures Legal(kind, run)
    ensures var h := Replay(kind, run);
            h.columns.status == Sent && |LostClaims(h.attempts)| == n && |AcceptedSends(h.attempts)| == n + 1
  {
    var crashes := PoisonPillIsClaimedForEver(kind, n);
    run := DeliverOnce(kind, crashes, 2 * n + 2);
    LossOfCrashes(Replay(kind, crashes).attempts, Attempt(2 * n + 2, Accepted, Finished(false)));
  }

  /** A worker claims the row, sends it and records that. */
  lemma DeliverOnce(kind: Kind, run: seq<Event>, now: int) returns (longer: seq<Event>)
    requires Legal(kind, run) && Enabled(kind, Replay(kind, run), Claim(now, 1, 0))
    ensures run < longer && Legal(kind, longer)
    ensures var h, g := Replay(kind, run), Replay(kind, longer);
            g.columns.status == Sent && g.attempts == h.attempts + [Attempt(now, Accepted, Finished(false))]
  {
    var h := Replay(kind, run);
    var claimed := Extend(kind, run, Claim(now, 1, 0));
    var sent := Extend(kind, claimed, Deliver(|h.attempts|, Accepted));
    assert Replay(kind, sent).attempts == h.attempts + [Attempt(now, Accepted, Held)];
    longer := Extend(kind, sent, Complete(|h.attempts|, now + 1, 1));
  }

  lemma LossOfCrashes(log: seq<Attempt>, last: Attempt)
    requires forall i | 0 <= i < |log| :: log[i].fate == Abandoned && log[i].outcome == Accepted
    requires last.fate == Finished(false) && last.outcome == Accepted
    ensures |LostClaims(log + [last])| == |log| && |AcceptedSends(log + [last])| == |log| + 1
  {
    assert LostClaims(log + [last]) == Indices(|log|);
    assert AcceptedSends(log + [last]) == Indices(|log| + 1);
  }

  /** One more step under one limit, and what it loses. */
  lemma ExtendLimited(kind: Kind, run: seq<Event>, e: Event, max: int) returns (longer: seq<Event>)
    requires Legal(kind, run) && Enabled(kind, Replay(kind, run), e)
    requires UniformLimit(run, max) && (e.Complete? ==> e.maxAttempts == max)
    ensures Legal(kind, longer) && UniformLimit(longer, max) && Replay(kind, longer) == Apply(kind, Replay(kind, run), e)
    ensures var h := Replay(kind, run);
            |LostClaims(Replay(kind, longer).attempts)| ==
            |LostClaims(h.attempts)| + if (e.Claim? && LastHeld(h.attempts)) || (e.Crash? && e.i == |h.attempts| - 1) then 1 else 0
  {
    longer := run + [e];
    ReplayAppend(kind, run, e);
    LossStep(kind, Replay(kind, run), e);
  }

  /** A worker claims the row and dies. */
  lemma Die(kind: Kind, run: seq<Event>, now: int, max: int) returns (longer: seq<Event>)
    requires Legal(kind, run) && UniformLimit(run, max) && !LastHeld(Replay(kind, run).attempts)
    requires Enabled(kind, Replay(kind, run), Claim(now, 1, 0))
    ensures Legal(kind, longer) && UniformLimit(longer, max) && !LastHeld(Replay(kind, longer).attempts)
    ensures Replay(kind, longer).columns == Claimed(Replay(kind, run).columns, now)
    ensures |LostClaims(Replay(kind, longer).attempts)| == |LostClaims(Replay(kind, run).attempts)| + 1
  {
    hide Legal, Replay, UniformLimit, LostClaims, Lost, Due;
    var i := |Replay(kind, run).attempts|;
    longer := ExtendLimited(kind, run, Claim(now, 1, 0), max);
    longer := ExtendLimited(kind, longer, Crash(i), max);
  }

  /** A worker claims the row and records that the provider refused it. */
  lemma Refuse(kind: Kind, run: seq<Event>, now: int, max: int) returns (longer: seq<Event>)
    requires Legal(kind, run) && UniformLimit(run, max) && !LastHeld(Replay(kind, run).attempts)
    requires Enabled(kind, Replay(kind, run), Claim(now, 1, 0))
    ensures Legal(kind, longer) && UniformLimit(longer, max) && !LastHeld(Replay(kind, longer).attempts)
    ensures var c := Claimed(Replay(kind, run).columns, now);
            Replay(kind, longer).columns == Completed(kind, c, now, false, Some(OtherError("")), max)
    ensures |LostClaims(Replay(kind, longer).attempts)| == |LostClaims(Replay(kind, run).attempts)|
  {
    hide Legal, Replay, UniformLimit, LostClaims, Lost, Due, Completed;
    var i := |Replay(kind, run).attempts|;
    longer := ExtendLimited(kind, run, Claim(now, 1, 0), max);
    longer := ExtendLimited(kind, longer, Deliver(i, Refused(OtherError(""))), max);
    longer := ExtendLimited(kind, longer, Complete(i, now, max), max);
  }

  /** The attempt limit is tight: for every limit and every `n` some run loses
      `n` claims and fails only at attempt `max + n`. */
  lemma AttemptLimitIsReached(kind: Kind, max: nat, n: nat) returns (run: seq<Event>)
    requires max >= 1
    ensures Legal(kind, run) && UniformLimit(run, max)
    ensures var h := Replay(kind, run);
            h.columns.status == Failed && |LostClaims(h.attempts)| == n && h.columns.attemptCount == max + n
  {
    var crashed := RefuseAndDie(kind, max, n);
    run := Refuse(kind, crashed, 2 * n + 2, max);
  }

  /** One refusal short of the limit, and then `n` dead workers. */
  lemma {:induction false} RefuseAndDie(kind: Kind, max: nat, n: nat) returns (run: seq<Event>)
    requires max >= 1
    ensures Legal(kind, run) && UniformLimit(run, max) && !LastHeld(Replay(kind, run).attempts)
    ensures var h := Replay(kind, run);
            && |LostClaims(h.attempts)| == n && h.columns.attemptCount == max - 1 + n
            && Enabled(kind, h, Claim(2 * n + 2, 1, 0))
            && (n > 0 ==> h.columns.status == Processing && h.columns.claimedAt == Some(2 * n))
  {
    if n == 0 {
      run := RefuseBelow(kind, max, max - 1);
    } else {
      run := RefuseAndDie(kind, max, n - 1);
      run := Die(kind, run, 2 * n, max);
    }
  }

  lemma {:induction false} RefuseBelow(kind: Kind, max: nat, n: nat) returns (run: seq<Event>)
    requires n < max
    ensures Legal(kind, run) && UniformLimit(run, max) && !LastHeld(Replay(kind, run).attempts)
    ensures var h := Replay(kind, run);
            && LostClaims(h.attempts) == {} && h.columns.attemptCount == n
            && forall now :: Enabled(kind, h, Claim(now, 1, 0))
  {
    if n == 0 {
      run := [];
      assert LostClaims(NEW.attempts) == {};
    } else {
      run := RefuseBelow(kind, max, n - 1);
      run := Refuse(kind, run, 0, max);
    }
  }

  // ------------------------------------------------- who writes the outcome

  /** No completion of the log came after its row had been reclaimed. */
  ghost predicate Prompt(h: History) {
    forall i | 0 <= i < |h.attempts| :: h.attempts[i].fate != Finished(true)
  }

  /** The columns say exactly what became of the last claim. */
  ghost predicate TellsLastClaim(kind: Kind, h: History) {
    var c := h.columns;
    if h.attempts == [] then c == FRESH
    else
      var last := h.attempts[|h.attempts| - 1];
      match last.fate
      case Held => c.status == Processing && c.claimedAt == Some(last.at)
      case Abandoned => c.status == Processing && c.claimedAt == Some(last.at)
      case Finished(_) =>
        match last.outcome
        case Unsent => false
        case Accepted => c.status == Sent && c.lastError == None && c.sentAt.Some?
        case Refused(error) =>
          && c.lastError == Some(error)
          && (c.status == Pending || (c.status == Failed && error != WaitingError(kind)))
  }

  lemma PromptStep(kind: Kind, h: History, e: Event)
    requires Enabled(kind, h, e) && Prompt(Apply(kind, h, e))
    ensures Prompt(h)
    ensures e.Complete? ==> e.i == |h.attempts| - 1
    ensures TellsLastClaim(kind, h) ==> TellsLastClaim(kind, Apply(kind, h, e))
  {
    var g := Apply(kind, h, e);
    forall i | 0 <= i < |h.attempts|
      ensures h.attempts[i].fate != Finished(true)
    {
      assert g.attempts[i].fate != Finished(true);
      assert e.Complete? && e.i == i ==> h.attempts[i].fate == Held;
      assert e.Crash? && e.i == i ==> h.attempts[i].fate == Held;
    }
    if e.Complete? {
      assert g.attempts[e.i].fate != Finished(true);
    }
  }

  lemma {:induction false} CompletionsRecordTheHolder(kind: Kind, run: seq<Event>)
    requires Legal(kind, run) && Prompt(Replay(kind, run))
    ensures TellsLastClaim(kind, Replay(kind, run))
  {
    if run != [] {
      PromptStep(kind, Replay(kind, run[..|run| - 1]), run[|run| - 1]);
      CompletionsRecordTheHolder(kind, run[..|run| - 1]);
    }
  }

  predicate Terminal(s: Status) {
    s == Sent || s == Failed
  }

  /** With no late completion, a sent or failed row never changes again. */
  lemma {:induction false} TerminalIsAbsorbing(kind: Kind, run: seq<Event>, more: seq<Event>)
    requires Legal(kind, run + more) && Prompt(Replay(kind, run + more))
    requires Terminal(Replay(kind, run).columns.status)
    ensures Replay(kind, run + more).columns == Replay(kind, run).columns
  {
    if more == [] {
      assert run + more == run;
    } else {
      var before, e := more[..|more| - 1], more[|more| - 1];
      assert run + more == run + before + [e];
      ReplayAppend(kind, run + before, e);
      PromptStep(kind, Replay(kind, run + before), e);
      TerminalIsAbsorbing(kind, run, before);
      CompletionsRecordTheHolder(kind, run + before);
    }
  }

  /** Without that hypothesis: exactly which step takes a row out of `Sent`. */
  lemma LeavesSentIff(kind: Kind, run: seq<Event>, e: Event)
    requires Legal(kind, run) && Enabled(kind, Replay(kind, run), e)
    requires Replay(kind, run).columns.status == Sent
    ensures var h := Replay(kind, run);
            Apply(kind, h, e).columns.status != Sent <==> e.Complete? && !h.attempts[e.i].outcome.Accepted?
  {
    LegalRunsKeepInv(kind, run);
  }

  /** And which take one out of `Failed`: a late completion does unless it too
      is a refusal that counts, under a limit the count has reached. */
  lemma LeavesFailedIff(kind: Kind, run: seq<Event>, e: Event)
    requires Legal(kind, run) && Enabled(kind, Replay(kind, run), e)
    requires Replay(kind, run).columns.status == Failed
    ensures var h := Replay(kind, run);
            Apply(kind, h, e).columns.status != Failed
            <==> e.Complete? && (h.attempts[e.i].outcome.Accepted? || h.attempts[e.i].outcome.Waiting(kind)
                                 || h.columns.attemptCount < e.maxAttempts)
  {
    LegalRunsKeepInv(kind, run);
  }

  /** Such steps exist: a failed row turns up sent, or goes back to waiting,
      once the worker that overran its lease reports. */
  lemma LateReportRevivesFailedRow(kind: Kind, outcome: Outcome) returns (failed: seq<Event>, run: seq<Event>)
    requires outcome.Accepted? || outcome.Waiting(kind)
    ensures failed < run && Legal(kind, failed) && Legal(kind, run)
    ensures Replay(kind, failed).columns.status == Failed
    ensures Replay(kind, run).columns.status == if outcome.Accepted? then Sent else Pending
  {
    hide Legal, Replay;
    Start(kind);
    failed := Extend(kind, [], Claim(0, 5, 0));
    failed := Extend(kind, failed, Deliver(0, outcome));
    failed := Extend(kind, failed, Claim(10, 5, 0));
    failed := Extend(kind, failed, Deliver(1, Refused(OtherError(""))));
    failed := Extend(kind, failed, Complete(1, 11, 2));
    run := Extend(kind, failed, Complete(0, 12, 2));
  }

  /** Such a step exists: a worker that overran its lease reopens a row that
      its successor delivered, and the row is delivered again. */
  lemma LateRefusalReopensSentRow(kind: Kind) returns (sent: seq<Event>, run: seq<Event>)
    ensures sent < run && Legal(kind, sent) && Legal(kind, run)
    ensures Replay(kind, sent).columns.status == Replay(kind, run).columns.status == Sent
    ensures |AcceptedSends(Replay(kind, sent).attempts)| == 1 && |AcceptedSends(Replay(kind, run).attempts)| == 2
  {
    sent := OverrunLease(kind);
    run := Extend(kind, sent, Complete(0, 12, 10));
    run := DeliverOnce(kind, run, 13);
    assert AcceptedSends(Replay(kind, sent).attempts) == {1};
    assert AcceptedSends(Replay(kind, run).attempts) == {1, 2};
  }

  lemma OverrunLease(kind: Kind) returns (run: seq<Event>)
    ensures Legal(kind, run)
    ensures var h := Replay(kind, run);
            && h.columns.status == Sent && h.columns.attemptCount == 2
            && h.attempts == [Attempt(0, Refused(OtherError("timeout")), Held), Attempt(10, Accepted, Finished(false))]
  {
    run := Extend(kind, [], Claim(0, 5, 0));
    run := Extend(kind, run, Deliver(0, Refused(OtherError("timeout"))));
    assert Replay(kind, run).attempts == [Attempt(0, Refused(OtherError("timeout")), Held)];
    run := Extend(kind, run, Claim(10, 5, 0));
    run := Extend(kind, run, Deliver(1, Accepted));
    run := Extend(kind, run, Complete(1, 11, 10));
  }

  // --------------------------------------------------- leases and waiting

  /** Two claims with no completion between them are more than a lease apart. */
  lemma {:induction false} ClaimsAreALeaseApart(
    kind: Kind, run: seq<Event>, first: Event, between: seq<Event>, second: Event)
    requires first.Claim? && second.Claim?
    requires forall k | 0 <= k < |between| :: between[k].Deliver? || between[k].Crash?
    requires Legal(kind, run + [first] + between + [second])
    ensures first.now + second.lease < second.now
  {
    ReplayAppend(kind, run + [first] + between, second);
    HolderKeepsLease(kind, run, first, between);
  }

  lemma {:induction false} HolderKeepsLease(kind: Kind, run: seq<Event>, first: Event, between: seq<Event>)
    requires first.Claim?
    requires forall k | 0 <= k < |between| :: between[k].Deliver? || between[k].Crash?
    ensures var c := Replay(kind, run + [first] + between).columns;
            c.status == Processing && c.claimedAt == Some(first.now)
  {
    if between == [] {
      assert run + [first] + between == run + [first];
      ReplayAppend(kind, run, first);
    } else {
      var before, e := between[..|between| - 1], between[|between| - 1];
      HolderKeepsLease(kind, run, first, before);
      assert run + [first] + between == run + [first] + before + [e];
      ReplayAppend(kind, run + [first] + before, e);
    }
  }

  /** No reachable row is stranded: an unfinished row can be claimed at once
      after a genuine failure, from its last attempt plus the retry delay when
      it waits for a destination, and just after its lease when abandoned. */
  lemma NeverStranded(kind: Kind, run: seq<Event>, now: int, lease: int, retry: int)
    requires Legal(kind, run)
    ensures var c := Replay(kind, run).columns;
            && (Terminal(c.status) ==> !Eligible(kind, c, now, lease, retry))
            && (c.status == Processing ==>
                  c.claimedAt.Some? && (Eligible(kind, c, now, lease, retry) <==> c.claimedAt.value + lease < now))
            && (c.status == Pending && c.lastError == Some(WaitingError(kind)) ==>
                  c.lastAttemptedAt.Some? && (Eligible(kind, c, now, lease, retry) <==> c.lastAttemptedAt.value + retry <= now))
            && (c.status == Pending && c.lastError != Some(WaitingError(kind)) ==> Eligible(kind, c, now, lease, retry))
  {
    LegalRunsKeepInv(kind, run);
  }

  /** What a claim is: the row is the worker's, counted, until the lease is over,
      and anybody's after that. */
  lemma ClaimHoldsForItsLease(kind: Kind, h: History, now: int, lease: int, retry: int)
    requires Enabled(kind, h, Claim(now, lease, retry))
    ensures var c := Apply(kind, h, Claim(now, lease, retry)).columns;
            && c.status == Processing && c.attemptCount == h.columns.attemptCount + 1
            && c.lastAttemptedAt == h.columns.lastAttemptedAt && c.lastError == h.columns.lastError && c.sentAt == h.columns.sentAt
            && forall later: int, term: int, delay: int :: Eligible(kind, c, later, term, delay) <==> later > now + term
  {
  }

  /** What a report does to a row of any run, by what became of the send. Taken:
      the row is sent, as of now, and over. No destination yet: the attempt is not
      counted, and the row is due again after the delay. Any other error: the row
      is over if its attempts have reached the limit, and due at once if not. */
  lemma ReportDecidesTheRow(kind: Kind, run: seq<Event>, i: nat, now: int, max: int, later: int, lease: int, retry: int)
    requires Legal(kind, run) && Enabled(kind, Replay(kind, run), Complete(i, now, max))
    ensures var h := Replay(kind, run);
            var was, c, outcome := h.columns, Apply(kind, h, Complete(i, now, max)).columns, h.attempts[i].outcome;
            var due := Eligible(kind, c, later, lease, retry);
            && c.lastAttemptedAt == Some(now) && c.claimedAt == was.claimedAt
            && (outcome == Accepted ==>
                  c.status == Sent && c.sentAt == Some(now) && c.lastError == None && c.attemptCount == was.attemptCount && !due)
            && (outcome == Refused(if kind == Telegram then AwaitingDestination else NoDeviceRegistered) ==>
                  && c.status == Pending && c.attemptCount == was.attemptCount - 1 && c.sentAt == was.sentAt
                  && c.lastError == Some(outcome.error) && (due <==> now + retry <= later))
            && (outcome.Refused? && outcome.error != (if kind == Telegram then AwaitingDestination else NoDeviceRegistered) ==>
                  && c.status == (if was.attemptCount >= max then Failed else Pending) && c.attemptCount == was.attemptCount
                  && c.sentAt == was.sentAt && c.lastError == Some(outcome.error) && (due <==> was.attemptCount < max))
  {
    LegalRunsKeepInv(kind, run);
    CompletingClaimIsCounted(kind, Replay(kind, run), i);
  }

  /** What the claim query needs from whoever completes a row: a refusal goes
      back to the queue at once exactly when it names an error other than the
      waiting one. A refusal without an error would compare as null and be
      throttled as if it waited for a destination. */
  lemma RetriedAtOnceIff(
    kind: Kind, c: Columns, now: int, error: Option<ErrorText>, maxAttempts: int, lease: int, retry: int)
    requires retry > 0 && c.attemptCount < maxAttempts
    ensures Eligible(kind, Completed(kind, c, now, false, error, maxAttempts), now, lease, retry)
            <==> error.Some? && error.value != WaitingError(kind)
  {
  }
}

/** Password reset codes: six digits, one usable code per user, a cooldown
    between codes, at most so many codes an hour, and at most so many wrong
    guesses a code. Every call is one transaction; hashing is injective, so a row
    holds the code itself. Rows are never deleted, and a row's number is its
    position. Times are microseconds. */
module ResetCodes {

  import opened Sql

  const HOUR := 3_600_000_000
  const MIN_PASSWORD := 8

  /** The settings. */
  datatype Policy = Policy(expiry: int, maxAttempts: int, cooldown: int, maxPerHour: int)

  datatype Code = Code(user: nat, secret: string, createdAt: int, expiresAt: int, usedAt: Option<int>, failed: nat)

  // ---------------------------------------------------------------- codes

  type Draw = n: nat | n < 1_000_000

  function Digit(d: nat): (r: char)
    requires d < 10
    ensures '0' <= r <= '9' && r as int == d + 48
  {
    (d + 48) as char
  }

  function ZeroPadded(n: nat, width: nat): (r: string)
    ensures |r| == width && forall i | 0 <= i < width :: '0' <= r[i] <= '9'
  {
    if width == 0 then "" else ZeroPadded(n / 10, width - 1) + [Digit(n % 10)]
  }

  /** `generate_reset_code`. */
  function SixDigits(draw: Draw): string {
    ZeroPadded(draw, 6)
  }

  function Power10(n: nat): nat {
    if n == 0 then 1 else 10 * Power10(n - 1)
  }

  predicate WellFormed(code: string) {
    |code| == 6 && forall i | 0 <= i < 6 :: '0' <= code[i] <= '9'
  }

  // -------------------------------------------------------------- queries

  predicate Usable(code: Code, user: nat, now: int) {
    code.user == user && code.usedAt.None? && code.expiresAt > now
  }

  /** `get_live_for_user`: the newest unused, unexpired code. */
  function LiveAmong(codes: seq<Code>, user: nat, now: int): (r: Option<nat>)
    ensures r.Some? ==> r.value < |codes| && Usable(codes[r.value], user, now)
    ensures r.Some? ==> forall i | 0 <= i < |codes| && Usable(codes[i], user, now) :: codes[i].createdAt <= codes[r.value].createdAt
    ensures r.None? ==> forall i | 0 <= i < |codes| :: !Usable(codes[i], user, now)
  {
    if codes == [] then None
    else
      var n := |codes| - 1;
      var earlier := LiveAmong(codes[..n], user, now);
      if !Usable(codes[n], user, now) || (earlier.Some? && codes[earlier.value].createdAt > codes[n].createdAt) then earlier
      else Some(n)
  }

  /** `get_most_recent_for_user`, reduced to its `created_at`. */
  function LastIssued(codes: seq<Code>, user: nat): (r: Option<int>)
    ensures r.None? <==> forall i | 0 <= i < |codes| :: codes[i].user != user
    ensures r.Some? ==> forall i | 0 <= i < |codes| && codes[i].user == user :: codes[i].createdAt <= r.value
  {
    if codes == [] then None
    else
      var n := |codes| - 1;
      var earlier := LastIssued(codes[..n], user);
      if codes[n].user != user || (earlier.Some? && earlier.value > codes[n].createdAt) then earlier
      else Some(codes[n].createdAt)
  }

  function IssuedSince(codes: seq<Code>, user: nat, since: int): set<int> {
    set i | 0 <= i < |codes| && codes[i].user == user && codes[i].createdAt >= since
  }

  predicate Held(codes: seq<Code>, user: nat, secret: string) {
    exists i | 0 <= i < |codes| :: codes[i].user == user && codes[i].secret == secret
  }

  function Superseded(codes: seq<Code>, user: nat, now: int): (r: seq<Code>)
    ensures |r| == |codes|
    ensures forall i | 0 <= i < |codes| ::
              r[i] == if codes[i].user == user && codes[i].usedAt.None? then codes[i].(usedAt := Some(now)) else codes[i]
  {
    seq(|codes|, i requires 0 <= i < |codes| =>
      if codes[i].user == user && codes[i].usedAt.None? then codes[i].(usedAt := Some(now)) else codes[i])
  }

  // ------------------------------------------------------- service calls

  /** `Clash`: the draw repeats a code the user once held, the unique constraint
      fires and the transaction is rolled back. */
  datatype Issue = Suppressed | Clash | Issued(secret: string)

  function RequestOutcome(codes: seq<Code>, policy: Policy, active: bool, user: nat, now: int, draw: Draw): Issue
  {
    var last := LastIssued(codes, user);
    if !active then Suppressed
    else if last.Some? && now - last.value < policy.cooldown then Suppressed
    else if |IssuedSince(codes, user, now - HOUR)| >= policy.maxPerHour then Suppressed
    else if Held(codes, user, SixDigits(draw)) then Clash
    else Issued(SixDigits(draw))
  }

  /** `now` is read first and `stamp` when the row is inserted. */
  function AfterRequest(codes: seq<Code>, policy: Policy, active: bool, user: nat, now: int, stamp: int, draw: Draw): seq<Code>
  {
    if RequestOutcome(codes, policy, active, user, now, draw).Issued? then
      Superseded(codes, user, now) + [Code(user, SixDigits(draw), stamp, now + policy.expiry, None, 0)]
    else codes
  }

  datatype Verdict = InvalidCode | WrongCode | WeakPassword | Reset

  function AttemptVerdict(codes: seq<Code>, policy: Policy, active: bool, user: nat, code: string, password: string, now: int): Verdict {
    var live := LiveAmong(codes, user, now);
    if !WellFormed(code) || !active || live.None? then InvalidCode
    else if codes[live.value].failed >= policy.maxAttempts then InvalidCode
    else if code != codes[live.value].secret then WrongCode
    else if |password| < MIN_PASSWORD then WeakPassword
    else Reset
  }

  function AfterAttempt(codes: seq<Code>, policy: Policy, active: bool, user: nat, code: string, password: string, now: int): seq<Code> {
    var live := LiveAmong(codes, user, now);
    match AttemptVerdict(codes, policy, active, user, code, password, now)
    case InvalidCode => codes
    case WeakPassword => codes
    case WrongCode => codes[live.value := codes[live.value].(failed := codes[live.value].failed + 1)]
    case Reset => codes[live.value := codes[live.value].(usedAt := Some(now))]
  }

  // ----------------------------------------------------------------- runs

  datatype Guess = Guess(code: nat, at: int)

  /** `wrong` logs every wrong code compared, `resets` every code redeemed. */
  datatype State = State(active: set<nat>, codes: seq<Code>, clock: int, wrong: seq<Guess>, resets: seq<nat>)

  datatype Event =
    | SetActive(user: nat, active: bool)
    | Request(user: nat, now: int, stamp: int, draw: Draw)
    | Attempt(user: nat, code: string, password: string, now: int)

  ghost predicate Enabled(s: State, e: Event) {
    match e
    case SetActive(_, _) => true
    case Request(_, now, stamp, draw) => s.clock <= now <= stamp
    case Attempt(_, _, _, now) => s.clock <= now
  }

  ghost function AfterGuess(s: State, policy: Policy, user: nat, code: string, password: string, now: int): State {
    var active := user in s.active;
    var live := LiveAmong(s.codes, user, now);
    var verdict := AttemptVerdict(s.codes, policy, active, user, code, password, now);
    s.(codes := AfterAttempt(s.codes, policy, active, user, code, password, now),
       clock := now,
       wrong := if verdict.WrongCode? then s.wrong + [Guess(live.value, now)] else s.wrong,
       resets := if verdict.Reset? then s.resets + [live.value] else s.resets)
  }

  ghost function Apply(policy: Policy, s: State, e: Event): State {
    match e
    case SetActive(user, active) => s.(active := if active then s.active + {user} else s.active - {user})
    case Request(user, now, stamp, draw) =>
      s.(codes := AfterRequest(s.codes, policy, user in s.active, user, now, stamp, draw), clock := stamp)
    case Attempt(user, code, password, now) => AfterGuess(s, policy, user, code, password, now)
  }

  /** Before any code was issued. */
  ghost predicate Blank(s: State) {
    s.codes == [] && s.wrong == [] && s.resets == []
  }

  ghost function Replay(policy: Policy, start: State, run: seq<Event>): State {
    if run == [] then start else Apply(policy, Replay(policy, start, run[..|run| - 1]), run[|run| - 1])
  }

  ghost predicate Legal(policy: Policy, start: State, run: seq<Event>) {
    if run == [] then Blank(start)
    else Legal(policy, start, run[..|run| - 1]) && Enabled(Replay(policy, start, run[..|run| - 1]), run[|run| - 1])
  }

  // ------------------------------------------------------------ invariant

  function Cap(x: int): nat {
    if x < 0 then 0 else x
  }

  /** The codes of the user issued in the closed hour from `from`. */
  ghost function IssuedInHour(codes: seq<Code>, user: nat, from: int): set<int> {
    set i | 0 <= i < |codes| && codes[i].user == user && from <= codes[i].createdAt <= from + HOUR
  }

  ghost function WrongFor(wrong: seq<Guess>, code: nat): set<int> {
    set g | 0 <= g < |wrong| && wrong[g].code == code
  }

  ghost predicate InOrder(codes: seq<Code>, clock: int, policy: Policy) {
    && (forall i | 0 <= i < |codes| :: codes[i].createdAt <= clock)
    && (forall i, j | 0 <= i < j < |codes| && codes[i].user == codes[j].user ::
          codes[i].usedAt.Some? && codes[j].createdAt >= codes[i].createdAt && codes[j].createdAt - codes[i].createdAt >= policy.cooldown)
  }

  ghost predicate Capped(codes: seq<Code>, policy: Policy) {
    forall user: nat, from: int :: |IssuedInHour(codes, user, from)| <= Cap(policy.maxPerHour)
  }

  ghost predicate Counted(codes: seq<Code>, wrong: seq<Guess>, policy: Policy) {
    && (forall g | 0 <= g < |wrong| :: wrong[g].code < |codes|)
    && (forall c: nat | c < |codes| :: codes[c].failed == |WrongFor(wrong, c)| <= Cap(policy.maxAttempts))
  }

  /** A guess at a code follows its issue and precedes the issue of any later
      code of that user. */
  ghost predicate GuessesPrecede(codes: seq<Code>, wrong: seq<Guess>, clock: int) {
    && (forall g | 0 <= g < |wrong| :: wrong[g].code < |codes| && codes[wrong[g].code].createdAt <= wrong[g].at <= clock)
    && (forall g, d | 0 <= g < |wrong| && wrong[g].code < d < |codes| && codes[d].user == codes[wrong[g].code].user ::
          codes[d].createdAt >= wrong[g].at)
  }

  ghost predicate Redeemed(codes: seq<Code>, resets: seq<nat>) {
    Distinct(resets) && forall i | 0 <= i < |resets| :: resets[i] < |codes| && codes[resets[i]].usedAt.Some?
  }

  ghost predicate Inv(policy: Policy, s: State) {
    && InOrder(s.codes, s.clock, policy)
    && Capped(s.codes, policy)
    && Counted(s.codes, s.wrong, policy)
    && GuessesPrecede(s.codes, s.wrong, s.clock)
    && Redeemed(s.codes, s.resets)
  }

  lemma RequestKeepsOrder(codes: seq<Code>, clock: int, policy: Policy, active: bool, user: nat, now: int, stamp: int, draw: Draw)
    requires InOrder(codes, clock, policy) && clock <= now <= stamp
    ensures InOrder(AfterRequest(codes, policy, active, user, now, stamp, draw), stamp, policy)
  {
  }

  lemma HourAfterIssue(codes: seq<Code>, code: Code, user: nat, now: int, u: nat, from: int)
    ensures var after := Superseded(codes, user, now) + [code];
            IssuedInHour(after, u, from) ==
            IssuedInHour(codes, u, from) + if code.user == u && from <= code.createdAt <= from + HOUR then {|codes|} else {}
  {
  }

  lemma RequestKeepsCap(codes: seq<Code>, policy: Policy, active: bool, user: nat, now: int, stamp: int, draw: Draw)
    requires Capped(codes, policy) && now <= stamp
    ensures Capped(AfterRequest(codes, policy, active, user, now, stamp, draw), policy)
  {
    var after := AfterRequest(codes, policy, active, user, now, stamp, draw);
    if RequestOutcome(codes, policy, active, user, now, draw).Issued? {
      forall u: nat, from: int
        ensures |IssuedInHour(after, u, from)| <= Cap(policy.maxPerHour)
      {
        var earlier := IssuedInHour(codes, u, from);
        HourAfterIssue(codes, after[|codes|], user, now, u, from);
        if u == user && from <= stamp <= from + HOUR {
          SubsetCount(earlier, IssuedSince(codes, user, now - HOUR));
        }
      }
    }
  }

  lemma RequestKeepsGuesses(s: State, policy: Policy, user: nat, now: int, stamp: int, draw: Draw)
    requires Counted(s.codes, s.wrong, policy) && GuessesPrecede(s.codes, s.wrong, s.clock) && Redeemed(s.codes, s.resets)
    requires s.clock <= now <= stamp
    ensures var after := AfterRequest(s.codes, policy, user in s.active, user, now, stamp, draw);
            Counted(after, s.wrong, policy) && GuessesPrecede(after, s.wrong, stamp) && Redeemed(after, s.resets)
  {
    var after := AfterRequest(s.codes, policy, user in s.active, user, now, stamp, draw);
    if |after| > |s.codes| {
      assert WrongFor(s.wrong, |s.codes|) == {};
      forall c: nat | c < |after|
        ensures after[c].failed == |WrongFor(s.wrong, c)| <= Cap(policy.maxAttempts)
      {
      }
    }
  }

  /** What a wrong guess or a redemption does to the row it found. */
  ghost predicate Touched(codes: seq<Code>, after: seq<Code>, live: nat) {
    && live < |codes| == |after|
    && (forall i | 0 <= i < |codes| && i != live :: after[i] == codes[i])
    && after[live].user == codes[live].user && after[live].createdAt == codes[live].createdAt
    && codes[live].usedAt.None?
  }

  lemma TouchKeepsTimes(codes: seq<Code>, after: seq<Code>, live: nat, clock: int, now: int, policy: Policy)
    requires Touched(codes, after, live) && clock <= now
    requires InOrder(codes, clock, policy) && Capped(codes, policy)
    ensures InOrder(after, now, policy) && Capped(after, policy)
  {
    forall user: nat, from: int
      ensures |IssuedInHour(after, user, from)| <= Cap(policy.maxPerHour)
    {
      assert IssuedInHour(after, user, from) == IssuedInHour(codes, user, from);
    }
  }

  lemma WrongForAppend(wrong: seq<Guess>, guess: Guess, c: nat)
    ensures |WrongFor(wrong + [guess], c)| == |WrongFor(wrong, c)| + if guess.code == c then 1 else 0
  {
    assert WrongFor(wrong + [guess], c) == WrongFor(wrong, c) + if guess.code == c then {|wrong|} else {};
  }

  lemma WrongGuessKeepsCounts(codes: seq<Code>, wrong: seq<Guess>, live: nat, now: int, policy: Policy)
    requires live < |codes| && codes[live].failed < policy.maxAttempts && Counted(codes, wrong, policy)
    ensures Counted(codes[live := codes[live].(failed := codes[live].failed + 1)], wrong + [Guess(live, now)], policy)
  {
    hide WrongFor;
    forall c: nat | c < |codes|
      ensures |WrongFor(wrong + [Guess(live, now)], c)| == |WrongFor(wrong, c)| + if live == c then 1 else 0
    {
      WrongForAppend(wrong, Guess(live, now), c);
    }
  }

  lemma WrongGuessKeepsLog(codes: seq<Code>, wrong: seq<Guess>, live: nat, now: int, clock: int, policy: Policy)
    requires live < |codes| && codes[live].usedAt.None? && codes[live].failed < policy.maxAttempts && clock <= now
    requires InOrder(codes, clock, policy) && Counted(codes, wrong, policy) && GuessesPrecede(codes, wrong, clock)
    ensures var after, log := codes[live := codes[live].(failed := codes[live].failed + 1)], wrong + [Guess(live, now)];
            Counted(after, log, policy) && GuessesPrecede(after, log, now)
  {
    hide Counted;
    WrongGuessKeepsCounts(codes, wrong, live, now, policy);
  }

  lemma WrongGuessKeepsInv(policy: Policy, s: State, live: nat, now: int)
    requires Inv(policy, s) && s.clock <= now
    requires live < |s.codes| && s.codes[live].usedAt.None? && s.codes[live].failed < policy.maxAttempts
    ensures Inv(policy, s.(codes := s.codes[live := s.codes[live].(failed := s.codes[live].failed + 1)],
                           clock := now, wrong := s.wrong + [Guess(live, now)]))
  {
    var after := s.codes[live := s.codes[live].(failed := s.codes[live].failed + 1)];
    TouchKeepsTimes(s.codes, after, live, s.clock, now, policy);
    WrongGuessKeepsLog(s.codes, s.wrong, live, now, s.clock, policy);
    assert Redeemed(after, s.resets);
  }

  lemma RedeemKeepsInv(policy: Policy, s: State, live: nat, now: int)
    requires Inv(policy, s) && s.clock <= now
    requires live < |s.codes| && s.codes[live].usedAt.None?
    ensures Inv(policy, s.(codes := s.codes[live := s.codes[live].(usedAt := Some(now))], clock := now, resets := s.resets + [live]))
  {
    var after := s.codes[live := s.codes[live].(usedAt := Some(now))];
    TouchKeepsTimes(s.codes, after, live, s.clock, now, policy);
    assert Redeemed(after, s.resets + [live]);
    assert Counted(after, s.wrong, policy);
    assert GuessesPrecede(after, s.wrong, now);
  }

  lemma AttemptKeepsInv(policy: Policy, s: State, user: nat, code: string, password: string, now: int)
    requires Inv(policy, s) && s.clock <= now
    ensures Inv(policy, AfterGuess(s, policy, user, code, password, now))
  {
    hide Inv;
    var verdict := AttemptVerdict(s.codes, policy, user in s.active, user, code, password, now);
    var live := LiveAmong(s.codes, user, now);
    if verdict.WrongCode? {
      WrongGuessKeepsInv(policy, s, live.value, now);
    } else if verdict.Reset? {
      RedeemKeepsInv(policy, s, live.value, now);
    } else {
      ClockAdvances(policy, s, now);
    }
  }

  lemma ClockAdvances(policy: Policy, s: State, now: int)
    requires Inv(policy, s) && s.clock <= now
    ensures Inv(policy, s.(clock := now))
  {
  }

  lemma StepKeepsInv(policy: Policy, s: State, e: Event)
    requires Inv(policy, s) && Enabled(s, e)
    ensures Inv(policy, Apply(policy, s, e))
  {
    match e
    case SetActive(_, _) =>
    case Request(user, now, stamp, draw) =>
      RequestKeepsOrder(s.codes, s.clock, policy, user in s.active, user, now, stamp, draw);
      RequestKeepsCap(s.codes, policy, user in s.active, user, now, stamp, draw);
      RequestKeepsGuesses(s, policy, user, now, stamp, draw);
    case Attempt(user, code, password, now) => AttemptKeepsInv(policy, s, user, code, password, now);
  }

  lemma {:induction false} RunsKeepInv(policy: Policy, start: State, run: seq<Event>)
    requires Legal(policy, start, run)
    ensures Inv(policy, Replay(policy, start, run))
  {
    if run == [] {
      assert forall user: nat, from: int :: IssuedInHour([], user, from) == {};
    } else {
      RunsKeepInv(policy, start, run[..|run| - 1]);
      StepKeepsInv(policy, Replay(policy, start, run[..|run| - 1]), run[|run| - 1]);
    }
  }

  // ----------------------------------------------------------------- laws

  /** At any time at most one code of a user is unused, the newest, and codes are
      issued at least the cooldown apart. */
  lemma OneUnusedCodeACooldownApart(policy: Policy, start: State, run: seq<Event>, c: nat, d: nat)
    requires Legal(policy, start, run)
    requires var codes := Replay(policy, start, run).codes; c < d < |codes| && codes[c].user == codes[d].user
    ensures var codes := Replay(policy, start, run).codes;
            codes[c].usedAt.Some? && codes[d].createdAt >= codes[c].createdAt + Cap(policy.cooldown)
  {
    RunsKeepInv(policy, start, run);
  }

  /** Any closed hour holds at most `maxPerHour` issues, not only the hours that
      end at a request. */
  lemma HourlyCap(policy: Policy, start: State, run: seq<Event>, user: nat, from: int)
    requires Legal(policy, start, run)
    ensures |IssuedInHour(Replay(policy, start, run).codes, user, from)| <= Cap(policy.maxPerHour)
  {
    RunsKeepInv(policy, start, run);
  }

  /** The wrong codes compared for the user in the closed hour from `from`. */
  ghost function WrongInHour(s: State, user: nat, from: int): set<int> {
    set g | 0 <= g < |s.wrong| && s.wrong[g].code < |s.codes| && s.codes[s.wrong[g].code].user == user
            && from <= s.wrong[g].at <= from + HOUR
  }

  lemma ProductGrows(a: nat, b: nat, k: nat)
    requires a <= b
    ensures a * k <= b * k
    ensures a < b ==> a * k + k <= b * k
  {
    if a < b {
      assert (a + 1) * k == a * k + k;
    }
  }

  lemma {:induction false} WrongOnFewCodes(wrong: seq<Guess>, guesses: set<int>, codes: set<nat>, each: nat)
    requires forall g | g in guesses :: 0 <= g < |wrong| && wrong[g].code in codes
    requires forall c | c in codes :: |WrongFor(wrong, c)| <= each
    ensures |guesses| <= |codes| * each
    decreases |codes|
  {
    if g :| g in guesses {
      var c := wrong[g].code;
      var here := guesses * WrongFor(wrong, c);
      SubsetCount(here, WrongFor(wrong, c));
      WrongOnFewCodes(wrong, guesses - here, codes - {c}, each);
      assert guesses == here + (guesses - here);
      ProductGrows(|codes - {c}|, |codes|, each);
    } else {
      assert guesses == {};
      ProductGrows(0, |codes|, each);
    }
  }

  /** Two codes guessed at since `from` are not both older than that. */
  lemma OldCodesAgree(s: State, user: nat, from: int, g: int, h: int)
    requires GuessesPrecede(s.codes, s.wrong, s.clock)
    requires g in WrongInHour(s, user, from) && s.codes[s.wrong[g].code].createdAt < from
    requires h in WrongInHour(s, user, from) && s.codes[s.wrong[h].code].createdAt < from
    ensures s.wrong[g].code == s.wrong[h].code
  {
  }

  lemma RecentCodesAreFew(policy: Policy, s: State, user: nat, from: int) returns (codes: set<nat>)
    requires Capped(s.codes, policy) && GuessesPrecede(s.codes, s.wrong, s.clock)
    ensures |codes| <= Cap(policy.maxPerHour)
    ensures forall c | c in codes :: c < |s.codes|
    ensures forall g | g in WrongInHour(s, user, from) && s.codes[s.wrong[g].code].createdAt >= from :: s.wrong[g].code in codes
  {
    codes := set c: nat | c in IssuedInHour(s.codes, user, from);
    SubsetCount<int>(codes, IssuedInHour(s.codes, user, from));
  }

  lemma HourTouchesFewCodes(policy: Policy, s: State, user: nat, from: int) returns (codes: set<nat>)
    requires Capped(s.codes, policy) && GuessesPrecede(s.codes, s.wrong, s.clock)
    ensures |codes| <= 1 + Cap(policy.maxPerHour)
    ensures forall c | c in codes :: c < |s.codes|
    ensures forall g | g in WrongInHour(s, user, from) :: s.wrong[g].code in codes
  {
    hide Capped, GuessesPrecede;
    codes := RecentCodesAreFew(policy, s, user, from);
    if g :| g in WrongInHour(s, user, from) && s.codes[s.wrong[g].code].createdAt < from {
      forall h | h in WrongInHour(s, user, from) && s.codes[s.wrong[h].code].createdAt < from
        ensures s.wrong[h].code == s.wrong[g].code
      {
        OldCodesAgree(s, user, from, g, h);
      }
      codes := codes + {s.wrong[g].code};
    }
  }

  /** The rate limit on guessing: in any closed hour, whatever the calls and
      however the hour is placed, the wrong codes compared for a user number at
      most (1 + codes an hour) * attempts a code. */
  lemma WrongGuessesPerHour(policy: Policy, start: State, run: seq<Event>, user: nat, from: int)
    requires Legal(policy, start, run)
    ensures |WrongInHour(Replay(policy, start, run), user, from)| <= (1 + Cap(policy.maxPerHour)) * Cap(policy.maxAttempts)
  {
    RunsKeepInv(policy, start, run);
    var s := Replay(policy, start, run);
    var codes := HourTouchesFewCodes(policy, s, user, from);
    forall c | c in codes
      ensures |WrongFor(s.wrong, c)| <= Cap(policy.maxAttempts)
    {
      assert s.codes[c].failed == |WrongFor(s.wrong, c)|;
    }
    WrongOnFewCodes(s.wrong, WrongInHour(s, user, from), codes, Cap(policy.maxAttempts));
    ProductGrows(|codes|, 1 + Cap(policy.maxPerHour), Cap(policy.maxAttempts));
  }

  /** A code is redeemed at most once. */
  lemma RedeemedOnce(policy: Policy, start: State, run: seq<Event>)
    requires Legal(policy, start, run)
    ensures Distinct(Replay(policy, start, run).resets)
  {
    RunsKeepInv(policy, start, run);
  }

  /** A code that is not the user's newest is not usable. */
  ghost predicate OnlyNewestUnused(codes: seq<Code>) {
    forall i, j | 0 <= i < j < |codes| && codes[i].user == codes[j].user :: codes[i].usedAt.Some?
  }

  lemma NoneUnused(codes: seq<Code>, policy: Policy, active: bool, user: nat, code: string, password: string, now: int)
    requires forall i | 0 <= i < |codes| && codes[i].user == user :: codes[i].usedAt.Some?
    ensures AttemptVerdict(codes, policy, active, user, code, password, now) == InvalidCode
  {
  }

  /** A reset leaves the user no code that works. */
  lemma ResetSpendsEveryCode(codes: seq<Code>, policy: Policy, active: bool, user: nat, code: string, password: string, now: int)
    requires OnlyNewestUnused(codes) && AttemptVerdict(codes, policy, active, user, code, password, now) == Reset
    ensures var spent := AfterAttempt(codes, policy, active, user, code, password, now);
            forall on, other, again, after :: AttemptVerdict(spent, policy, on, user, other, again, after) == InvalidCode
  {
    hide AttemptVerdict;
    var live, spent := LiveAmong(codes, user, now), AfterAttempt(codes, policy, active, user, code, password, now);
    ResetUsesTheLiveCode(codes, policy, active, user, code, password, now);
    forall on, other, again, after
      ensures AttemptVerdict(spent, policy, on, user, other, again, after) == InvalidCode
    {
      NoneUnused(spent, policy, on, user, other, again, after);
    }
  }

  lemma ResetUsesTheLiveCode(codes: seq<Code>, policy: Policy, active: bool, user: nat, code: string, password: string, now: int)
    requires AttemptVerdict(codes, policy, active, user, code, password, now) == Reset
    ensures var live := LiveAmong(codes, user, now);
            live.Some? && AfterAttempt(codes, policy, active, user, code, password, now) ==
                          codes[live.value := codes[live.value].(usedAt := Some(now))]
  {
  }

  lemma NewCodeWorks(codes: seq<Code>, policy: Policy, user: nat, now: int, stamp: int, draw: Draw, password: string, later: int)
    requires RequestOutcome(codes, policy, true, user, now, draw).Issued?
    requires later < now + policy.expiry && policy.maxAttempts > 0 && |password| >= MIN_PASSWORD
    ensures var issued := AfterRequest(codes, policy, true, user, now, stamp, draw);
            AttemptVerdict(issued, policy, true, user, SixDigits(draw), password, later) == Reset
  {
    hide SixDigits, RequestOutcome;
    var issued := AfterRequest(codes, policy, true, user, now, stamp, draw);
    IssueReplaces(codes, policy, user, now, stamp, draw);
    DrawsAreCodes(draw, draw);
    assert Usable(issued[|codes|], user, later);
    assert LiveAmong(issued, user, later) == Some(|codes|);
  }

  lemma IssueReplaces(codes: seq<Code>, policy: Policy, user: nat, now: int, stamp: int, draw: Draw)
    requires RequestOutcome(codes, policy, true, user, now, draw).Issued?
    ensures AfterRequest(codes, policy, true, user, now, stamp, draw) ==
            Superseded(codes, user, now) + [Code(user, SixDigits(draw), stamp, now + policy.expiry, None, 0)]
  {
  }

  /** Whatever happened before: an issued code can be redeemed until it expires,
      and once it is, no code of the user works until the next is issued. */
  lemma IssuedCodeRedeems(
    policy: Policy, start: State, run: seq<Event>, user: nat, now: int, stamp: int, draw: Draw, password: string, later: int)
    requires Legal(policy, start, run)
    requires Replay(policy, start, run).clock <= now <= stamp <= later < now + policy.expiry
    requires RequestOutcome(Replay(policy, start, run).codes, policy, true, user, now, draw).Issued?
    requires policy.maxAttempts > 0 && |password| >= MIN_PASSWORD
    ensures var codes := AfterRequest(Replay(policy, start, run).codes, policy, true, user, now, stamp, draw);
            && AttemptVerdict(codes, policy, true, user, SixDigits(draw), password, later) == Reset
            && var spent := AfterAttempt(codes, policy, true, user, SixDigits(draw), password, later);
               forall on, code, again, after :: AttemptVerdict(spent, policy, on, user, code, again, after) == InvalidCode
  {
    hide AttemptVerdict, AfterAttempt, AfterRequest, RequestOutcome, SixDigits, Legal, Replay;
    RunsKeepInv(policy, start, run);
    var s := Replay(policy, start, run);
    var codes := AfterRequest(s.codes, policy, true, user, now, stamp, draw);
    RequestKeepsOrder(s.codes, s.clock, policy, true, user, now, stamp, draw);
    NewCodeWorks(s.codes, policy, user, now, stamp, draw, password, later);
    ResetSpendsEveryCode(codes, policy, true, user, SixDigits(draw), password, later);
  }

  lemma {:induction false} PaddingIsInjective(a: nat, b: nat, width: nat)
    requires a < Power10(width) && b < Power10(width) && ZeroPadded(a, width) == ZeroPadded(b, width)
    ensures a == b
  {
    if width > 0 {
      var p, q := ZeroPadded(a / 10, width - 1), ZeroPadded(b / 10, width - 1);
      assert p == ZeroPadded(a, width)[..width - 1] == ZeroPadded(b, width)[..width - 1] == q;
      assert Digit(a % 10) == ZeroPadded(a, width)[width - 1] == ZeroPadded(b, width)[width - 1] == Digit(b % 10);
      PaddingIsInjective(a / 10, b / 10, width - 1);
    }
  }

  /** Different draws are different codes, and every one is well formed. */
  lemma DrawsAreCodes(a: Draw, b: Draw)
    ensures WellFormed(SixDigits(a))
    ensures SixDigits(a) == SixDigits(b) ==> a == b
  {
    assert Power10(6) == 1_000_000;
    if SixDigits(a) == SixDigits(b) {
      PaddingIsInjective(a, b, 6);
    }
  }

  ghost function Decimal(digits: string): int {
    if digits == "" then 0 else 10 * Decimal(digits[..|digits| - 1]) + (digits[|digits| - 1] as int - '0' as int)
  }

  /** The code spells its draw. */
  lemma {:induction false} PaddingSpells(n: nat, width: nat)
    requires n < Power10(width)
    ensures Decimal(ZeroPadded(n, width)) == n
  {
    if width > 0 {
      PaddingSpells(n / 10, width - 1);
      assert ZeroPadded(n, width)[..width - 1] == ZeroPadded(n / 10, width - 1);
    }
  }

  lemma CodeSpellsItsDraw(draw: Draw)
    ensures |SixDigits(draw)| == 6 && Decimal(SixDigits(draw)) == draw
  {
    assert Power10(6) == 1_000_000;
    PaddingSpells(draw, 6);
  }

  // ------------------------------------------------- single calls, on rows

  /** A code the user could still redeem, as far as its own row tells. */
  ghost predicate Redeemable(c: Code, user: nat, now: int) {
    c.user == user && c.usedAt == None && now < c.expiresAt
  }

  ghost predicate IsSixDigits(code: string) {
    |code| == 6 && forall i | 0 <= i < 6 :: code[i] in "0123456789"
  }

  /** The row an attempt is measured against: no redeemable one is younger. */
  ghost predicate Newest(codes: seq<Code>, user: nat, now: int, i: nat) {
    && i < |codes| && Redeemable(codes[i], user, now)
    && forall j | 0 <= j < |codes| && Redeemable(codes[j], user, now) :: codes[j].createdAt <= codes[i].createdAt
  }

  /** What each verdict means and writes, on the rows. Only the issued code of an
      active user, unused, unexpired and below the cap, sets a password, and is
      used up by that; a different code is counted against it. */
  lemma AttemptDecides(codes: seq<Code>, policy: Policy, active: bool, user: nat, code: string, password: string, now: int)
    ensures var verdict, after := AttemptVerdict(codes, policy, active, user, code, password, now),
                                  AfterAttempt(codes, policy, active, user, code, password, now);
            && (verdict == Reset ==>
                  && active && |password| >= 8
                  && exists i: nat :: Newest(codes, user, now, i) && codes[i].secret == code && codes[i].failed < policy.maxAttempts
                                      && after == codes[i := codes[i].(usedAt := Some(now))])
            && (verdict == WrongCode ==>
                  && active && IsSixDigits(code)
                  && exists i: nat :: Newest(codes, user, now, i) && codes[i].secret != code && codes[i].failed < policy.maxAttempts
                                      && after == codes[i := codes[i].(failed := codes[i].failed + 1)])
            && (verdict == WeakPassword ==>
                  && active && |password| < 8 && after == codes
                  && exists i: nat :: Newest(codes, user, now, i) && codes[i].secret == code && codes[i].failed < policy.maxAttempts)
            && (verdict == InvalidCode ==>
                  && after == codes
                  && (active && IsSixDigits(code) && (exists i: nat :: Newest(codes, user, now, i)) ==>
                        exists i: nat :: Newest(codes, user, now, i) && codes[i].failed >= policy.maxAttempts))
  {
    var live := LiveAmong(codes, user, now);
    forall j | 0 <= j < |codes|
      ensures Redeemable(codes[j], user, now) <==> Usable(codes[j], user, now)
    {
    }
    if live.Some? {
      assert Newest(codes, user, now, live.value);
    }
    assert IsSixDigits(code) ==> WellFormed(code);
    if WellFormed(code) {
      forall i | 0 <= i < 6
        ensures code[i] in "0123456789"
      {
        DigitsAreListed(code[i]);
      }
    }
  }

  lemma DigitsAreListed(c: char)
    requires '0' <= c <= '9'
    ensures c in "0123456789"
  {
    assert "0123456789"[c as int - '0' as int] == c;
  }

  lemma NewestExists(codes: seq<Code>, user: nat, now: int)
    ensures (exists i | 0 <= i < |codes| :: Redeemable(codes[i], user, now)) ==> exists i: nat :: Newest(codes, user, now, i)
  {
    var live := LiveAmong(codes, user, now);
    if live.Some? {
      assert Newest(codes, user, now, live.value);
    }
  }

  /** Row `i` is the only code the user could redeem, and `code` is another. */
  ghost predicate MissesOnly(codes: seq<Code>, policy: Policy, user: nat, code: string, now: int, i: nat) {
    && i < |codes| && Redeemable(codes[i], user, now) && codes[i].failed < policy.maxAttempts
    && IsSixDigits(code) && codes[i].secret != code
    && forall j | 0 <= j < |codes| && Redeemable(codes[j], user, now) :: j == i
  }

  /** A six-digit code that no redeemable code of an active user spells is wrong,
      and is counted, as long as those are below the cap. */
  lemma OtherCodesAreWrong(codes: seq<Code>, policy: Policy, user: nat, code: string, password: string, now: int, i: nat)
    requires IsSixDigits(code) && i < |codes| && Redeemable(codes[i], user, now)
    requires forall j | 0 <= j < |codes| && Redeemable(codes[j], user, now) ::
               codes[j].secret != code && codes[j].failed < policy.maxAttempts
    ensures AttemptVerdict(codes, policy, true, user, code, password, now) == WrongCode
    ensures MissesOnly(codes, policy, user, code, now, i) ==>
              AfterAttempt(codes, policy, true, user, code, password, now) == codes[i := codes[i].(failed := codes[i].failed + 1)]
  {
    hide AttemptVerdict, AfterAttempt;
    AttemptDecides(codes, policy, true, user, code, password, now);
    NewestExists(codes, user, now);
  }

  lemma MissesAreWrong(codes: seq<Code>, policy: Policy, user: nat, code: string, password: string, now: int)
    ensures forall i: nat | MissesOnly(codes, policy, user, code, now, i) ::
              && AttemptVerdict(codes, policy, true, user, code, password, now) == WrongCode
              && AfterAttempt(codes, policy, true, user, code, password, now) == codes[i := codes[i].(failed := codes[i].failed + 1)]
  {
    hide AttemptVerdict, AfterAttempt;
    forall i: nat | MissesOnly(codes, policy, user, code, now, i)
      ensures AttemptVerdict(codes, policy, true, user, code, password, now) == WrongCode
      ensures AfterAttempt(codes, policy, true, user, code, password, now) == codes[i := codes[i].(failed := codes[i].failed + 1)]
    {
      OtherCodesAreWrong(codes, policy, user, code, password, now, i);
    }
  }

  ghost predicate TooSoon(codes: seq<Code>, policy: Policy, user: nat, now: int) {
    exists i | 0 <= i < |codes| :: codes[i].user == user && now - codes[i].createdAt < policy.cooldown
  }

  ghost predicate TooMany(codes: seq<Code>, policy: Policy, user: nat, now: int) {
    |set i | 0 <= i < |codes| && codes[i].user == user && now - codes[i].createdAt <= 3_600_000_000| >= policy.maxPerHour
  }

  ghost predicate OnceHeld(codes: seq<Code>, user: nat, secret: string) {
    exists i | 0 <= i < |codes| :: codes[i].user == user && codes[i].secret == secret
  }

  lemma LastIssuedIsIssued(codes: seq<Code>, user: nat)
    ensures LastIssued(codes, user).Some? ==>
              exists i | 0 <= i < |codes| :: codes[i].user == user && codes[i].createdAt == LastIssued(codes, user).value
  {
    if codes != [] {
      var n := |codes| - 1;
      LastIssuedIsIssued(codes[..n], user);
      if LastIssued(codes[..n], user).Some? {
        var i :| 0 <= i < n && codes[..n][i].user == user && codes[..n][i].createdAt == LastIssued(codes[..n], user).value;
        assert codes[i].user == user && codes[i].createdAt == LastIssued(codes[..n], user).value;
      }
    }
  }

  /** When a request issues a code, and what it writes, on the rows: the new code
      runs from the call, and every other unused code of the user is used up. */
  lemma RequestDecides(codes: seq<Code>, policy: Policy, active: bool, user: nat, now: int, stamp: int, draw: Draw)
    ensures var issue, after := RequestOutcome(codes, policy, active, user, now, draw),
                                AfterRequest(codes, policy, active, user, now, stamp, draw);
            var refused := !active || TooSoon(codes, policy, user, now) || TooMany(codes, policy, user, now);
            && (issue == Suppressed <==> refused)
            && (issue == Clash <==> !refused && OnceHeld(codes, user, SixDigits(draw)))
            && (issue.Issued? ==> issue.secret == SixDigits(draw))
            && (!issue.Issued? ==> after == codes)
            && (issue.Issued? ==>
                  && |after| == |codes| + 1
                  && after[|codes|] == Code(user, SixDigits(draw), stamp, now + policy.expiry, None, 0)
                  && forall i | 0 <= i < |codes| ::
                       after[i] == if codes[i].user == user && codes[i].usedAt == None then codes[i].(usedAt := Some(now)) else codes[i])
  {
    hide SixDigits;
    LastIssuedIsIssued(codes, user);
    assert IssuedSince(codes, user, now - HOUR) ==
           set i | 0 <= i < |codes| && codes[i].user == user && now - codes[i].createdAt <= 3_600_000_000;
  }

  /** Every reset is in the log, under the row it used up. */
  lemma ResetsAreLogged(policy: Policy, s: State, user: nat, code: string, password: string, now: int)
    ensures var after := Apply(policy, s, Attempt(user, code, password, now));
            if AttemptVerdict(s.codes, policy, user in s.active, user, code, password, now) == Reset then
              && |after.resets| == |s.resets| + 1 && after.resets[..|s.resets|] == s.resets
              && Newest(s.codes, user, now, after.resets[|s.resets|])
              && after.codes[after.resets[|s.resets|]].usedAt == Some(now)
            else after.resets == s.resets
  {
    NewestExists(s.codes, user, now);
    assert forall j | 0 <= j < |s.codes| :: Redeemable(s.codes[j], user, now) <==> Usable(s.codes[j], user, now);
  }

  /** Whatever was redeemed in a run was redeemed by an attempt of its own user,
      who was active, with its own secret, before it expired. */
  lemma {:induction false} RedeemedByItsOwnSecret(policy: Policy, start: State, run: seq<Event>, n: nat) returns (k: nat)
    requires Legal(policy, start, run) && n < |Replay(policy, start, run).resets|
    ensures k < |run| && run[k].Attempt?
    ensures var row, was, end := Replay(policy, start, run).resets[n], Replay(policy, start, run[..k]), Replay(policy, start, run);
            && row < |was.codes| && row < |end.codes|
            && Redeemable(was.codes[row], run[k].user, run[k].now) && run[k].user in was.active
            && was.codes[row].secret == run[k].code && |run[k].password| >= 8
            && end.codes[row].usedAt == Some(run[k].now)
  {
    k := |run| - 1;
    var before, e := run[..k], run[k];
    var s := Replay(policy, start, before);
    if n < |s.resets| {
      k := RedeemedByItsOwnSecret(policy, start, before, n);
      assert before[..k] == run[..k];
      UsedStaysUsed(policy, s, e, s.resets[n]);
    } else {
      AttemptDecides(s.codes, policy, e.user in s.active, e.user, e.code, e.password, e.now);
    }
  }

  lemma UsedStaysUsed(policy: Policy, s: State, e: Event, row: nat)
    requires row < |s.codes| && s.codes[row].usedAt.Some?
    ensures row < |Apply(policy, s, e).codes| && Apply(policy, s, e).codes[row].usedAt == s.codes[row].usedAt
    ensures |s.resets| <= |Apply(policy, s, e).resets|
    ensures Apply(policy, s, e).resets[..|s.resets|] == s.resets
  {
  }

  /** Choosing too weak a password costs nothing: the same code still works. */
  lemma WeakPasswordKeepsTheCode(codes: seq<Code>, policy: Policy, user: nat, code: string, weak: string, strong: string, now: int)
    requires AttemptVerdict(codes, policy, true, user, code, weak, now) == WeakPassword && |strong| >= MIN_PASSWORD
    ensures AttemptVerdict(AfterAttempt(codes, policy, true, user, code, weak, now), policy, true, user, code, strong, now) == Reset
  {
  }
}

/** Refresh-token rotation with reuse detection. Every call is one transaction
    with one clock reading. A raw token is a fresh random value and hashing is
    injective, so a token is named by the position of its row. */
module RefreshTokens {

  import opened Sql

  datatype Token = Token(user: nat, expiresAt: int, revokedAt: Option<int>)

  // ---------------------------------------------------------- repository

  function Revoked(token: Token, now: int): Token {
    if token.revokedAt.None? then token.(revokedAt := Some(now)) else token
  }

  /** `revoke_all_for_user`. */
  function RevokedAll(tokens: seq<Token>, user: nat, now: int): (r: seq<Token>)
    ensures |r| == |tokens|
    ensures forall i | 0 <= i < |tokens| :: r[i] == if tokens[i].user == user then Revoked(tokens[i], now) else tokens[i]
  {
    seq(|tokens|, i requires 0 <= i < |tokens| => if tokens[i].user == user then Revoked(tokens[i], now) else tokens[i])
  }

  // -------------------------------------------------------------- service

  datatype Outcome = Unrecognized | Reused | Expired | Inactive | Rotated

  function RefreshOutcome(tokens: seq<Token>, active: set<nat>, presented: nat, now: int): Outcome {
    if presented >= |tokens| then Unrecognized
    else if tokens[presented].revokedAt.Some? then Reused
    else if tokens[presented].expiresAt <= now then Expired
    else if tokens[presented].user !in active then Inactive
    else Rotated
  }

  function Issued(tokens: seq<Token>, user: nat, now: int, life: int): seq<Token> {
    tokens + [Token(user, now + life, None)]
  }

  function AfterRefresh(tokens: seq<Token>, active: set<nat>, presented: nat, now: int, life: int): seq<Token> {
    match RefreshOutcome(tokens, active, presented, now)
    case Reused => RevokedAll(tokens, tokens[presented].user, now)
    case Rotated => Issued(tokens[presented := Revoked(tokens[presented], now)], tokens[presented].user, now, life)
    case _ => tokens
  }

  function AfterLogout(tokens: seq<Token>, presented: nat, now: int): seq<Token> {
    if presented >= |tokens| then tokens else tokens[presented := Revoked(tokens[presented], now)]
  }

  // ----------------------------------------------------------------- runs

  datatype Event =
    | SetActive(user: nat, active: bool)
    | Login(user: nat, now: int)
    | Refresh(token: nat, now: int)
    | Logout(token: nat, now: int)
    | ResetPassword(user: nat, now: int)

  /** `family` tells the login each token descends from. `exchanged` logs the
      successful refreshes, `out` the tokens logged out, and `swept` those that
      reuse detection or a password reset found and revoked. */
  datatype State = State(
    active: set<nat>,
    tokens: seq<Token>,
    family: seq<nat>,
    exchanged: seq<nat>,
    out: set<nat>,
    swept: set<nat>)

  const EMPTY := State({}, [], [], [], {}, {})

  function OfUser(tokens: seq<Token>, user: nat): set<nat> {
    set i: nat | i < |tokens| && tokens[i].user == user
  }

  ghost function Refreshed(s: State, presented: nat, now: int, life: int): State {
    var tokens := AfterRefresh(s.tokens, s.active, presented, now, life);
    match RefreshOutcome(s.tokens, s.active, presented, now)
    case Reused => s.(tokens := tokens, swept := s.swept + OfUser(s.tokens, s.tokens[presented].user))
    case Rotated =>
      s.(tokens := tokens,
         family := s.family + [if presented < |s.family| then s.family[presented] else |s.tokens|],
         exchanged := s.exchanged + [presented])
    case _ => s
  }

  ghost function Apply(s: State, e: Event, life: int): State {
    match e
    case SetActive(user, active) => s.(active := if active then s.active + {user} else s.active - {user})
    case Login(user, now) => s.(tokens := Issued(s.tokens, user, now, life), family := s.family + [|s.tokens|])
    case Refresh(token, now) => Refreshed(s, token, now, life)
    case Logout(token, now) =>
      s.(tokens := AfterLogout(s.tokens, token, now), out := s.out + if token < |s.tokens| then {token} else {})
    case ResetPassword(user, now) =>
      s.(tokens := RevokedAll(s.tokens, user, now), swept := s.swept + OfUser(s.tokens, user))
  }

  /** Any run is possible, with any clock readings. */
  ghost function Replay(run: seq<Event>, life: int): State {
    if run == [] then EMPTY else Apply(Replay(run[..|run| - 1], life), run[|run| - 1], life)
  }

  // ------------------------------------------------------------ invariant

  /** A token is revoked for one of three reasons, and for no other. */
  ghost predicate RevokedForAReason(s: State) {
    forall i: nat | i < |s.tokens| :: s.tokens[i].revokedAt.Some? <==> i in s.exchanged || i in s.out || i in s.swept
  }

  ghost predicate Known(s: State) {
    && |s.family| == |s.tokens|
    && (forall i: nat | i in s.exchanged || i in s.out || i in s.swept :: i < |s.tokens|)
    && (forall i | 0 <= i < |s.family| :: s.family[i] <= i)
  }

  /** Only the newest token of a family can be unrevoked, and a family stays with
      its user. */
  ghost predicate OneLivePerFamily(s: State) {
    && |s.family| == |s.tokens|
    && forall i, j | 0 <= i < j < |s.tokens| && s.family[i] == s.family[j] ::
         s.tokens[i].revokedAt.Some? && s.tokens[i].user == s.tokens[j].user
  }

  ghost predicate Inv(s: State) {
    Known(s) && RevokedForAReason(s) && OneLivePerFamily(s) && Distinct(s.exchanged)
  }

  lemma RotationKeepsInv(s: State, presented: nat, now: int, life: int)
    requires Inv(s) && RefreshOutcome(s.tokens, s.active, presented, now) == Rotated
    ensures Inv(Refreshed(s, presented, now, life))
  {
    var t := Refreshed(s, presented, now, life);
    assert presented !in s.exchanged;
    assert forall i :: i in t.exchanged <==> i in s.exchanged || i == presented;
    forall i, j | 0 <= i < j < |t.tokens| && t.family[i] == t.family[j]
      ensures t.tokens[i].revokedAt.Some? && t.tokens[i].user == t.tokens[j].user
    {
      if j == |s.tokens| && i < presented {
        assert s.family[i] == s.family[presented];
      }
    }
  }

  lemma SweepKeepsInv(s: State, user: nat, now: int)
    requires Inv(s)
    ensures Inv(s.(tokens := RevokedAll(s.tokens, user, now), swept := s.swept + OfUser(s.tokens, user)))
  {
  }

  lemma StepKeepsInv(s: State, e: Event, life: int)
    requires Inv(s)
    ensures Inv(Apply(s, e, life))
  {
    match e
    case Refresh(token, now) =>
      match RefreshOutcome(s.tokens, s.active, token, now) {
        case Reused => SweepKeepsInv(s, s.tokens[token].user, now);
        case Rotated => RotationKeepsInv(s, token, now, life);
        case _ =>
      }
    case ResetPassword(user, now) => SweepKeepsInv(s, user, now);
    case _ =>
  }

  lemma {:induction false} RunsKeepInv(run: seq<Event>, life: int)
    ensures Inv(Replay(run, life))
  {
    if run != [] {
      RunsKeepInv(run[..|run| - 1], life);
      StepKeepsInv(Replay(run[..|run| - 1], life), run[|run| - 1], life);
    }
  }

  // ----------------------------------------------------------------- laws

  /** No token is ever exchanged twice. */
  lemma ExchangedAtMostOnce(run: seq<Event>, life: int)
    ensures Distinct(Replay(run, life).exchanged)
  {
    RunsKeepInv(run, life);
  }

  /** Of the tokens that descend from one login, at most the newest is alive. */
  lemma FamilyHasOneLiveToken(run: seq<Event>, life: int, i: nat, j: nat)
    requires var s := Replay(run, life); i < j < |s.tokens| && |s.family| == |s.tokens| && s.family[i] == s.family[j]
    ensures Replay(run, life).tokens[i].revokedAt.Some?
  {
    RunsKeepInv(run, life);
  }

  /** Reuse detection never fires on a token that was neither exchanged, nor
      logged out, nor swept; and on those it always does. */
  lemma ReuseIsDetectedIff(run: seq<Event>, life: int, token: nat, now: int)
    requires token < |Replay(run, life).tokens|
    ensures var s := Replay(run, life);
            RefreshOutcome(s.tokens, s.active, token, now) == Reused
            <==> token in s.exchanged || token in s.out || token in s.swept
  {
    RunsKeepInv(run, life);
  }

  ghost function Unrevoked(tokens: seq<Token>, user: nat): set<int> {
    set i | 0 <= i < |tokens| && tokens[i].user == user && tokens[i].revokedAt.None?
  }

  lemma RevokeOneCount(tokens: seq<Token>, i: nat, now: int, user: nat)
    requires i < |tokens| && tokens[i].revokedAt.None?
    ensures |Unrevoked(tokens[i := Revoked(tokens[i], now)], user)| == |Unrevoked(tokens, user)| - if tokens[i].user == user then 1 else 0
  {
    var after := tokens[i := Revoked(tokens[i], now)];
    if tokens[i].user == user {
      assert Unrevoked(tokens, user) == Unrevoked(after, user) + {i};
    } else {
      assert Unrevoked(after, user) == Unrevoked(tokens, user);
    }
  }

  lemma IssueOneCount(tokens: seq<Token>, owner: nat, now: int, life: int, user: nat)
    ensures |Unrevoked(Issued(tokens, owner, now, life), user)| == |Unrevoked(tokens, user)| + if owner == user then 1 else 0
  {
    assert Unrevoked(Issued(tokens, owner, now, life), user) == Unrevoked(tokens, user) + if owner == user then {|tokens|} else {};
  }

  /** A successful refresh swaps one live token of the user for another, and
      leaves everybody else's alone. */
  lemma RotationPreservesCount(tokens: seq<Token>, active: set<nat>, presented: nat, now: int, life: int, user: nat)
    requires RefreshOutcome(tokens, active, presented, now) == Rotated
    ensures |Unrevoked(AfterRefresh(tokens, active, presented, now, life), user)| == |Unrevoked(tokens, user)|
  {
    RevokeOneCount(tokens, presented, now, user);
    IssueOneCount(tokens[presented := Revoked(tokens[presented], now)], tokens[presented].user, now, life, user);
  }

  /** Rows are only added; a user stays, an expiry stays, a revocation stays as
      it was first written. */
  ghost predicate Grows(before: seq<Token>, after: seq<Token>) {
    && |before| <= |after|
    && forall i | 0 <= i < |before| ::
         && after[i].user == before[i].user && after[i].expiresAt == before[i].expiresAt
         && (before[i].revokedAt.Some? ==> after[i].revokedAt == before[i].revokedAt)
  }

  lemma StepGrows(s: State, e: Event, life: int)
    ensures Grows(s.tokens, Apply(s, e, life).tokens)
  {
  }

  lemma {:induction false} RevocationIsFinal(run: seq<Event>, life: int, k: nat)
    requires k <= |run|
    ensures Grows(Replay(run[..k], life).tokens, Replay(run, life).tokens)
  {
    if k == |run| {
      assert run[..k] == run;
    } else {
      var shorter := run[..|run| - 1];
      assert shorter[..k] == run[..k];
      RevocationIsFinal(shorter, life, k);
      StepGrows(Replay(shorter, life), run[|run| - 1], life);
    }
  }

  /** `e` is a reuse of a token of the user, or a password reset of theirs. */
  ghost predicate Sweeps(s: State, e: Event, user: nat) {
    match e
    case ResetPassword(u, _) => u == user
    case Refresh(token, now) =>
      RefreshOutcome(s.tokens, s.active, token, now) == Reused && s.tokens[token].user == user
    case _ => false
  }

  /** Once a token of the user is reused, or their password reset, no token they
      had by then ever refreshes again, whatever follows. */
  lemma SweepIsForEver(run: seq<Event>, life: int, k: nat, user: nat, token: nat, now: int)
    requires k < |run| && Sweeps(Replay(run[..k], life), run[k], user)
    requires token < |Replay(run[..k], life).tokens| && Replay(run[..k], life).tokens[token].user == user
    ensures RefreshOutcome(Replay(run, life).tokens, Replay(run, life).active, token, now) == Reused
  {
    var s := Replay(run[..k], life);
    assert run[..k + 1][..k] == run[..k];
    assert Replay(run[..k + 1], life) == Apply(s, run[k], life);
    assert Replay(run[..k + 1], life).tokens[token].revokedAt.Some?;
    RevocationIsFinal(run, life, k + 1);
  }

  /** Stolen tokens: when a token that was exchanged once is presented again, the
      thief and the victim both lose every token of the account. */
  lemma TheftEndsTheSession(run: seq<Event>, life: int, token: nat, now: int, other: nat, later: int)
    requires token in Replay(run, life).exchanged
    requires other < |Replay(run, life).tokens|
    requires token < |Replay(run, life).tokens| && Replay(run, life).tokens[other].user == Replay(run, life).tokens[token].user
    ensures var s := Replay(run, life);
            var t := Apply(s, Refresh(token, now), life);
            && RefreshOutcome(s.tokens, s.active, token, now) == Reused
            && RefreshOutcome(t.tokens, t.active, other, later) == Reused
            && |t.tokens| == |s.tokens|
  {
    RunsKeepInv(run, life);
  }

  // ------------------------------------------------------------- lifetimes

  /** The step that issued row `token`: a login of its user, or an exchange of a
      token of its user; it fixed when the row expires. */
  ghost predicate IssuedBy(run: seq<Event>, life: int, token: nat, j: nat) {
    && j < |run| && (run[j].Login? || run[j].Refresh?)
    && |Replay(run[..j], life).tokens| == token < |Replay(run, life).tokens|
    && var row := Replay(run, life).tokens[token];
       && row.expiresAt == run[j].now + life
       && (run[j].Login? ==> row.user == run[j].user)
       && (run[j].Refresh? ==> run[j].token < token && Replay(run, life).tokens[run[j].token].user == row.user)
  }

  lemma {:induction false} EveryTokenWasIssued(run: seq<Event>, life: int, token: nat) returns (j: nat)
    requires token < |Replay(run, life).tokens|
    ensures IssuedBy(run, life, token, j)
  {
    j := |run| - 1;
    var before := run[..j];
    StepGrows(Replay(before, life), run[j], life);
    if token < |Replay(before, life).tokens| {
      j := EveryTokenWasIssued(before, life, token);
      assert before[..j] == run[..j];
    }
  }

  /** Token `token` was exchanged at step `k`: it was not revoked, its user was
      active, and it had not expired. */
  ghost predicate ExchangedBy(run: seq<Event>, life: int, token: nat, k: nat) {
    && k < |run| && run[k].Refresh? && run[k].token == token
    && var s := Replay(run[..k], life);
       && token < |s.tokens| && s.tokens[token].revokedAt == None
       && s.tokens[token].user in s.active && run[k].now < s.tokens[token].expiresAt
  }

  lemma {:induction false} ExchangeIsAStep(run: seq<Event>, life: int, token: nat) returns (k: nat)
    requires token in Replay(run, life).exchanged
    ensures ExchangedBy(run, life, token, k)
  {
    k := |run| - 1;
    var before := run[..k];
    if token in Replay(before, life).exchanged {
      k := ExchangeIsAStep(before, life, token);
      assert before[..k] == run[..k];
    }
  }

  lemma PrefixesGrow(run: seq<Event>, life: int, k: nat, j: nat)
    requires k <= j <= |run|
    ensures Grows(Replay(run[..k], life).tokens, Replay(run[..j], life).tokens)
  {
    RevocationIsFinal(run[..j], life, k);
    assert run[..j][..k] == run[..k];
  }

  /** No session outlives its tokens: whatever was exchanged in a run was issued
      less than a token's life before, to a user who was still active. */
  lemma ExchangesAreInTime(run: seq<Event>, life: int, token: nat) returns (j: nat, k: nat)
    requires token in Replay(run, life).exchanged
    ensures ExchangedBy(run, life, token, k) && IssuedBy(run, life, token, j)
    ensures j < k && run[k].now < run[j].now + life
  {
    RunsKeepInv(run, life);
    k := ExchangeIsAStep(run, life, token);
    j := EveryTokenWasIssued(run, life, token);
    RevocationIsFinal(run, life, k);
    if k <= j {
      PrefixesGrow(run, life, k, j);
    }
  }
}

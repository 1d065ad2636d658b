/** The service calls on accounts, refresh tokens and reset codes. Accounts are
    named by id: `account` is what the lookup of a normalized email finds. */
module AuthService {

  import opened Sql
  import L = LoginLockout
  import R = RefreshTokens
  import C = ResetCodes

  datatype User = User(password: string, active: bool, login: L.Account)

  datatype Settings = Settings(limits: L.Limits, tokenLife: int, codes: C.Policy)

  /** The row number of the new token, or the exception. */
  datatype TokenResult = Token(id: nat) | InvalidCredentials | Refused(outcome: R.Outcome)

  function Actives(users: map<nat, User>): set<nat> {
    set u | u in users && users[u].active
  }

  function AfterLogin(user: User, settings: Settings, password: string, now: int, stamp: int): User {
    user.(login := L.AfterAttempt(user.login, settings.limits, user.active, password == user.password, now, stamp))
  }

  class AuthService {
    const settings: Settings
    var users: map<nat, User>
    var tokens: seq<R.Token>
    var codes: seq<C.Code>

    constructor (settings: Settings, users: map<nat, User>)
      ensures this.settings == settings && this.users == users && tokens == [] && codes == []
    {
      this.settings, this.users, tokens, codes := settings, users, [], [];
    }

    method IssueToken(user: nat, now: int) returns (id: nat)
      modifies this`tokens
      ensures tokens == R.Issued(old(tokens), user, now, settings.tokenLife)
      ensures id == |old(tokens)|
    {
      id := |tokens|;
      tokens := tokens + [R.Token(user, now + settings.tokenLife, None)];
    }

    method Login(account: Option<nat>, password: string, now: int, stamp: int) returns (r: TokenResult)
      requires account.Some? ==> account.value in users
      modifies this`users, this`tokens
      ensures account.None? ==> r == InvalidCredentials && users == old(users)
      ensures account.Some? ==>
                users == old(users)[account.value := AfterLogin(old(users)[account.value], settings, password, now, stamp)]
      ensures r.Token? <==>
                account.Some? &&
                var u := old(users)[account.value];
                L.AttemptOutcome(u.login, u.active, password == u.password, now) == L.LoggedIn
      ensures r.Token? || r == InvalidCredentials
      // On the columns: who gets in, and what becomes of the account.
      ensures r.Token? <==>
                account.Some? &&
                var u := old(users)[account.value];
                u.active && u.password == password && (u.login.lockedUntil == None || u.login.lockedUntil.value <= now)
      ensures account.Some? ==>
                var u, v := old(users)[account.value], users[account.value];
                var locked := u.login.lockedUntil != None && now < u.login.lockedUntil.value;
                && v.password == u.password && v.active == u.active
                && (!u.active || locked ==> v.login == u.login)
                && (u.active && !locked && password == u.password ==> v.login == L.Account(0, None))
                && (u.active && !locked && password != u.password ==>
                      && v.login.failed == (if u.login.lockedUntil == None then u.login.failed + 1 else 1)
                      && v.login.lockedUntil ==
                         if v.login.failed < settings.limits.maxAttempts then None else Some(stamp + settings.limits.lockout))
      ensures r.Token? ==> tokens == old(tokens) + [R.Token(account.value, stamp + settings.tokenLife, None)]
      ensures tokens == if r.Token? then R.Issued(old(tokens), account.value, stamp, settings.tokenLife) else old(tokens)
      ensures r.Token? ==> r.id == |old(tokens)|
    {
      if account.None? {
        return InvalidCredentials;
      }
      var user := users[account.value];
      var locked := user.login.lockedUntil.Some? && user.login.lockedUntil.value > now;
      if !user.active || locked {
        assert users == users[account.value := user];
        return InvalidCredentials;
      }
      if user.login.lockedUntil.Some? {
        user := user.(login := L.Account(0, None));
      }
      if password != user.password {
        var failed := user.login.failed + 1;
        user := user.(login := user.login.(failed := failed));
        if failed >= settings.limits.maxAttempts {
          user := user.(login := user.login.(lockedUntil := Some(stamp + settings.limits.lockout)));
        }
        users := users[account.value := user];
        return InvalidCredentials;
      }
      users := users[account.value := user.(login := L.Account(0, None))];
      var id := IssueToken(account.value, stamp);
      r := Token(id);
    }

    method Revoke(id: nat, now: int)
      requires id < |tokens|
      modifies this`tokens
      ensures tokens == old(tokens)[id := R.Revoked(old(tokens)[id], now)]
    {
      if tokens[id].revokedAt.None? {
        tokens := tokens[id := tokens[id].(revokedAt := Some(now))];
      }
    }

    method RevokeAllForUser(user: nat, now: int)
      modifies this`tokens
      ensures tokens == R.RevokedAll(old(tokens), user, now)
    {
      tokens := R.RevokedAll(tokens, user, now);
    }

    method Refresh(presented: nat, now: int) returns (r: TokenResult)
      modifies this`tokens
      ensures tokens == R.AfterRefresh(old(tokens), Actives(users), presented, now, settings.tokenLife)
      ensures var outcome := R.RefreshOutcome(old(tokens), Actives(users), presented, now);
              r == if outcome.Rotated? then Token(|old(tokens)|) else Refused(outcome)
      // On the rows: which token is exchanged, for what, and what the others lose.
      ensures r.Token? <==>
                && presented < |old(tokens)| && old(tokens)[presented].revokedAt == None
                && now < old(tokens)[presented].expiresAt
                && old(tokens)[presented].user in users && users[old(tokens)[presented].user].active
      ensures r.Token? ==>
                var was := old(tokens)[presented];
                && tokens == old(tokens)[presented := was.(revokedAt := Some(now))]
                             + [R.Token(was.user, now + settings.tokenLife, None)]
                && r.id == |old(tokens)|
      ensures r == Refused(R.Unrecognized) <==> presented >= |old(tokens)|
      ensures r == Refused(R.Reused) <==> presented < |old(tokens)| && old(tokens)[presented].revokedAt != None
      ensures r == Refused(R.Expired) <==>
                presented < |old(tokens)| && old(tokens)[presented].revokedAt == None && old(tokens)[presented].expiresAt <= now
      ensures r == Refused(R.Reused) ==>
                && |tokens| == |old(tokens)|
                && forall i | 0 <= i < |tokens| ::
                     tokens[i] == if old(tokens)[i].user == old(tokens)[presented].user && old(tokens)[i].revokedAt == None
                                  then old(tokens)[i].(revokedAt := Some(now)) else old(tokens)[i]
      ensures !r.Token? && r != Refused(R.Reused) ==> tokens == old(tokens)
    {
      if presented >= |tokens| {
        return Refused(R.Unrecognized);
      }
      var stored := tokens[presented];
      if stored.revokedAt.Some? {
        RevokeAllForUser(stored.user, now);
        return Refused(R.Reused);
      }
      if stored.expiresAt <= now {
        return Refused(R.Expired);
      }
      if stored.user !in users || !users[stored.user].active {
        return Refused(R.Inactive);
      }
      Revoke(presented, now);
      var id := IssueToken(stored.user, now);
      r := Token(id);
    }

    method Logout(presented: nat, now: int)
      modifies this`tokens
      ensures tokens == R.AfterLogout(old(tokens), presented, now)
      ensures |tokens| == |old(tokens)|
      ensures forall i | 0 <= i < |tokens| ::
                tokens[i] == if i == presented && old(tokens)[i].revokedAt == None
                             then old(tokens)[i].(revokedAt := Some(now)) else old(tokens)[i]
    {
      if presented < |tokens| {
        Revoke(presented, now);
      }
    }

    method SupersedeUnusedForUser(user: nat, now: int)
      modifies this`codes
      ensures codes == C.Superseded(old(codes), user, now)
    {
      codes := C.Superseded(codes, user, now);
    }

    /** A repeated code fails on insert; the superseding update before it is then
        rolled back with the rest of the transaction. */
    method RequestPasswordReset(account: Option<nat>, now: int, stamp: int, draw: C.Draw) returns (r: C.Issue)
      requires account.Some? ==> account.value in users
      modifies this`codes
      ensures account.None? ==> r == C.Suppressed && codes == old(codes)
      ensures account.Some? ==>
                && r == C.RequestOutcome(old(codes), settings.codes, users[account.value].active, account.value, now, draw)
                && codes == C.AfterRequest(old(codes), settings.codes, users[account.value].active, account.value, now, stamp, draw)
      ensures r.Issued? <==>
                && account.Some? && users[account.value].active
                && !C.TooSoon(old(codes), settings.codes, account.value, now)
                && !C.TooMany(old(codes), settings.codes, account.value, now)
                && !C.OnceHeld(old(codes), account.value, C.SixDigits(draw))
    {
      hide C.SixDigits;
      if account.Some? {
        C.RequestDecides(codes, settings.codes, users[account.value].active, account.value, now, stamp, draw);
      }
      if account.None? || !users[account.value].active {
        return C.Suppressed;
      }
      var user, policy := account.value, settings.codes;
      var last := C.LastIssued(codes, user);
      if last.Some? && now - last.value < policy.cooldown {
        return C.Suppressed;
      }
      if |C.IssuedSince(codes, user, now - C.HOUR)| >= policy.maxPerHour {
        return C.Suppressed;
      }
      var code := C.SixDigits(draw);
      var committed := codes;
      SupersedeUnusedForUser(user, now);
      if C.Held(codes, user, code) {
        SupersededHolds(committed, user, now, code);
        codes := committed;
        return C.Clash;
      }
      SupersededHolds(committed, user, now, code);
      codes := codes + [C.Code(user, code, stamp, now + policy.expiry, None, 0)];
      r := C.Issued(code);
    }

    /** The conditional update; `claimed` when it matched the row. */
    method ClaimForReset(id: nat, now: int) returns (claimed: bool)
      requires id < |codes|
      modifies this`codes
      ensures claimed == (old(codes)[id].usedAt.None? && old(codes)[id].expiresAt > now && old(codes)[id].failed < settings.codes.maxAttempts)
      ensures codes == if claimed then old(codes)[id := old(codes)[id].(usedAt := Some(now))] else old(codes)
    {
      claimed := codes[id].usedAt.None? && codes[id].expiresAt > now && codes[id].failed < settings.codes.maxAttempts;
      if claimed {
        codes := codes[id := codes[id].(usedAt := Some(now))];
      }
    }

    method ResetPassword(account: Option<nat>, code: string, password: string, now: int) returns (verdict: C.Verdict)
      requires account.Some? ==> account.value in users
      modifies this
      ensures account.None? ==> verdict == C.InvalidCode && users == old(users) && codes == old(codes) && tokens == old(tokens)
      ensures account.Some? ==>
                var active := old(users)[account.value].active;
                && verdict == C.AttemptVerdict(old(codes), settings.codes, active, account.value, code, password, now)
                && codes == C.AfterAttempt(old(codes), settings.codes, active, account.value, code, password, now)
      ensures verdict.Reset? ==>
                && users == old(users)[account.value := old(users)[account.value].(password := password)]
                && tokens == R.RevokedAll(old(tokens), account.value, now)
      ensures !verdict.Reset? ==> users == old(users) && tokens == old(tokens)
      // On the rows: what has to be known, and what a different code does.
      ensures verdict.Reset? ==>
                && account.Some? && old(users)[account.value].active && |password| >= 8
                && exists i | 0 <= i < |old(codes)| ::
                     && old(codes)[i].user == account.value && old(codes)[i].usedAt == None && now < old(codes)[i].expiresAt
                     && old(codes)[i].failed < settings.codes.maxAttempts && old(codes)[i].secret == code
                     && codes == old(codes)[i := old(codes)[i].(usedAt := Some(now))]
      ensures forall i: nat | account.Some? && old(users)[account.value].active
                              && C.MissesOnly(old(codes), settings.codes, account.value, code, now, i) ::
                verdict == C.WrongCode && codes == old(codes)[i := old(codes)[i].(failed := old(codes)[i].failed + 1)]
    {
      hide C.MissesOnly;
      if account.Some? && users[account.value].active {
        C.AttemptDecides(codes, settings.codes, true, account.value, code, password, now);
        C.MissesAreWrong(codes, settings.codes, account.value, code, password, now);
      }
      if !C.WellFormed(code) || account.None? || !users[account.value].active {
        return C.InvalidCode;
      }
      var user := account.value;
      var live := C.LiveAmong(codes, user, now);
      if live.None? || codes[live.value].failed >= settings.codes.maxAttempts {
        return C.InvalidCode;
      }
      if code != codes[live.value].secret {
        codes := codes[live.value := codes[live.value].(failed := codes[live.value].failed + 1)];
        return C.WrongCode;
      }
      if |password| < C.MIN_PASSWORD {
        return C.WeakPassword;
      }
      var claimed := ClaimForReset(live.value, now);
      if !claimed {
        return C.InvalidCode;
      }
      users := users[user := users[user].(password := password)];
      RevokeAllForUser(user, now);
      verdict := C.Reset;
    }
  }

  lemma SupersededHolds(codes: seq<C.Code>, user: nat, now: int, code: string)
    ensures C.Held(C.Superseded(codes, user, now), user, code) == C.Held(codes, user, code)
  {
    if C.Held(codes, user, code) {
      var i :| 0 <= i < |codes| && codes[i].user == user && codes[i].secret == code;
      assert C.Superseded(codes, user, now)[i].secret == code;
    }
  }

  /** A completed reset signs the account out everywhere, with the new password
      in place; and every code is spent, provided that only the newest was left
      unused, as it is in every run of requests and attempts. */
  method ResetSignsOutEverywhere(service: AuthService, user: nat, code: string, password: string, now: int, token: nat, later: int)
    returns (verdict: C.Verdict)
    requires user in service.users && token < |service.tokens| && service.tokens[token].user == user
    modifies service
    ensures verdict.Reset? ==>
              && user in service.users && service.users[user].password == password
              && R.RefreshOutcome(service.tokens, Actives(service.users), token, later) == R.Reused
    ensures verdict.Reset? && C.OnlyNewestUnused(old(service.codes)) ==>
              forall on, other, again, after ::
                C.AttemptVerdict(service.codes, service.settings.codes, on, user, other, again, after) == C.InvalidCode
  {
    ghost var codes, active := service.codes, service.users[user].active;
    verdict := service.ResetPassword(Some(user), code, password, now);
    if verdict.Reset? && C.OnlyNewestUnused(codes) {
      C.ResetSpendsEveryCode(codes, service.settings.codes, active, user, code, password, now);
    }
  }
}

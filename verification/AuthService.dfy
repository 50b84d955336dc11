/** The login service. The request's session is an entry of `sessions`; a missing entry is a missing session. */
module AuthService {
  import opened Accounts
  import opened Basics
  import opened Login
  import Twofa
  import TwofaService

  class Auth {
    const twofa: TwofaService.TwoFactor
    var sessions: map<string, Session>
    var ms: int

    constructor (twofa: TwofaService.TwoFactor, ms: int)
      ensures this.twofa == twofa && sessions == map[] && this.ms == ms
    {
      this.twofa := twofa;
      this.sessions := map[];
      this.ms := ms;
    }

    function State(): World
      reads this, twofa, twofa.redis
    {
      World(twofa.State(), sessions, ms)
    }

    method FindUserByEmail(email: string) returns (id: Option<string>)
      requires UniqueEmails(twofa.users)
      ensures id == Lookup(twofa.users, email)
    {
      var todo := twofa.users.Keys;
      while todo != {}
        invariant todo <= twofa.users.Keys
        invariant forall other :: other in twofa.users.Keys - todo ==> twofa.users[other].email != email
      {
        var candidate :| candidate in todo;
        if twofa.users[candidate].email == email {
          return Some(candidate);
        }
        todo := todo - {candidate};
      }
      id := None;
    }

    method LogIn(sid: string, email: string, password: string, crypto: Crypto)
      returns (result: Result<Answer, HttpError>)
      requires UniqueEmails(twofa.users)
      modifies this
      ensures (State(), result) == Enter(old(State()), sid, email, password, crypto)
    {
      var found := FindUserByEmail(email);
      if found.None? || !crypto.compare(password, twofa.users[found.value].password) {
        return Err(Unauthorized);
      }
      var user := twofa.users[found.value];
      if user.security.None? || !user.security.value.isVerified {
        return Err(Forbidden);
      }
      var sec := user.security.value;
      if sec.isBanned {
        return Err(Forbidden);
      }
      if sec.isTimedOut {
        var until := sec.timedOutUntil;
        if until.Some? && until.value > ms {
          return Err(Forbidden);
        }
      }
      if sec.isTwoFactorEnabled {
        if sid in sessions {
          var pendingLogin := Pending(found.value, user.email, ms);
          sessions := sessions[sid := sessions[sid].(pending := Some(pendingLogin))];
        }
        return Ok(NeedsCode);
      }
      if sid !in sessions {
        return Err(InternalError);
      }
      sessions := sessions[sid := sessions[sid].(user := Some(found.value))];
      result := Ok(LoggedIn(found.value));
    }

    method VerifyLogin2fa(sid: string, email: string, code: string, crypto: Crypto)
      returns (result: Result<Answer, HttpError>)
      requires UniqueEmails(twofa.users)
      modifies this, twofa, twofa.redis
      ensures (State(), result) == Confirm(old(State()), sid, email, code, crypto)
    {
      if sid !in sessions || sessions[sid].pending.None? {
        return Err(BadRequest);
      }
      var pendingLogin := sessions[sid].pending.value;
      if ms - pendingLogin.createdAt > PENDING_TIMEOUT {
        sessions := sessions[sid := sessions[sid].(pending := None)];
        return Err(BadRequest);
      }
      if pendingLogin.email != email {
        return Err(BadRequest);
      }
      var found := FindUserByEmail(email);
      if found != Some(pendingLogin.userId) {
        return Err(NotFound);
      }
      var security := twofa.users[found.value].security;
      if security.None? || !security.value.isTwoFactorEnabled {
        sessions := sessions[sid := sessions[sid].(pending := None)];
        return Err(BadRequest);
      }
      var verified, attempt := twofa.VerifyTwoFactor(found.value, code, crypto);
      if verified.Err? {
        return Err(Unauthorized);
      }
      sessions := sessions[sid := sessions[sid].(pending := None)];
      sessions := sessions[sid := sessions[sid].(user := found)];
      assert sessions == old(sessions)[sid := Session(None, found)];
      result := Ok(LoggedIn(found.value));
    }

    method LogOut(sid: string)
      modifies this
      ensures State() == Leave(old(State()), sid)
    {
      sessions := sessions - {sid};
    }
  }
}

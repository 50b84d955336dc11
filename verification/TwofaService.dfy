/** The two-factor service over the user table and the Redis service. */
module TwofaService {
  import opened Accounts
  import opened Basics
  import opened RedisModel
  import RedisService
  import Twofa

  class TwoFactor {
    const redis: RedisService.Redis
    var users: map<string, User>

    constructor (redis: RedisService.Redis, users: map<string, User>)
      ensures this.redis == redis && this.users == users
    {
      this.redis := redis;
      this.users := users;
    }

    function State(): Twofa.State
      reads this, redis
    {
      Twofa.State(users, redis.State())
    }

    // ---------- the attempt counter ----------

    method CheckRateLimit(userId: string) returns (limited: bool)
      ensures limited <==> Twofa.Attempts(redis.State(), userId) >= 5
    {
      var attempts := redis.Get(Twofa.RateKey(userId));
      limited := attempts.Some? && attempts.value.Int? && attempts.value.n >= Twofa.LIMIT;
    }

    method IncrementRateLimit(userId: string)
      modifies redis
      ensures redis.State() == Twofa.Count(old(redis.State()), userId)
    {
      var attempts := redis.Get(Twofa.RateKey(userId));
      var count := if attempts.Some? && attempts.value.Int? then attempts.value.n else 0;
      redis.Set(Twofa.RateKey(userId), Int(count + 1), Twofa.LOCKOUT);
    }

    method ResetRateLimit(userId: string)
      modifies redis
      ensures redis.State() == Twofa.Forgive(old(redis.State()), userId)
    {
      var _ := redis.Del({Twofa.RateKey(userId)});
    }

    // ---------- backup codes ----------

    static method GenerateBackupCodes(random: nat -> seq<Byte>) returns (codes: seq<string>)
      ensures codes == Twofa.NewCodes(random)
    {
      codes := [];
      for i := 0 to Twofa.CODE_COUNT
        invariant codes == Twofa.NewCodes(random)[..i]
      {
        codes := codes + [Twofa.Hex(random(i))];
      }
    }

    static method VerifyBackupCode(code: string, hashedCodes: seq<string>, crypto: Crypto) returns (valid: bool)
      ensures valid <==> Twofa.Matches(code, hashedCodes, crypto)
    {
      for i := 0 to |hashedCodes|
        invariant forall j :: 0 <= j < i ==> !crypto.compare(code, hashedCodes[j])
      {
        if crypto.compare(code, hashedCodes[i]) {
          return true;
        }
      }
      valid := false;
    }

    static method RemoveBackupCode(code: string, hashedCodes: seq<string>, crypto: Crypto) returns (updated: seq<string>)
      ensures updated == Twofa.RemoveFirst(code, hashedCodes, crypto)
    {
      updated := [];
      var found := false;
      for i := 0 to |hashedCodes|
        invariant Twofa.RemoveFirst(code, hashedCodes, crypto) == updated + Remaining(found, code, hashedCodes[i..], crypto)
      {
        ghost var rest := hashedCodes[i..];
        assert rest[0] == hashedCodes[i] && rest[1..] == hashedCodes[i + 1..];
        RemainingStep(found, code, rest, crypto);
        if !found && crypto.compare(code, hashedCodes[i]) {
          found := true;
          continue;
        }
        updated := updated + [hashedCodes[i]];
      }
    }

    /** What the loop still adds for the hashes `rest`. */
    static ghost function Remaining(found: bool, code: string, rest: seq<string>, crypto: Crypto): seq<string> {
      if found then rest else Twofa.RemoveFirst(code, rest, crypto)
    }

    static lemma RemainingStep(found: bool, code: string, rest: seq<string>, crypto: Crypto)
      requires rest != []
      ensures Remaining(found, code, rest, crypto) ==
        if !found && crypto.compare(code, rest[0]) then Remaining(true, code, rest[1..], crypto)
        else [rest[0]] + Remaining(found, code, rest[1..], crypto)
    {
    }

    // ---------- the operations ----------

    method SaveRecord(userId: string, sec: Security)
      requires userId in users && users[userId].security.Some?
      modifies this
      ensures State() == Twofa.WithRecord(old(State()), userId, sec)
    {
      users := users[userId := users[userId].(security := Some(sec))];
    }

    method SetupTwoFactor(userId: string, password: string, secret: string, crypto: Crypto)
      returns (result: Result<string, HttpError>)
      modifies this
      ensures State() == Twofa.Setup(old(State()), userId, password, secret, crypto).0
      ensures result == match Twofa.Setup(old(State()), userId, password, secret, crypto).1
                        case Some(error) => Err(error)
                        case None => Ok(secret)
    {
      if userId !in users || users[userId].security.None? {
        return Err(NotFound);
      }
      if !crypto.compare(password, users[userId].password) {
        return Err(Unauthorized);
      }
      var sec := users[userId].security.value;
      if sec.isTwoFactorEnabled {
        return Err(BadRequest);
      }
      SaveRecord(userId, sec.(twoFactorToken := Some(secret)));
      result := Ok(secret);
    }

    method EnableTwoFactor(userId: string, code: string, random: nat -> seq<Byte>, hash: (string, nat) -> string,
                           crypto: Crypto)
      returns (result: Result<seq<string>, HttpError>)
      modifies this, redis
      ensures var hashes := Twofa.Hashed(Twofa.NewCodes(random), hash);
        var (after, error) := Twofa.Enable(old(State()), userId, code, hashes, crypto);
        && State() == after
        && result == match error case Some(e) => Err(e) case None => Ok(Twofa.NewCodes(random))
    {
      if userId !in users || users[userId].security.None? {
        return Err(NotFound);
      }
      var sec := users[userId].security.value;
      if sec.isTwoFactorEnabled || !Twofa.Present(sec.twoFactorToken) {
        return Err(BadRequest);
      }
      var secret := sec.twoFactorToken.value;
      if !crypto.totp(secret, code, redis.now) {
        IncrementRateLimit(userId);
        return Err(BadRequest);
      }
      ResetRateLimit(userId);
      var backupCodes := GenerateBackupCodes(random);
      SaveRecord(userId, Twofa.Enabled(sec, Twofa.Hashed(backupCodes, hash), redis.now, crypto));
      result := Ok(backupCodes);
    }

    /** Attempts that are refused or fail are errors to the caller. */
    method VerifyTwoFactor(userId: string, givenCode: string, crypto: Crypto)
      returns (result: Result<bool, HttpError>, ghost attempt: Twofa.Attempt)
      modifies this, redis
      ensures (State(), attempt) == Twofa.Verify(old(State()), userId, givenCode, crypto)
      ensures result == if attempt.Accepted? then Ok(true) else Err(attempt.error)
    {
      attempt := Twofa.Judge(State(), userId, givenCode, crypto);
      var limited := CheckRateLimit(userId);
      if limited {
        return Err(BadRequest), attempt;
      }
      if userId !in users || users[userId].security.None? {
        return Err(NotFound), attempt;
      }
      var sec := users[userId].security.value;
      if !sec.isTwoFactorEnabled {
        return Err(BadRequest), attempt;
      }
      var code := crypto.upper(givenCode);
      if |code| == 8 {
        var valid := false;
        if Twofa.HasCodes(sec) {
          valid := VerifyBackupCode(code, sec.backupCodes.value, crypto);
        }
        if !valid {
          IncrementRateLimit(userId);
          return Err(BadRequest), attempt;
        }
        var updatedCodes := RemoveBackupCode(code, sec.backupCodes.value, crypto);
        SaveRecord(userId, sec.(backupCodes := Some(updatedCodes), lastVerified := Some(redis.now)));
        ResetRateLimit(userId);
        return Ok(true), attempt;
      }
      if !Twofa.SixDigits(code) || !Twofa.Present(sec.twoFactorSecret) {
        IncrementRateLimit(userId);
        return Err(BadRequest), attempt;
      }
      var decrypted := crypto.decrypt(sec.twoFactorSecret.value);
      if decrypted.None? {
        return Err(InternalError), attempt;
      }
      if !crypto.totp(decrypted.value, code, redis.now) {
        IncrementRateLimit(userId);
        return Err(BadRequest), attempt;
      }
      SaveRecord(userId, sec.(lastVerified := Some(redis.now)));
      ResetRateLimit(userId);
      result := Ok(true);
    }

    method DisableTwoFactor(userId: string, password: string, crypto: Crypto) returns (error: Option<HttpError>)
      modifies this, redis
      ensures (State(), error) == Twofa.Disable(old(State()), userId, password, crypto)
    {
      if userId !in users || users[userId].security.None? {
        return Some(NotFound);
      }
      var sec := users[userId].security.value;
      if !sec.isTwoFactorEnabled {
        return Some(BadRequest);
      }
      if !crypto.compare(password, users[userId].password) {
        return Some(Unauthorized);
      }
      SaveRecord(userId, sec.(isTwoFactorEnabled := false, twoFactorSecret := None, twoFactorToken := None,
                              backupCodes := None, enabledAt := None, lastVerified := None, codesGeneratedAt := None));
      ResetRateLimit(userId);
      error := None;
    }

    method GetBackupCodes(userId: string, code: string, random: nat -> seq<Byte>, hash: (string, nat) -> string,
                          crypto: Crypto)
      returns (result: Result<seq<string>, HttpError>)
      modifies this, redis
      ensures var hashes := Twofa.Hashed(Twofa.NewCodes(random), hash);
        var (after, error) := Twofa.Renew(old(State()), userId, code, hashes, crypto);
        && State() == after
        && result == match error case Some(e) => Err(e) case None => Ok(Twofa.NewCodes(random))
    {
      var verified, attempt := VerifyTwoFactor(userId, code, crypto);
      if verified.Err? {
        return Err(verified.error);
      }
      var sec := users[userId].security.value;
      if !Twofa.HasCodes(sec) {
        return Err(BadRequest);
      }
      var backupCodes := GenerateBackupCodes(random);
      SaveRecord(userId, sec.(backupCodes := Some(Twofa.Hashed(backupCodes, hash)), codesGeneratedAt := Some(redis.now)));
      result := Ok(backupCodes);
    }
  }
}

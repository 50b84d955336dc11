/** What the two-factor operations achieve: when each succeeds, and the record and counter afterwards. */
module TwofaEffects {
  import opened Accounts
  import opened Basics
  import opened RedisModel
  import opened Twofa

  /** Only this user's row may differ, and only in its security record. */
  ghost predicate OnlyRecord(st: State, after: State, userId: string) {
    && after.users.Keys == st.users.Keys
    && (forall id :: id in st.users && id != userId ==> after.users[id] == st.users[id])
    && (userId in st.users ==> after.users[userId].(security := None) == st.users[userId].(security := None))
  }

  /** The attempts of every other user are as before. */
  ghost predicate OtherCountersStay(st: State, after: State, userId: string) {
    && after.store.now == st.store.now
    && forall id :: id != userId ==> Attempts(after.store, id) == Attempts(st.store, id)
  }

  // ---------- the counter ----------

  /** A counted failure adds one and is remembered for 900 seconds. */
  lemma CountTakesEffect(store: Store, userId: string, delay: nat, other: string)
    ensures var later := Tick(Count(store, userId), delay);
      && Attempts(later, userId) == (if delay < 900 then Attempts(store, userId) + 1 else 0)
      && (other != userId ==> Attempts(later, other) == Attempts(Tick(store, delay), other))
  {
    RateKeysApart(userId, other);
  }

  lemma ForgiveTakesEffect(store: Store, userId: string, other: string)
    ensures Attempts(Forgive(store, userId), userId) == 0
    ensures other != userId ==> Attempts(Forgive(store, userId), other) == Attempts(store, other)
  {
    RateKeysApart(userId, other);
  }

  /** 900 seconds after the last counted failure the user may try again. */
  lemma LockoutEnds(st: State, userId: string, code: string, later: string, delay: nat, crypto: Crypto)
    requires Judge(st, userId, code, crypto).Failed?
    ensures var failed := Verify(st, userId, code, crypto).0;
      var w := failed.(store := Tick(failed.store, delay));
      var judged := Judge(w, userId, later, crypto);
      && (delay < 900 && Attempts(st.store, userId) >= 4 ==> judged == Refused(BadRequest))
      && (delay >= 900 ==> judged == JudgeCode(Record(st, userId), crypto.upper(later), w.store.now, crypto))
  {
    CountTakesEffect(st.store, userId, delay, userId);
    hide JudgeCode;
  }

  // ---------- judging ----------

  /** The attempt is looked at: below the limit, by a known user with 2FA on. */
  predicate Admitted(st: State, userId: string) {
    Attempts(st.store, userId) < 5 && Known(st, userId) && Record(st, userId).isTwoFactorEnabled
  }

  /** Some stored hash belongs to the text. */
  ghost predicate BackupFits(sec: Security, text: string, crypto: Crypto) {
    sec.backupCodes.Some? && exists i :: 0 <= i < |sec.backupCodes.value| && crypto.compare(text, sec.backupCodes.value[i])
  }

  /** The text is a valid one-time password for the decrypted secret. */
  ghost predicate TotpFits(sec: Security, text: string, now: int, crypto: Crypto) {
    && |text| == 6 && (forall i :: 0 <= i < 6 ==> '0' <= text[i] <= '9')
    && Present(sec.twoFactorSecret)
    && exists secret :: crypto.decrypt(sec.twoFactorSecret.value) == Some(secret) && crypto.totp(secret, text, now)
  }

  /** The stored secret cannot be decrypted, and the text asks for it. */
  predicate SecretBroken(sec: Security, text: string, crypto: Crypto) {
    SixDigits(text) && Present(sec.twoFactorSecret) && crypto.decrypt(sec.twoFactorSecret.value).None?
  }

  /** When an attempt is accepted, counted as a failure, or refused. */
  lemma JudgeIff(st: State, userId: string, code: string, crypto: Crypto)
    ensures var attempt, text := Judge(st, userId, code, crypto), crypto.upper(code);
      && (attempt.Accepted? <==>
            Admitted(st, userId)
            && (if |text| == 8 then BackupFits(Record(st, userId), text, crypto)
                else TotpFits(Record(st, userId), text, st.store.now, crypto)))
      && (attempt.Accepted? ==> attempt.backup == if |text| == 8 then Some(text) else None)
      && (attempt.Failed? <==>
            Admitted(st, userId) && !attempt.Accepted? && !SecretBroken(Record(st, userId), text, crypto))
      && (attempt == Refused(NotFound) <==> Attempts(st.store, userId) < 5 && !Known(st, userId))
      && (attempt == Refused(InternalError) <==> Admitted(st, userId) && SecretBroken(Record(st, userId), text, crypto))
      && (attempt == Refused(BadRequest) <==>
            Attempts(st.store, userId) >= 5
            || (Known(st, userId) && !Record(st, userId).isTwoFactorEnabled))
  {
    var text := crypto.upper(code);
    if Known(st, userId) && HasCodes(Record(st, userId)) {
      var codes := Record(st, userId).backupCodes.value;
      assert Matches(text, codes, crypto) <==> BackupFits(Record(st, userId), text, crypto);
    }
  }

  /** What an attempt leaves behind. */
  lemma VerifyTakesEffect(st: State, userId: string, code: string, crypto: Crypto)
    ensures var (after, attempt) := Verify(st, userId, code, crypto);
      && (attempt.Refused? ==> after == st)
      && (attempt.Failed? ==> after.users == st.users && after.store == Count(st.store, userId))
      && (attempt.Accepted? ==>
            && OnlyRecord(st, after, userId) && Known(after, userId)
            && Attempts(after.store, userId) == 0
            && after.store.now == st.store.now
            && Record(after, userId).(backupCodes := None, lastVerified := None)
                 == Record(st, userId).(backupCodes := None, lastVerified := None)
            && Record(after, userId).lastVerified == Some(st.store.now)
            && (attempt.backup.None? ==> Record(after, userId).backupCodes == Record(st, userId).backupCodes))
  {
    if Judge(st, userId, code, crypto).Accepted? {
      AcceptedCodes(st, userId, code, crypto);
      ForgiveTakesEffect(st.store, userId, userId);
    }
    hide Judge, Attempts, RateKey, Matches, RemoveFirst;
  }

  /** An attempt never touches another user's record or counter. */
  lemma VerifySparesOthers(st: State, userId: string, code: string, crypto: Crypto)
    ensures var after := Verify(st, userId, code, crypto).0;
      && OtherCountersStay(st, after, userId)
      && forall id :: id != userId ==>
           (id in after.users <==> id in st.users) && (id in st.users ==> after.users[id] == st.users[id])
  {
    VerifyStore(st, userId, code, crypto);
    hide Verify, Judge, RateKey, Attempts;
    var after := Verify(st, userId, code, crypto).0;
    forall id | id != userId ensures Attempts(after.store, id) == Attempts(st.store, id) {
      CountTakesEffect(st.store, userId, 0, id);
      ForgiveTakesEffect(st.store, userId, id);
      assert Tick(Count(st.store, userId), 0) == Count(st.store, userId) && Tick(st.store, 0) == st.store;
    }
  }

  lemma VerifyStore(st: State, userId: string, code: string, crypto: Crypto)
    ensures var after := Verify(st, userId, code, crypto).0;
      && (after.store == st.store || after.store == Count(st.store, userId) || after.store == Forgive(st.store, userId))
      && after.store.now == st.store.now
      && after.users.Keys == st.users.Keys
      && forall id :: id in st.users && id != userId ==> after.users[id] == st.users[id]
  {
    hide JudgeCode, RateKey, Attempts;
  }

  // ---------- setting up, enabling, disabling ----------

  lemma SetupTakesEffect(st: State, userId: string, password: string, secret: string, crypto: Crypto)
    ensures var (after, error) := Setup(st, userId, password, secret, crypto);
      && (error == Some(NotFound) <==> !Known(st, userId))
      && (error == Some(Unauthorized) <==>
            Known(st, userId) && !crypto.compare(password, st.users[userId].password))
      && (error.None? <==>
            && Known(st, userId) && crypto.compare(password, st.users[userId].password)
            && !Record(st, userId).isTwoFactorEnabled)
      && (error.Some? ==> after == st && error.value in {NotFound, Unauthorized, BadRequest})
      && (error.None? ==>
            && OnlyRecord(st, after, userId) && after.store == st.store && Known(after, userId)
            && Record(after, userId).twoFactorToken == Some(secret)
            && Record(after, userId).(twoFactorToken := None) == Record(st, userId).(twoFactorToken := None))
  {
  }

  /** The record with everything two-factor taken out. */
  function Rest(sec: Security): Security {
    sec.(isTwoFactorEnabled := false, twoFactorSecret := None, twoFactorToken := None, backupCodes := None,
         enabledAt := None, lastVerified := None, codesGeneratedAt := None)
  }

  lemma EnableTakesEffect(st: State, userId: string, code: string, hashes: seq<string>, crypto: Crypto)
    ensures var (after, error) := Enable(st, userId, code, hashes, crypto);
      && (error == Some(NotFound) <==> !Known(st, userId))
      && (error.None? <==>
            && Known(st, userId) && !Record(st, userId).isTwoFactorEnabled
            && Present(Record(st, userId).twoFactorToken)
            && crypto.totp(Record(st, userId).twoFactorToken.value, code, st.store.now))
      && (error.Some? ==> after.users == st.users && error.value in {NotFound, BadRequest})
      && (error.Some? ==>
            after.store ==
              if Known(st, userId) && !Record(st, userId).isTwoFactorEnabled && Present(Record(st, userId).twoFactorToken)
              then Count(st.store, userId) else st.store)
      && (error.None? ==>
            && OnlyRecord(st, after, userId) && Known(after, userId)
            && Attempts(after.store, userId) == 0 && after.store.now == st.store.now)
      && (error.None? ==>
            var sec := Record(after, userId);
            && sec.isTwoFactorEnabled && sec.twoFactorToken == None
            && sec.twoFactorSecret == Some(crypto.encrypt(Record(st, userId).twoFactorToken.value))
            && sec.backupCodes == Some(hashes)
            && sec.enabledAt == Some(st.store.now) && sec.codesGeneratedAt == Some(st.store.now)
            && sec.lastVerified == Record(st, userId).lastVerified
            && Rest(sec) == Rest(Record(st, userId)))
  {
  }

  lemma DisableTakesEffect(st: State, userId: string, password: string, crypto: Crypto)
    ensures var (after, error) := Disable(st, userId, password, crypto);
      && (error == Some(NotFound) <==> !Known(st, userId))
      && (error == Some(BadRequest) <==> Known(st, userId) && !Record(st, userId).isTwoFactorEnabled)
      && (error.None? <==>
            && Known(st, userId) && Record(st, userId).isTwoFactorEnabled
            && crypto.compare(password, st.users[userId].password))
      && (error.Some? ==> after == st && error.value in {NotFound, BadRequest, Unauthorized})
      && (error.None? ==>
            && OnlyRecord(st, after, userId) && Known(after, userId)
            && Attempts(after.store, userId) == 0 && after.store.now == st.store.now)
      && (error.None? ==>
            var sec := Record(after, userId);
            && !sec.isTwoFactorEnabled && sec.twoFactorSecret == None && sec.twoFactorToken == None
            && sec.backupCodes == None && sec.enabledAt == None && sec.lastVerified == None
            && sec.codesGeneratedAt == None
            && Rest(sec) == Rest(Record(st, userId)))
  {
  }

  /** Once disabled, no code is accepted until 2FA is enabled again. */
  lemma DisabledAcceptsNothing(st: State, userId: string, password: string, code: string, delay: nat, crypto: Crypto)
    requires Disable(st, userId, password, crypto).1.None?
    ensures var off := Disable(st, userId, password, crypto).0;
      Judge(off.(store := Tick(off.store, delay)), userId, code, crypto) == Refused(BadRequest)
  {
    DisableTakesEffect(st, userId, password, crypto);
    ForgiveTakesEffect(st.store, userId, userId);
  }

  /** Renewal replaces the codes of a verified user and notes the time. */
  lemma RenewTakesEffect(st: State, userId: string, code: string, hashes: seq<string>, crypto: Crypto)
    ensures var (verified, attempt) := Verify(st, userId, code, crypto);
      var (after, error) := Renew(st, userId, code, hashes, crypto);
      && after.store == verified.store
      && (!attempt.Accepted? ==> error == Some(attempt.error) && after == verified)
      && (attempt.Accepted? ==> (error.None? <==> Codes(verified, userId) != []))
      && (attempt.Accepted? && error.Some? ==> error == Some(BadRequest) && after == verified)
      && (error.None? ==>
            && OnlyRecord(verified, after, userId) && Known(after, userId) && Known(verified, userId)
            && Record(after, userId) ==
                 Record(verified, userId).(backupCodes := Some(hashes), codesGeneratedAt := Some(st.store.now)))
  {
    VerifyTakesEffect(st, userId, code, crypto);
    hide Verify;
  }

  // ---------- generated codes ----------

  function DigitValue(c: char): Option<nat> {
    if '0' <= c <= '9' then Some(c as int - '0' as int)
    else if 'A' <= c <= 'F' then Some(c as int - 'A' as int + 10)
    else None
  }

  /** The bytes of an upper-case hexadecimal text. */
  function FromHex(text: string): Option<seq<int>> {
    if text == "" then Some([])
    else if |text| == 1 then None
    else
      var high, low, rest := DigitValue(text[0]), DigitValue(text[1]), FromHex(text[2..]);
      if high.None? || low.None? || rest.None? then None
      else Some([16 * high.value + low.value] + rest.value)
  }

  lemma DigitRoundTrip(n: nat)
    requires n < 16
    ensures DigitValue(HexDigit(n)) == Some(n)
  {
  }

  /** A code is the hexadecimal text of its bytes, so different bytes give different codes. */
  lemma {:induction false} HexRoundTrip(bytes: seq<Byte>)
    ensures FromHex(Hex(bytes)) == Some(bytes)
  {
    if bytes != [] {
      HexRoundTrip(bytes[1..]);
      DigitRoundTrip(bytes[0] / 16);
      DigitRoundTrip(bytes[0] % 16);
      assert Hex(bytes)[2..] == Hex(bytes[1..]);
      assert bytes == [bytes[0]] + bytes[1..];
    }
  }

  /** Ten codes of eight characters, one per four random bytes. */
  lemma NewCodesAreHex(random: nat -> seq<Byte>)
    requires forall i: nat :: i < 10 ==> |random(i)| == 4
    ensures |NewCodes(random)| == 10
    ensures forall i :: 0 <= i < 10 ==> |NewCodes(random)[i]| == 8 && FromHex(NewCodes(random)[i]) == Some(random(i))
  {
    forall i | 0 <= i < 10 ensures |NewCodes(random)[i]| == 8 && FromHex(NewCodes(random)[i]) == Some(random(i)) {
      HexRoundTrip(random(i));
    }
  }
}

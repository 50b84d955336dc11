/** Two-factor authentication: the attempt counter, backup codes and the enabling protocol. */
module Twofa {
  import opened Accounts
  import opened Basics
  import opened RedisModel

  datatype State = State(users: map<string, User>, store: Store)

  // ---------- the attempt counter ----------

  const LIMIT := 5
  const LOCKOUT: nat := 900

  function RateKey(userId: string): string {
    "2fa:rate-limit:" + userId
  }

  lemma RateKeysApart(a: string, b: string)
    ensures RateKey(a) == RateKey(b) <==> a == b
  {
    var n := |"2fa:rate-limit:"|;
    assert RateKey(a)[n..] == a && RateKey(b)[n..] == b;
  }

  function Attempts(store: Store, userId: string): int {
    match Get(store, RateKey(userId))
    case Some(Int(n)) => n
    case _ => 0
  }

  function Count(store: Store, userId: string): Store {
    Set(store, RateKey(userId), Int(Attempts(store, userId) + 1), LOCKOUT)
  }

  function Forgive(store: Store, userId: string): Store {
    Del(store, {RateKey(userId)})
  }

  // ---------- backup codes ----------

  ghost predicate Matches(code: string, codes: seq<string>, crypto: Crypto) {
    exists i :: 0 <= i < |codes| && crypto.compare(code, codes[i])
  }

  /** The list without the first hash that matches. */
  function RemoveFirst(code: string, codes: seq<string>, crypto: Crypto): seq<string> {
    if codes == [] then []
    else if crypto.compare(code, codes[0]) then codes[1..]
    else [codes[0]] + RemoveFirst(code, codes[1..], crypto)
  }

  function HexDigit(n: nat): char
    requires n < 16
  {
    if n < 10 then ('0' as int + n) as char else ('A' as int + (n - 10)) as char
  }

  /** Bytes in upper-case hexadecimal. */
  function Hex(bytes: seq<Byte>): (text: string)
    ensures |text| == 2 * |bytes|
    ensures forall i :: 0 <= i < |text| ==> '0' <= text[i] <= '9' || 'A' <= text[i] <= 'F'
  {
    if bytes == [] then "" else [HexDigit(bytes[0] / 16), HexDigit(bytes[0] % 16)] + Hex(bytes[1..])
  }

  const CODE_COUNT: nat := 10

  /** The new codes; `random(i)` are the bytes drawn for code i. */
  function NewCodes(random: nat -> seq<Byte>): seq<string> {
    seq(CODE_COUNT, i requires 0 <= i < CODE_COUNT => Hex(random(i)))
  }

  /** Their hashes; bcrypt salts each one, here with `i`. */
  function Hashed(codes: seq<string>, hash: (string, nat) -> string): (hashes: seq<string>)
    ensures |hashes| == |codes|
  {
    seq(|codes|, i requires 0 <= i < |codes| => hash(codes[i], i))
  }

  // ---------- judging a code ----------

  /** What becomes of an attempt; a failure is counted, a refusal is not. */
  datatype Attempt =
    | Refused(error: HttpError)
    | Failed(error: HttpError)
    | Accepted(backup: Option<string>)

  predicate SixDigits(code: string) {
    |code| == 6 && forall i :: 0 <= i < 6 ==> '0' <= code[i] <= '9'
  }

  predicate Present(text: Option<string>) {
    text.Some? && text.value != ""
  }

  predicate HasCodes(sec: Security) {
    sec.backupCodes.Some? && sec.backupCodes.value != []
  }

  predicate Known(st: State, userId: string) {
    userId in st.users && st.users[userId].security.Some?
  }

  function Record(st: State, userId: string): Security
    requires Known(st, userId)
  {
    st.users[userId].security.value
  }

  function WithRecord(st: State, userId: string, sec: Security): State
    requires Known(st, userId)
  {
    st.(users := st.users[userId := st.users[userId].(security := Some(sec))])
  }

  ghost function JudgeCode(sec: Security, code: string, now: int, crypto: Crypto): Attempt {
    if |code| == 8 then
      if HasCodes(sec) && Matches(code, sec.backupCodes.value, crypto) then Accepted(Some(code))
      else Failed(BadRequest)
    else if !SixDigits(code) || !Present(sec.twoFactorSecret) then Failed(BadRequest)
    else
      match crypto.decrypt(sec.twoFactorSecret.value)
      case None => Refused(InternalError)
      case Some(secret) => if crypto.totp(secret, code, now) then Accepted(None) else Failed(BadRequest)
  }

  ghost function Judge(st: State, userId: string, code: string, crypto: Crypto): Attempt {
    if Attempts(st.store, userId) >= LIMIT then Refused(BadRequest)
    else if !Known(st, userId) then Refused(NotFound)
    else if !Record(st, userId).isTwoFactorEnabled then Refused(BadRequest)
    else JudgeCode(Record(st, userId), crypto.upper(code), st.store.now, crypto)
  }

  /** The record after an accepted code. */
  function Accept(sec: Security, backup: Option<string>, now: int, crypto: Crypto): Security
    requires backup.Some? ==> sec.backupCodes.Some?
  {
    var codes := if backup.Some? then Some(RemoveFirst(backup.value, sec.backupCodes.value, crypto)) else sec.backupCodes;
    sec.(backupCodes := codes, lastVerified := Some(now))
  }

  /** verifyTwoFactor */
  ghost function Verify(st: State, userId: string, code: string, crypto: Crypto): (State, Attempt) {
    var attempt := Judge(st, userId, code, crypto);
    match attempt
    case Refused(_) => (st, attempt)
    case Failed(_) => (st.(store := Count(st.store, userId)), attempt)
    case Accepted(backup) =>
      (WithRecord(st, userId, Accept(Record(st, userId), backup, st.store.now, crypto))
         .(store := Forgive(st.store, userId)), attempt)
  }

  // ---------- setting up, enabling, disabling, renewing ----------

  /** setupTwoFactor; `secret` is the generated secret. */
  function Setup(st: State, userId: string, password: string, secret: string, crypto: Crypto): (State, Option<HttpError>) {
    if !Known(st, userId) then (st, Some(NotFound))
    else if !crypto.compare(password, st.users[userId].password) then (st, Some(Unauthorized))
    else if Record(st, userId).isTwoFactorEnabled then (st, Some(BadRequest))
    else (WithRecord(st, userId, Record(st, userId).(twoFactorToken := Some(secret))), None)
  }

  function Enabled(sec: Security, hashes: seq<string>, now: int, crypto: Crypto): Security
    requires sec.twoFactorToken.Some?
  {
    sec.(isTwoFactorEnabled := true,
         twoFactorSecret := Some(crypto.encrypt(sec.twoFactorToken.value)),
         twoFactorToken := None,
         backupCodes := Some(hashes),
         enabledAt := Some(now),
         codesGeneratedAt := Some(now))
  }

  /** enableTwoFactor; `hashes` are the hashed new codes. A wrong code is counted but no limit is checked. */
  function Enable(st: State, userId: string, code: string, hashes: seq<string>, crypto: Crypto): (State, Option<HttpError>) {
    if !Known(st, userId) then (st, Some(NotFound))
    else
      var sec := Record(st, userId);
      if sec.isTwoFactorEnabled || !Present(sec.twoFactorToken) then (st, Some(BadRequest))
      else if !crypto.totp(sec.twoFactorToken.value, code, st.store.now) then
        (st.(store := Count(st.store, userId)), Some(BadRequest))
      else
        (WithRecord(st, userId, Enabled(sec, hashes, st.store.now, crypto)).(store := Forgive(st.store, userId)), None)
  }

  function Disabled(sec: Security): Security {
    sec.(isTwoFactorEnabled := false,
         twoFactorSecret := None,
         twoFactorToken := None,
         backupCodes := None,
         enabledAt := None,
         lastVerified := None,
         codesGeneratedAt := None)
  }

  /** disableTwoFactor */
  function Disable(st: State, userId: string, password: string, crypto: Crypto): (State, Option<HttpError>) {
    if !Known(st, userId) then (st, Some(NotFound))
    else if !Record(st, userId).isTwoFactorEnabled then (st, Some(BadRequest))
    else if !crypto.compare(password, st.users[userId].password) then (st, Some(Unauthorized))
    else (WithRecord(st, userId, Disabled(Record(st, userId))).(store := Forgive(st.store, userId)), None)
  }

  /** getBackupCodes: a verified user gets new codes, provided some are left. */
  ghost function Renew(st: State, userId: string, code: string, hashes: seq<string>, crypto: Crypto)
    : (State, Option<HttpError>)
  {
    var (after, attempt) := Verify(st, userId, code, crypto);
    if !attempt.Accepted? then (after, Some(attempt.error))
    else if !HasCodes(Record(after, userId)) then (after, Some(BadRequest))
    else
      (WithRecord(after, userId,
         Record(after, userId).(backupCodes := Some(hashes), codesGeneratedAt := Some(after.store.now))), None)
  }

  // ---------- whole runs ----------

  datatype Op =
    | SetupOp(userId: string, password: string, secret: string)
    | EnableOp(userId: string, code: string, hashes: seq<string>)
    | VerifyOp(userId: string, code: string)
    | DisableOp(userId: string, password: string)
    | RenewOp(userId: string, code: string, hashes: seq<string>)
    | Wait(delay: nat)

  ghost function Step(st: State, op: Op, crypto: Crypto): State {
    match op
    case SetupOp(id, password, secret) => Setup(st, id, password, secret, crypto).0
    case EnableOp(id, code, hashes) => Enable(st, id, code, hashes, crypto).0
    case VerifyOp(id, code) => Verify(st, id, code, crypto).0
    case DisableOp(id, password) => Disable(st, id, password, crypto).0
    case RenewOp(id, code, hashes) => Renew(st, id, code, hashes, crypto).0
    case Wait(delay) => st.(store := Tick(st.store, delay))
  }

  ghost function Run(st: State, ops: seq<Op>, crypto: Crypto): State
    decreases |ops|
  {
    if ops == [] then st else Run(Step(st, ops[0], crypto), ops[1..], crypto)
  }

  function Duration(ops: seq<Op>): nat {
    if ops == [] then 0 else (if ops[0].Wait? then ops[0].delay else 0) + Duration(ops[1..])
  }

  /** The step submits a code of this user for verification. */
  predicate Submits(op: Op, userId: string) {
    (op.VerifyOp? || op.RenewOp?) && op.userId == userId
  }

  /** The step clears the user's counter. */
  ghost predicate Resets(st: State, op: Op, userId: string, crypto: Crypto) {
    || (Submits(op, userId) && Judge(st, userId, op.code, crypto).Accepted?)
    || (op.EnableOp? && op.userId == userId && Enable(st, userId, op.code, op.hashes, crypto).1.None?)
    || (op.DisableOp? && op.userId == userId && Disable(st, userId, op.password, crypto).1.None?)
  }

  ghost predicate NeverResets(st: State, ops: seq<Op>, userId: string, crypto: Crypto)
    decreases |ops|
  {
    ops == []
    || (!Resets(st, ops[0], userId, crypto) && NeverResets(Step(st, ops[0], crypto), ops[1..], userId, crypto))
  }

  /** The verification failures of the user that are counted. */
  ghost function Failures(st: State, ops: seq<Op>, userId: string, crypto: Crypto): nat
    decreases |ops|
  {
    if ops == [] then 0
    else
      (if Submits(ops[0], userId) && Judge(st, userId, ops[0].code, crypto).Failed? then 1 else 0)
      + Failures(Step(st, ops[0], crypto), ops[1..], userId, crypto)
  }

  // ---------- the failure bound ----------

  /** The counter, when present, is positive and will expire. */
  predicate Sane(st: State, userId: string) {
    Live(st.store, RateKey(userId)) ==>
      && st.store.db[RateKey(userId)].value.Int?
      && st.store.db[RateKey(userId)].value.n > 0
      && st.store.db[RateKey(userId)].expiry.Some?
  }

  /** At least `count` failures are on record, until `horizon` or later. */
  predicate Holding(st: State, userId: string, horizon: int, count: nat) {
    count == 0
    || (&& RateKey(userId) in st.store.db
        && st.store.db[RateKey(userId)].value.Int?
        && st.store.db[RateKey(userId)].value.n >= count
        && st.store.db[RateKey(userId)].expiry.Some?
        && st.store.db[RateKey(userId)].expiry.value >= horizon)
  }

  lemma HeldAttempts(st: State, userId: string, horizon: int, count: nat)
    requires Holding(st, userId, horizon, count) && st.store.now < horizon && Sane(st, userId)
    ensures Attempts(st.store, userId) >= count
  {
  }

  /** Counting one more failure, for this user or another. */
  lemma CountHolds(st: State, other: string, userId: string, horizon: int, count: nat)
    requires Holding(st, userId, horizon, count) && Sane(st, userId)
    requires st.store.now < horizon <= st.store.now + LOCKOUT
    ensures var after := st.(store := Count(st.store, other));
      Sane(after, userId) && Holding(after, userId, horizon, if other == userId then count + 1 else count)
  {
    RateKeysApart(other, userId);
    HeldAttempts(st, userId, horizon, count);
  }

  lemma ForgiveOther(st: State, other: string, userId: string, horizon: int, count: nat)
    requires Holding(st, userId, horizon, count) && Sane(st, userId) && other != userId
    ensures var after := st.(store := Forgive(st.store, other));
      Sane(after, userId) && Holding(after, userId, horizon, count)
  {
    RateKeysApart(other, userId);
  }

  /** Only the store matters to the counter. */
  lemma SameStore(st: State, after: State, userId: string, horizon: int, count: nat)
    requires Holding(st, userId, horizon, count) && Sane(st, userId) && st.store == after.store
    ensures Holding(after, userId, horizon, count) && Sane(after, userId)
  {
  }

  lemma VerifyHolds(st: State, id: string, code: string, userId: string, horizon: int, count: nat, crypto: Crypto)
    requires Holding(st, userId, horizon, count) && Sane(st, userId)
    requires st.store.now < horizon <= st.store.now + LOCKOUT
    requires id == userId ==> !Judge(st, id, code, crypto).Accepted?
    ensures var (after, attempt) := Verify(st, id, code, crypto);
      && Sane(after, userId)
      && Holding(after, userId, horizon, if id == userId && attempt.Failed? then count + 1 else count)
  {
    var (after, attempt) := Verify(st, id, code, crypto);
    if attempt.Failed? {
      CountHolds(st, id, userId, horizon, count);
    } else if attempt.Accepted? {
      ForgiveOther(st, id, userId, horizon, count);
      SameStore(st.(store := Forgive(st.store, id)), after, userId, horizon, count);
    }
  }

  lemma RenewStore(st: State, id: string, code: string, hashes: seq<string>, crypto: Crypto)
    ensures Renew(st, id, code, hashes, crypto).0.store == Verify(st, id, code, crypto).0.store
  {
  }

  lemma EnableHolds(st: State, op: Op, userId: string, horizon: int, count: nat, crypto: Crypto)
    requires Holding(st, userId, horizon, count) && Sane(st, userId)
    requires st.store.now < horizon <= st.store.now + LOCKOUT
    requires op.EnableOp? && !Resets(st, op, userId, crypto)
    ensures var after := Step(st, op, crypto); Sane(after, userId) && Holding(after, userId, horizon, count)
  {
    var (after, error) := Enable(st, op.userId, op.code, op.hashes, crypto);
    if error.None? {
      ForgiveOther(st, op.userId, userId, horizon, count);
      SameStore(st.(store := Forgive(st.store, op.userId)), after, userId, horizon, count);
    } else if after.store != st.store {
      CountHolds(st, op.userId, userId, horizon, count);
      SameStore(st.(store := Count(st.store, op.userId)), after, userId, horizon, count);
    } else {
      SameStore(st, after, userId, horizon, count);
    }
  }

  lemma DisableHolds(st: State, op: Op, userId: string, horizon: int, count: nat, crypto: Crypto)
    requires Holding(st, userId, horizon, count) && Sane(st, userId)
    requires op.DisableOp? && !Resets(st, op, userId, crypto)
    ensures var after := Step(st, op, crypto); Sane(after, userId) && Holding(after, userId, horizon, count)
  {
    var (after, error) := Disable(st, op.userId, op.password, crypto);
    if error.None? {
      ForgiveOther(st, op.userId, userId, horizon, count);
      SameStore(st.(store := Forgive(st.store, op.userId)), after, userId, horizon, count);
    } else {
      SameStore(st, after, userId, horizon, count);
    }
  }

  /** Without a reset, the record of failures only grows until the horizon. */
  lemma StepHolds(st: State, op: Op, userId: string, horizon: int, count: nat, crypto: Crypto)
    requires Holding(st, userId, horizon, count) && Sane(st, userId)
    requires st.store.now < horizon <= st.store.now + LOCKOUT && !Resets(st, op, userId, crypto)
    ensures var after := Step(st, op, crypto);
      && Sane(after, userId)
      && Holding(after, userId, horizon,
                 if Submits(op, userId) && Judge(st, userId, op.code, crypto).Failed? then count + 1 else count)
  {
    var after := Step(st, op, crypto);
    match op
    case SetupOp(id, password, secret) => SameStore(st, after, userId, horizon, count);
    case EnableOp(_, _, _) => EnableHolds(st, op, userId, horizon, count, crypto);
    case VerifyOp(id, code) => VerifyHolds(st, id, code, userId, horizon, count, crypto);
    case DisableOp(_, _) => DisableHolds(st, op, userId, horizon, count, crypto);
    case RenewOp(id, code, hashes) =>
      VerifyHolds(st, id, code, userId, horizon, count, crypto);
      RenewStore(st, id, code, hashes, crypto);
      SameStore(Verify(st, id, code, crypto).0, after, userId, horizon,
                if id == userId && Judge(st, userId, code, crypto).Failed? then count + 1 else count);
    case Wait(delay) =>
  }

  lemma StepTime(st: State, op: Op, crypto: Crypto)
    ensures Step(st, op, crypto).store.now == st.store.now + if op.Wait? then op.delay else 0
  {
  }

  /** No attempt fails once the limit is reached. */
  lemma FailureIsBelowLimit(st: State, userId: string, code: string, horizon: int, count: nat, crypto: Crypto)
    requires Holding(st, userId, horizon, count) && Sane(st, userId) && st.store.now < horizon
    requires Judge(st, userId, code, crypto).Failed?
    ensures count < LIMIT
  {
    HeldAttempts(st, userId, horizon, count);
  }

  lemma {:induction false} FailuresFit(st: State, ops: seq<Op>, userId: string, horizon: int, count: nat, crypto: Crypto)
    requires Holding(st, userId, horizon, count) && Sane(st, userId) && NeverResets(st, ops, userId, crypto)
    requires st.store.now + Duration(ops) < horizon <= st.store.now + LOCKOUT
    ensures Failures(st, ops, userId, crypto) <= Max(0, LIMIT - count)
    ensures var after := Run(st, ops, crypto);
      && Sane(after, userId)
      && Holding(after, userId, horizon, count + Failures(st, ops, userId, crypto))
      && after.store.now == st.store.now + Duration(ops)
    decreases |ops|
  {
    if ops != [] {
      var next := Step(st, ops[0], crypto);
      StepTime(st, ops[0], crypto);
      StepHolds(st, ops[0], userId, horizon, count, crypto);
      if Submits(ops[0], userId) && Judge(st, userId, ops[0].code, crypto).Failed? {
        FailureIsBelowLimit(st, userId, ops[0].code, horizon, count, crypto);
        FailuresFit(next, ops[1..], userId, horizon, count + 1, crypto);
      } else {
        FailuresFit(next, ops[1..], userId, horizon, count, crypto);
      }
    }
  }

  /** Every step keeps the counter well formed; a reset removes it. */
  lemma StepStaysSane(st: State, op: Op, userId: string, crypto: Crypto)
    requires Sane(st, userId)
    ensures Sane(Step(st, op, crypto), userId)
  {
    if !Resets(st, op, userId, crypto) {
      StepHolds(st, op, userId, st.store.now + LOCKOUT, 0, crypto);
    } else {
      ResetRemovesCounter(st, op, userId, crypto);
    }
  }

  lemma ResetRemovesCounter(st: State, op: Op, userId: string, crypto: Crypto)
    requires Resets(st, op, userId, crypto)
    ensures RateKey(userId) !in Step(st, op, crypto).store.db
  {
    hide JudgeCode, RateKey, Attempts;
  }

  lemma {:induction false} RunStaysSane(st: State, ops: seq<Op>, userId: string, crypto: Crypto)
    requires Sane(st, userId)
    ensures Sane(Run(st, ops, crypto), userId)
    decreases |ops|
  {
    if ops != [] {
      StepStaysSane(st, ops[0], userId, crypto);
      RunStaysSane(Step(st, ops[0], crypto), ops[1..], userId, crypto);
    }
  }

  /**
   * In any half-open interval of 900 seconds without a reset, after any history of operations, at
   * most five failures are counted.
   */
  lemma AtMostFiveFailures(st: State, past: seq<Op>, ops: seq<Op>, userId: string, crypto: Crypto)
    requires RateKey(userId) !in st.store.db
    requires NeverResets(Run(st, past, crypto), ops, userId, crypto) && Duration(ops) < 900
    ensures Failures(Run(st, past, crypto), ops, userId, crypto) <= 5
  {
    RunStaysSane(st, past, userId, crypto);
    var now := Run(st, past, crypto);
    FailuresFit(now, ops, userId, now.store.now + LOCKOUT, 0, crypto);
  }

  /**
   * After the failure that reaches the limit, every attempt of the next 900 seconds is refused and
   * changes nothing, unless the counter is reset.
   */
  lemma FifthFailureLocksOut(st: State, code: string, ops: seq<Op>, later: string, userId: string, crypto: Crypto)
    requires Sane(st, userId) && Judge(st, userId, code, crypto).Failed? && Attempts(st.store, userId) == 4
    requires var failed := Verify(st, userId, code, crypto).0;
      NeverResets(failed, ops, userId, crypto) && Duration(ops) < 900
    ensures var after := Run(Verify(st, userId, code, crypto).0, ops, crypto);
      Verify(after, userId, later, crypto) == (after, Refused(BadRequest))
  {
    var failed := Verify(st, userId, code, crypto).0;
    var horizon := st.store.now + LOCKOUT;
    FailuresFit(failed, ops, userId, horizon, LIMIT, crypto);
    HeldAttempts(Run(failed, ops, crypto), userId, horizon, LIMIT);
  }

  // ---------- backup codes are conserved ----------

  /** The user's stored hashes. */
  function Codes(st: State, userId: string): seq<string> {
    if Known(st, userId) && Record(st, userId).backupCodes.Some? then Record(st, userId).backupCodes.value else []
  }

  function Plain(hashes: seq<string>, plain: string -> string): (texts: seq<string>)
    ensures |texts| == |hashes|
    ensures forall i :: 0 <= i < |hashes| ==> texts[i] == plain(hashes[i])
  {
    seq(|hashes|, i requires 0 <= i < |hashes| => plain(hashes[i]))
  }

  /** The codes that the run accepts, in order. */
  ghost function Used(st: State, ops: seq<Op>, userId: string, crypto: Crypto): seq<string>
    decreases |ops|
  {
    if ops == [] then []
    else UsedBy(st, ops[0], userId, crypto) + Used(Step(st, ops[0], crypto), ops[1..], userId, crypto)
  }

  ghost function UsedBy(st: State, op: Op, userId: string, crypto: Crypto): seq<string> {
    if !Submits(op, userId) then []
    else
      match Judge(st, userId, op.code, crypto)
      case Accepted(Some(code)) => [code]
      case _ => []
  }

  /** The step replaces or discards the user's codes. */
  ghost predicate Regenerates(st: State, op: Op, userId: string, crypto: Crypto) {
    || (op.EnableOp? && op.userId == userId && Enable(st, userId, op.code, op.hashes, crypto).1.None?)
    || (op.DisableOp? && op.userId == userId && Disable(st, userId, op.password, crypto).1.None?)
    || (op.RenewOp? && op.userId == userId && Renew(st, userId, op.code, op.hashes, crypto).1.None?)
  }

  ghost predicate NeverRegenerates(st: State, ops: seq<Op>, userId: string, crypto: Crypto)
    decreases |ops|
  {
    ops == []
    || (!Regenerates(st, ops[0], userId, crypto)
        && NeverRegenerates(Step(st, ops[0], crypto), ops[1..], userId, crypto))
  }

  /** `rest` is `list` with one element taken out, the others in order. */
  ghost predicate OneTaken(list: seq<string>, rest: seq<string>, k: nat) {
    k < |list| && rest == list[..k] + list[k + 1..]
  }

  lemma TakenCons(head: string, list: seq<string>, rest: seq<string>, j: nat)
    requires OneTaken(list, rest, j)
    ensures OneTaken([head] + list, [head] + rest, j + 1)
  {
    var longer := [head] + list;
    assert longer[..j + 1] == [head] + list[..j];
    assert longer[j + 2..] == list[j + 1..];
  }

  lemma {:induction false} RemoveFirstTakesOne(code: string, codes: seq<string>, crypto: Crypto) returns (k: nat)
    requires Matches(code, codes, crypto)
    ensures OneTaken(codes, RemoveFirst(code, codes, crypto), k) && crypto.compare(code, codes[k])
    ensures forall i :: 0 <= i < k ==> !crypto.compare(code, codes[i])
  {
    if crypto.compare(code, codes[0]) {
      k := 0;
    } else {
      var i :| 0 <= i < |codes| && crypto.compare(code, codes[i]);
      var head, tail := codes[0], codes[1..];
      assert tail[i - 1] == codes[i];
      var j := RemoveFirstTakesOne(code, tail, crypto);
      k := j + 1;
      TakenCons(head, tail, RemoveFirst(code, tail, crypto), j);
      assert codes == [head] + tail;
      hide RemoveFirst, OneTaken;
      assert forall x :: 0 < x < k ==> codes[x] == tail[x - 1];
    }
  }

  lemma TakenMultiset(list: seq<string>, rest: seq<string>, k: nat, plain: string -> string)
    requires OneTaken(list, rest, k)
    ensures multiset(Plain(list, plain)) == multiset{plain(list[k])} + multiset(Plain(rest, plain))
  {
    var a := Plain(list, plain);
    assert a == a[..k] + [a[k]] + a[k + 1..];
    assert Plain(rest, plain) == a[..k] + a[k + 1..];
  }

  /** What one step takes from the list is what it accepts. */
  lemma StepConserves(st: State, op: Op, userId: string, crypto: Crypto, plain: string -> string)
    requires Exact(crypto, plain) && !Regenerates(st, op, userId, crypto)
    ensures multiset(Plain(Codes(st, userId), plain))
         == multiset(UsedBy(st, op, userId, crypto)) + multiset(Plain(Codes(Step(st, op, crypto), userId), plain))
    ensures |Codes(Step(st, op, crypto), userId)| + |UsedBy(st, op, userId, crypto)| == |Codes(st, userId)|
  {
    if Submits(op, userId) && Judge(st, userId, op.code, crypto).Accepted? {
      SubmissionConserves(st, op, userId, crypto, plain);
    } else {
      CodesStay(st, op, userId, crypto);
    }
  }

  lemma CodesStay(st: State, op: Op, userId: string, crypto: Crypto)
    requires !Regenerates(st, op, userId, crypto)
    requires !(Submits(op, userId) && Judge(st, userId, op.code, crypto).Accepted?)
    ensures Codes(Step(st, op, crypto), userId) == Codes(st, userId)
  {
    hide JudgeCode, RateKey, Attempts;
  }

  /** An accepted submission leaves the codes that `Verify` leaves. */
  lemma SubmissionCodes(st: State, op: Op, userId: string, crypto: Crypto)
    requires !Regenerates(st, op, userId, crypto)
    requires Submits(op, userId) && Judge(st, userId, op.code, crypto).Accepted?
    ensures Codes(Step(st, op, crypto), userId) == Codes(Verify(st, userId, op.code, crypto).0, userId)
  {
    hide Judge;
  }

  lemma AcceptedCodes(st: State, userId: string, code: string, crypto: Crypto)
    requires Judge(st, userId, code, crypto).Accepted?
    ensures var after, backup := Codes(Verify(st, userId, code, crypto).0, userId), Judge(st, userId, code, crypto).backup;
      && Known(st, userId)
      && (backup.None? ==> after == Codes(st, userId))
      && (backup.Some? ==>
            && Matches(backup.value, Codes(st, userId), crypto)
            && after == RemoveFirst(backup.value, Codes(st, userId), crypto))
  {
    hide SixDigits, Present, RateKey, Attempts;
  }

  lemma SubmissionConserves(st: State, op: Op, userId: string, crypto: Crypto, plain: string -> string)
    requires Exact(crypto, plain) && !Regenerates(st, op, userId, crypto)
    requires Submits(op, userId) && Judge(st, userId, op.code, crypto).Accepted?
    ensures multiset(Plain(Codes(st, userId), plain))
         == multiset(UsedBy(st, op, userId, crypto)) + multiset(Plain(Codes(Step(st, op, crypto), userId), plain))
    ensures |Codes(Step(st, op, crypto), userId)| + |UsedBy(st, op, userId, crypto)| == |Codes(st, userId)|
  {
    SubmissionCodes(st, op, userId, crypto);
    AcceptedCodes(st, userId, op.code, crypto);
    hide Verify, Judge, Step, Regenerates, Codes, RemoveFirst, Matches;
    var backup, codes := Judge(st, userId, op.code, crypto).backup, Codes(st, userId);
    if backup.Some? {
      var k := RemoveFirstTakesOne(backup.value, codes, crypto);
      TakenMultiset(codes, RemoveFirst(backup.value, codes, crypto), k, plain);
    }
  }

  /** Between regenerations, the accepted codes and the remaining ones make up the generated ones. */
  lemma {:induction false} BackupCodesAreConserved(st: State, ops: seq<Op>, userId: string, crypto: Crypto,
                                                   plain: string -> string)
    requires Exact(crypto, plain) && NeverRegenerates(st, ops, userId, crypto)
    ensures multiset(Plain(Codes(st, userId), plain))
         == multiset(Used(st, ops, userId, crypto)) + multiset(Plain(Codes(Run(st, ops, crypto), userId), plain))
    ensures |Codes(Run(st, ops, crypto), userId)| + |Used(st, ops, userId, crypto)| == |Codes(st, userId)|
    decreases |ops|
  {
    if ops != [] {
      StepConserves(st, ops[0], userId, crypto, plain);
      BackupCodesAreConserved(Step(st, ops[0], crypto), ops[1..], userId, crypto, plain);
    }
  }

  /** So no code is accepted more often than it was generated. */
  lemma CodesAreSingleUse(st: State, ops: seq<Op>, userId: string, crypto: Crypto, plain: string -> string, code: string)
    requires Exact(crypto, plain) && NeverRegenerates(st, ops, userId, crypto)
    ensures multiset(Used(st, ops, userId, crypto))[code] <= multiset(Plain(Codes(st, userId), plain))[code]
  {
    BackupCodesAreConserved(st, ops, userId, crypto, plain);
  }

  /** A code of eight characters is accepted exactly while it is among the remaining ones. */
  lemma BackupCodeAcceptedIff(st: State, userId: string, code: string, crypto: Crypto, plain: string -> string)
    requires Exact(crypto, plain) && |crypto.upper(code)| == 8
    requires Attempts(st.store, userId) < LIMIT && Known(st, userId) && Record(st, userId).isTwoFactorEnabled
    ensures Judge(st, userId, code, crypto).Accepted? <==> crypto.upper(code) in Plain(Codes(st, userId), plain)
  {
    var text, codes := crypto.upper(code), Codes(st, userId);
    if text in Plain(codes, plain) {
      var i :| 0 <= i < |codes| && Plain(codes, plain)[i] == text;
      assert crypto.compare(text, codes[i]);
    }
    if Matches(text, codes, crypto) {
      var i :| 0 <= i < |codes| && crypto.compare(text, codes[i]);
      assert Plain(codes, plain)[i] == text;
    }
  }

  /** Renewing with a backup code spends the code; it yields new codes only if another one was left. */
  lemma RenewWithCodeNeedsAnother(st: State, userId: string, code: string, hashes: seq<string>, crypto: Crypto)
    requires Judge(st, userId, code, crypto).Accepted? && Judge(st, userId, code, crypto).backup.Some?
    ensures var (after, error) := Renew(st, userId, code, hashes, crypto);
      && (error.None? <==> |Codes(st, userId)| > 1)
      && (error.None? ==> Codes(after, userId) == hashes)
      && (error.Some? ==> Codes(after, userId) == [])
  {
    var (after, attempt) := Verify(st, userId, code, crypto);
    var k := RemoveFirstTakesOne(attempt.backup.value, Codes(st, userId), crypto);
    assert Codes(after, userId) == RemoveFirst(attempt.backup.value, Codes(st, userId), crypto);
  }

  /** A TOTP code is accepted after enabling exactly when it is valid for the secret that was set up. */
  lemma EnabledSecretIsUsed(st: State, userId: string, code: string, hashes: seq<string>, wait: nat, token: string,
                            crypto: Crypto)
    requires Known(st, userId) && Enable(st, userId, code, hashes, crypto).1.None?
    requires var secret := Record(st, userId).twoFactorToken.value;
      crypto.encrypt(secret) != "" && crypto.decrypt(crypto.encrypt(secret)) == Some(secret)
    requires SixDigits(crypto.upper(token))
    ensures var secret := Record(st, userId).twoFactorToken.value;
      var enabled := Enable(st, userId, code, hashes, crypto).0;
      var later := enabled.(store := Tick(enabled.store, wait));
      Judge(later, userId, token, crypto).Accepted? <==> crypto.totp(secret, crypto.upper(token), later.store.now)
  {
  }

  /** Right after enabling, each of the ten new codes is accepted as a backup code. */
  lemma NewCodesAreAccepted(st: State, userId: string, code: string, random: nat -> seq<Byte>,
                            hash: (string, nat) -> string, i: nat, crypto: Crypto, plain: string -> string)
    requires Exact(crypto, plain) && forall text, salt :: plain(hash(text, salt)) == text
    requires i < CODE_COUNT && |random(i)| == 4
    requires crypto.upper(Hex(random(i))) == Hex(random(i))
    requires Enable(st, userId, code, Hashed(NewCodes(random), hash), crypto).1.None?
    ensures var enabled := Enable(st, userId, code, Hashed(NewCodes(random), hash), crypto).0;
      && Plain(Codes(enabled, userId), plain) == NewCodes(random)
      && Judge(enabled, userId, NewCodes(random)[i], crypto) == Accepted(Some(NewCodes(random)[i]))
  {
    var enabled := Enable(st, userId, code, Hashed(NewCodes(random), hash), crypto).0;
    assert Attempts(enabled.store, userId) == 0;
    assert Plain(Codes(enabled, userId), plain) == NewCodes(random);
    BackupCodeAcceptedIff(enabled, userId, NewCodes(random)[i], crypto, plain);
  }
}

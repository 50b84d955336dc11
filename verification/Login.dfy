/** Two-stage login kept in session state. */
module Login {
  import opened Accounts
  import opened Basics
  import Twofa

  /** A verified password waiting for its code. */
  datatype Pending = Pending(userId: string, email: string, createdAt: int)

  datatype Session = Session(pending: Option<Pending>, user: Option<string>)

  const EMPTY := Session(None, None)

  /** `ms` is the clock in milliseconds. */
  datatype World = World(accounts: Twofa.State, sessions: map<string, Session>, ms: int)

  const PENDING_TIMEOUT := 5 * 60 * 1000

  /** What a successful call answers: a code is still needed, or this user is logged in. */
  datatype Answer = NeedsCode | LoggedIn(userId: string)

  ghost function Lookup(users: map<string, User>, email: string): (id: Option<string>)
    ensures id.Some? ==> id.value in users && users[id.value].email == email
    ensures id.None? ==> forall other :: other in users ==> users[other].email != email
  {
    if exists id :: id in users && users[id].email == email then
      var id :| id in users && users[id].email == email;
      Some(id)
    else None
  }

  function WithSession(w: World, sid: string, session: Session): World {
    w.(sessions := w.sessions[sid := session])
  }

  predicate TimedOut(sec: Security, ms: int) {
    sec.isTimedOut && sec.timedOutUntil.Some? && sec.timedOutUntil.value > ms
  }

  predicate MayLogIn(user: User, ms: int) {
    && user.security.Some?
    && user.security.value.isVerified
    && !user.security.value.isBanned
    && !TimedOut(user.security.value, ms)
  }

  // ---------- the operations ----------

  /** login */
  ghost function Enter(w: World, sid: string, email: string, password: string, crypto: Crypto)
    : (World, Result<Answer, HttpError>)
  {
    var users := w.accounts.users;
    match Lookup(users, email)
    case None => (w, Err(Unauthorized))
    case Some(id) =>
      var user := users[id];
      if !crypto.compare(password, user.password) then (w, Err(Unauthorized))
      else if !MayLogIn(user, w.ms) then (w, Err(Forbidden))
      else if user.security.value.isTwoFactorEnabled then
        (if sid in w.sessions then
           WithSession(w, sid, w.sessions[sid].(pending := Some(Pending(id, user.email, w.ms))))
         else w, Ok(NeedsCode))
      else if sid !in w.sessions then (w, Err(InternalError))
      else (WithSession(w, sid, w.sessions[sid].(user := Some(id))), Ok(LoggedIn(id)))
  }

  predicate HasPending(w: World, sid: string) {
    sid in w.sessions && w.sessions[sid].pending.Some?
  }

  function Drop(w: World, sid: string): World
    requires sid in w.sessions
  {
    WithSession(w, sid, w.sessions[sid].(pending := None))
  }

  predicate Expired(p: Pending, ms: int) {
    ms - p.createdAt > PENDING_TIMEOUT
  }

  /** verifyLogin2fa */
  ghost function Confirm(w: World, sid: string, email: string, code: string, crypto: Crypto)
    : (World, Result<Answer, HttpError>)
  {
    if !HasPending(w, sid) then (w, Err(BadRequest))
    else
      var p := w.sessions[sid].pending.value;
      var users := w.accounts.users;
      if Expired(p, w.ms) then (Drop(w, sid), Err(BadRequest))
      else if p.email != email then (w, Err(BadRequest))
      else if Lookup(users, email) != Some(p.userId) then (w, Err(NotFound))
      else if users[p.userId].security.None? || !users[p.userId].security.value.isTwoFactorEnabled then
        (Drop(w, sid), Err(BadRequest))
      else
        var (accounts, attempt) := Twofa.Verify(w.accounts, p.userId, code, crypto);
        if !attempt.Accepted? then (w.(accounts := accounts), Err(Unauthorized))
        else
          (WithSession(w.(accounts := accounts), sid, Session(None, Some(p.userId))), Ok(LoggedIn(p.userId)))
  }

  /** logout */
  function Leave(w: World, sid: string): World {
    w.(sessions := w.sessions - {sid})
  }

  // ---------- whole runs ----------

  /** `Edit` stands for whatever else happens to accounts: bans, time-outs, 2FA changes, deletion, ... */
  datatype Op =
    | OpenOp(sid: string)
    | LoginOp(sid: string, email: string, password: string)
    | CodeOp(sid: string, email: string, code: string)
    | LogoutOp(sid: string)
    | Edit(accounts: Twofa.State)
    | Wait(delay: nat)

  ghost function Reply(w: World, op: Op, crypto: Crypto): (World, Result<Answer, HttpError>) {
    match op
    case OpenOp(sid) => (if sid in w.sessions then w else WithSession(w, sid, EMPTY), Err(BadRequest))
    case LoginOp(sid, email, password) => Enter(w, sid, email, password, crypto)
    case CodeOp(sid, email, code) => Confirm(w, sid, email, code, crypto)
    case LogoutOp(sid) => (Leave(w, sid), Err(BadRequest))
    case Edit(accounts) => (w.(accounts := accounts), Err(BadRequest))
    case Wait(delay) => (w.(ms := w.ms + delay), Err(BadRequest))
  }

  /** The world before step k. */
  ghost function At(w: World, ops: seq<Op>, k: nat, crypto: Crypto): World
    requires k <= |ops|
    decreases k
  {
    if k == 0 then w else Reply(At(w, ops, k - 1, crypto), ops[k - 1], crypto).0
  }

  /** A login step of this session whose password check for u succeeds and who may log in. */
  ghost predicate PasswordOk(w: World, op: Op, sid: string, u: string, crypto: Crypto) {
    && op.LoginOp? && op.sid == sid
    && Lookup(w.accounts.users, op.email) == Some(u)
    && crypto.compare(op.password, w.accounts.users[u].password)
    && MayLogIn(w.accounts.users[u], w.ms)
  }

  predicate TwoFactorOn(w: World, u: string) {
    u in w.accounts.users && w.accounts.users[u].security.Some?
    && w.accounts.users[u].security.value.isTwoFactorEnabled
  }

  /** The step makes u the user of the session. */
  ghost predicate Enters(w: World, op: Op, sid: string, u: string, crypto: Crypto) {
    (op.LoginOp? || op.CodeOp?) && op.sid == sid && Reply(w, op, crypto).1 == Ok(LoggedIn(u))
  }

  /** The session was not ended by steps j .. k - 1. */
  predicate Lasts(ops: seq<Op>, sid: string, j: nat, k: nat)
    requires k <= |ops|
  {
    forall i :: j <= i < k ==> ops[i] != LogoutOp(sid)
  }

  /** Step j checked the password for u; without 2FA it is step k, with 2FA step k brought an accepted code in time. */
  ghost predicate Authorises(w: World, ops: seq<Op>, j: nat, k: nat, sid: string, u: string, crypto: Crypto)
    requires k < |ops|
  {
    && j <= k
    && PasswordOk(At(w, ops, j, crypto), ops[j], sid, u, crypto)
    && Lasts(ops, sid, j, k)
    && if TwoFactorOn(At(w, ops, j, crypto), u) then
         && ops[k].CodeOp?
         && Twofa.Judge(At(w, ops, k, crypto).accounts, u, ops[k].code, crypto).Accepted?
         && At(w, ops, k, crypto).ms - At(w, ops, j, crypto).ms <= PENDING_TIMEOUT
       else j == k
  }

  /** The pending login of a session was left by step j. */
  ghost predicate PendingFrom(w: World, ops: seq<Op>, j: nat, k: nat, sid: string, crypto: Crypto)
    requires k <= |ops| && HasPending(At(w, ops, k, crypto), sid)
  {
    var p := At(w, ops, k, crypto).sessions[sid].pending.value;
    && j < k
    && PasswordOk(At(w, ops, j, crypto), ops[j], sid, p.userId, crypto)
    && TwoFactorOn(At(w, ops, j, crypto), p.userId)
    && At(w, ops, j, crypto).ms == p.createdAt
    && Lasts(ops, sid, j, k)
  }

  /** A step leaves pending logins alone, removes them or adds the one of its own password check. */
  lemma StepPending(w: World, op: Op, sid: string, crypto: Crypto)
    requires HasPending(Reply(w, op, crypto).0, sid)
    ensures op != LogoutOp(sid)
    ensures var p := Reply(w, op, crypto).0.sessions[sid].pending;
      || (HasPending(w, sid) && w.sessions[sid].pending == p)
      || (PasswordOk(w, op, sid, p.value.userId, crypto) && TwoFactorOn(w, p.value.userId) && w.ms == p.value.createdAt)
  {
    match op
    case CodeOp(s, email, code) => ConfirmDrops(w, s, email, code, sid, crypto);
    case LoginOp(s, email, password) =>
    case _ =>
  }

  lemma ConfirmDrops(w: World, s: string, email: string, code: string, sid: string, crypto: Crypto)
    requires HasPending(Confirm(w, s, email, code, crypto).0, sid)
    ensures HasPending(w, sid) && w.sessions[sid].pending == Confirm(w, s, email, code, crypto).0.sessions[sid].pending
  {
  }

  lemma {:induction false} PendingHasOrigin(w: World, ops: seq<Op>, k: nat, sid: string, crypto: Crypto) returns (j: nat)
    requires w.sessions == map[] && k <= |ops| && HasPending(At(w, ops, k, crypto), sid)
    ensures PendingFrom(w, ops, j, k, sid, crypto)
  {
    var before := At(w, ops, k - 1, crypto);
    StepPending(before, ops[k - 1], sid, crypto);
    if HasPending(before, sid) && before.sessions[sid].pending == At(w, ops, k, crypto).sessions[sid].pending {
      j := PendingHasOrigin(w, ops, k - 1, sid, crypto);
    } else {
      j := k - 1;
    }
  }

  /** Every step that sets the user of a session is authorised by a password check in that session. */
  lemma EntryIsAuthorised(w: World, ops: seq<Op>, k: nat, sid: string, u: string, crypto: Crypto) returns (j: nat)
    requires w.sessions == map[] && k < |ops| && Enters(At(w, ops, k, crypto), ops[k], sid, u, crypto)
    ensures Authorises(w, ops, j, k, sid, u, crypto)
  {
    if ops[k].LoginOp? {
      j := k;
    } else {
      j := PendingHasOrigin(w, ops, k, sid, crypto);
    }
  }

  lemma StepUser(w: World, op: Op, sid: string, u: string, crypto: Crypto)
    requires sid in Reply(w, op, crypto).0.sessions && Reply(w, op, crypto).0.sessions[sid].user == Some(u)
    ensures op != LogoutOp(sid)
    ensures Enters(w, op, sid, u, crypto) || (sid in w.sessions && w.sessions[sid].user == Some(u))
  {
  }

  /** The user of a session entered it at some step, and the session has lasted since. */
  lemma {:induction false} UserHasEntered(w: World, ops: seq<Op>, k: nat, sid: string, u: string, crypto: Crypto)
    returns (i: nat)
    requires w.sessions == map[] && k <= |ops|
    requires sid in At(w, ops, k, crypto).sessions && At(w, ops, k, crypto).sessions[sid].user == Some(u)
    ensures i < k && Enters(At(w, ops, i, crypto), ops[i], sid, u, crypto) && Lasts(ops, sid, i, k)
  {
    var before := At(w, ops, k - 1, crypto);
    StepUser(before, ops[k - 1], sid, u, crypto);
    if Enters(before, ops[k - 1], sid, u, crypto) {
      i := k - 1;
    } else {
      i := UserHasEntered(w, ops, k - 1, sid, u, crypto);
    }
  }

  /**
   * Login safety. Whenever a session has user u, its password was checked for u in that session, while
   * u was verified, not banned and not timed out; if 2FA was on at that check, a code for u was
   * accepted at most five minutes later.
   */
  lemma LoginIsSafe(w: World, ops: seq<Op>, k: nat, sid: string, u: string, crypto: Crypto) returns (j: nat, i: nat)
    requires w.sessions == map[] && k <= |ops|
    requires sid in At(w, ops, k, crypto).sessions && At(w, ops, k, crypto).sessions[sid].user == Some(u)
    ensures j <= i < k && Authorises(w, ops, j, i, sid, u, crypto)
    ensures Lasts(ops, sid, j, k)
  {
    i := UserHasEntered(w, ops, k, sid, u, crypto);
    j := EntryIsAuthorised(w, ops, i, sid, u, crypto);
  }

  // ---------- what the second stage does not look at ----------

  function Moderated(w: World, u: string, verified: bool, banned: bool, timedOut: bool, until: Option<int>): World
    requires Twofa.Known(w.accounts, u)
  {
    var sec := Twofa.Record(w.accounts, u);
    w.(accounts := Twofa.WithRecord(w.accounts, u,
      sec.(isVerified := verified, isBanned := banned, isTimedOut := timedOut, timedOutUntil := until)))
  }

  ghost predicate UniqueEmails(users: map<string, User>) {
    forall a, b :: a in users && b in users && users[a].email == users[b].email ==> a == b
  }

  /** A ban or time-out between the two stages does not stop the second one. */
  lemma SecondStageIgnoresModeration(w: World, sid: string, email: string, code: string, u: string, verified: bool,
                                     banned: bool, timedOut: bool, until: Option<int>, crypto: Crypto)
    requires Twofa.Known(w.accounts, u) && UniqueEmails(w.accounts.users)
    ensures var m := Moderated(w, u, verified, banned, timedOut, until);
      Confirm(m, sid, email, code, crypto).1 == Confirm(w, sid, email, code, crypto).1
  {
    var m := Moderated(w, u, verified, banned, timedOut, until);
    assert Lookup(m.accounts.users, email) == Lookup(w.accounts.users, email) by {
      SameLookup(w.accounts.users, m.accounts.users, email);
    }
    if HasPending(w, sid) {
      SameJudgement(w, w.sessions[sid].pending.value.userId, code, u, verified, banned, timedOut, until, crypto);
    }
  }

  lemma SameLookup(users: map<string, User>, others: map<string, User>, email: string)
    requires UniqueEmails(users) && users.Keys == others.Keys
    requires forall id :: id in users ==> users[id].email == others[id].email
    ensures Lookup(others, email) == Lookup(users, email)
  {
    var a, b := Lookup(users, email), Lookup(others, email);
    if a.Some? {
      assert others[a.value].email == email;
    }
  }

  lemma SameJudgement(w: World, id: string, code: string, u: string, verified: bool, banned: bool, timedOut: bool,
                      until: Option<int>, crypto: Crypto)
    requires Twofa.Known(w.accounts, u)
    ensures Twofa.Judge(Moderated(w, u, verified, banned, timedOut, until).accounts, id, code, crypto)
         == Twofa.Judge(w.accounts, id, code, crypto)
  {
  }

  /** Which entries respect the flags at that moment: those of the first stage do. */
  lemma FirstStageRespectsModeration(w: World, op: Op, sid: string, u: string, crypto: Crypto)
    requires Enters(w, op, sid, u, crypto) && op.LoginOp?
    ensures u in w.accounts.users && MayLogIn(w.accounts.users[u], w.ms)
  {
  }

  /** An account with 2FA on that may log in. */
  predicate Ready(w: World, u: string) {
    && Twofa.Known(w.accounts, u)
    && Twofa.Record(w.accounts, u).isTwoFactorEnabled
    && MayLogIn(w.accounts.users[u], w.ms)
  }

  /** A user logs in with a password, is banned, and then sends a code. */
  function BannedBetween(w: World, sid: string, u: string, password: string, code: string): seq<Op>
    requires Twofa.Known(w.accounts, u)
  {
    var email := w.accounts.users[u].email;
    var sec := Twofa.Record(w.accounts, u);
    [OpenOp(sid), LoginOp(sid, email, password),
     Edit(Twofa.WithRecord(w.accounts, u, sec.(isBanned := true))), CodeOp(sid, email, code)]
  }

  /**
   * The gap, exactly: after a correct password and a ban, a code logs the banned user in if and only
   * if it would have been accepted without the ban.
   */
  lemma BannedUserEntersIff(w: World, sid: string, u: string, password: string, code: string, crypto: Crypto)
    requires w.sessions == map[] && Ready(w, u) && UniqueEmails(w.accounts.users)
    requires crypto.compare(password, w.accounts.users[u].password)
    ensures var ops := BannedBetween(w, sid, u, password, code);
      var last := At(w, ops, 3, crypto);
      && u in last.accounts.users && !MayLogIn(last.accounts.users[u], last.ms)
      && (Enters(last, ops[3], sid, u, crypto) <==> Twofa.Judge(w.accounts, u, code, crypto).Accepted?)
  {
    var ops := BannedBetween(w, sid, u, password, code);
    var email := w.accounts.users[u].email;
    var w1, w2, w3 := At(w, ops, 1, crypto), At(w, ops, 2, crypto), At(w, ops, 3, crypto);
    assert At(w, ops, 0, crypto) == w;
    assert w1 == WithSession(w, sid, EMPTY);
    assert Lookup(w.accounts.users, email) == Some(u);
    assert w2 == WithSession(w1, sid, Session(Some(Pending(u, email, w.ms)), None));
    assert w3 == w2.(accounts := Twofa.WithRecord(w.accounts, u, Twofa.Record(w.accounts, u).(isBanned := true)));
    SameLookup(w.accounts.users, w3.accounts.users, email);
    var sec := Twofa.Record(w.accounts, u);
    SameJudgement(w, u, code, u, sec.isVerified, true, sec.isTimedOut, sec.timedOutUntil, crypto);
    assert w3.accounts == Moderated(w, u, sec.isVerified, true, sec.isTimedOut, sec.timedOutUntil).accounts;
  }

  // ---------- when a login succeeds ----------

  /** The account that a correct e-mail and password name. */
  ghost predicate PasswordNames(w: World, email: string, password: string, u: string, crypto: Crypto) {
    Lookup(w.accounts.users, email) == Some(u) && crypto.compare(password, w.accounts.users[u].password)
  }

  /** The first stage: which of its answers is given, and what it leaves in the session. */
  lemma FirstStageAnswers(w: World, sid: string, email: string, password: string, u: string, crypto: Crypto)
    ensures var (after, r) := Reply(w, LoginOp(sid, email, password), crypto);
      && (r == Ok(LoggedIn(u)) <==>
            && PasswordNames(w, email, password, u, crypto) && MayLogIn(w.accounts.users[u], w.ms)
            && !TwoFactorOn(w, u) && sid in w.sessions)
      && (r == Ok(LoggedIn(u)) ==>
            after == w.(sessions := w.sessions[sid := Session(w.sessions[sid].pending, Some(u))]))
      && (PasswordNames(w, email, password, u, crypto) ==>
            (r == Ok(NeedsCode) <==> MayLogIn(w.accounts.users[u], w.ms) && TwoFactorOn(w, u)))
      && (r == Ok(NeedsCode) && sid in w.sessions && PasswordNames(w, email, password, u, crypto) ==>
            after == w.(sessions := w.sessions[sid := Session(Some(Pending(u, email, w.ms)), w.sessions[sid].user)]))
      && (r == Err(Unauthorized) <==> forall other :: !PasswordNames(w, email, password, other, crypto))
      && (PasswordNames(w, email, password, u, crypto) ==>
            (r == Err(Forbidden) <==> !MayLogIn(w.accounts.users[u], w.ms)))
      && (r.Err? ==> after == w)
  {
    var found := Lookup(w.accounts.users, email);
    if found.Some? && crypto.compare(password, w.accounts.users[found.value].password) {
      assert PasswordNames(w, email, password, found.value, crypto);
    }
  }

  /** Who may log in, flag by flag. */
  lemma MayLogInIff(user: User, ms: int)
    requires user.security.Some?
    ensures var sec := user.security.value;
      MayLogIn(user, ms) <==>
        && sec.isVerified && !sec.isBanned
        && !(sec.isTimedOut && exists until :: sec.timedOutUntil == Some(until) && until > ms)
  {
  }

  /** An operation on another session, or the passing of time. */
  predicate Elsewhere(op: Op, sid: string) {
    match op
    case OpenOp(s) => s != sid
    case LoginOp(s, _, _) => s != sid
    case CodeOp(s, _, _) => s != sid
    case LogoutOp(s) => s != sid
    case Edit(_) => true
    case Wait(_) => true
  }

  function TotalWait(ops: seq<Op>): nat {
    if ops == [] then 0 else (if ops[0].Wait? then ops[0].delay else 0) + TotalWait(ops[1..])
  }

  ghost function RunAll(w: World, ops: seq<Op>, crypto: Crypto): World
    decreases |ops|
  {
    if ops == [] then w else RunAll(Reply(w, ops[0], crypto).0, ops[1..], crypto)
  }

  lemma ElsewhereKeepsSession(w: World, op: Op, sid: string, crypto: Crypto)
    requires Elsewhere(op, sid) && sid in w.sessions
    ensures var after := Reply(w, op, crypto).0;
      && sid in after.sessions && after.sessions[sid] == w.sessions[sid]
      && after.ms == w.ms + (if op.Wait? then op.delay else 0)
  {
  }

  lemma {:induction false} RunKeepsSession(w: World, ops: seq<Op>, sid: string, crypto: Crypto)
    requires sid in w.sessions && forall i :: 0 <= i < |ops| ==> Elsewhere(ops[i], sid)
    ensures var after := RunAll(w, ops, crypto);
      && sid in after.sessions && after.sessions[sid] == w.sessions[sid]
      && after.ms == w.ms + TotalWait(ops)
    decreases |ops|
  {
    if ops != [] {
      ElsewhereKeepsSession(w, ops[0], sid, crypto);
      RunKeepsSession(Reply(w, ops[0], crypto).0, ops[1..], sid, crypto);
    }
  }

  /** The pending login of a session that is still in time and belongs to this e-mail. */
  ghost predicate Awaits(w: World, sid: string, email: string, u: string) {
    && HasPending(w, sid)
    && w.sessions[sid].pending.value.userId == u && w.sessions[sid].pending.value.email == email
    && w.ms - w.sessions[sid].pending.value.createdAt <= 300000
  }

  /** The second stage: when it succeeds, which error is given otherwise, and what becomes of the pending login. */
  lemma SecondStageAnswers(w: World, sid: string, email: string, code: string, u: string, crypto: Crypto)
    ensures var (after, r) := Reply(w, CodeOp(sid, email, code), crypto);
      && (r == Ok(LoggedIn(u)) <==>
            && Awaits(w, sid, email, u) && Lookup(w.accounts.users, email) == Some(u)
            && Twofa.Judge(w.accounts, u, code, crypto).Accepted?)
      && (r == Ok(LoggedIn(u)) ==> after.sessions == w.sessions[sid := Session(None, Some(u))])
      && r != Ok(NeedsCode)
      && (Awaits(w, sid, email, u) ==>
            && (r == Err(NotFound) <==> Lookup(w.accounts.users, email) != Some(u))
            && (Lookup(w.accounts.users, email) == Some(u) ==>
                  && (r == Err(BadRequest) <==> !TwoFactorOn(w, u))
                  && (r == Err(Unauthorized) <==>
                        TwoFactorOn(w, u) && !Twofa.Judge(w.accounts, u, code, crypto).Accepted?)))
      && ((forall other :: !Awaits(w, sid, email, other)) ==> r == Err(BadRequest))
      && (r.Err? && HasPending(w, sid) ==>
            var expired := w.ms - w.sessions[sid].pending.value.createdAt > 300000;
            var disabled := Awaits(w, sid, email, u) && Lookup(w.accounts.users, email) == Some(u) && !TwoFactorOn(w, u);
            && sid in after.sessions && after.sessions[sid].user == w.sessions[sid].user
            && (expired ==> after.sessions[sid].pending.None?)
            && (disabled ==> after.sessions[sid].pending.None?)
            && (!expired && !(exists v :: Awaits(w, sid, email, v) && Lookup(w.accounts.users, email) == Some(v) && !TwoFactorOn(w, v))
                ==> after.sessions == w.sessions))
  {
    hide Twofa.JudgeCode, Lookup;
    if HasPending(w, sid) {
      var v := w.sessions[sid].pending.value.userId;
      assert w.ms - w.sessions[sid].pending.value.createdAt <= 300000 && w.sessions[sid].pending.value.email == email
        ==> Awaits(w, sid, email, v);
    }
  }

  /**
   * The second stage is complete. After a first stage that asked for a code, and any operations that
   * leave this session alone, a code logs the user in if and only if at most 300000 milliseconds have
   * passed, the e-mail still names the user, and the code is accepted at that moment.
   */
  lemma CodeInTimeEntersIff(w: World, sid: string, email: string, password: string, u: string, ops: seq<Op>,
                            code: string, crypto: Crypto)
    requires sid in w.sessions && PasswordNames(w, email, password, u, crypto)
    requires Reply(w, LoginOp(sid, email, password), crypto).1 == Ok(NeedsCode)
    requires forall i :: 0 <= i < |ops| ==> Elsewhere(ops[i], sid)
    ensures var later := RunAll(Reply(w, LoginOp(sid, email, password), crypto).0, ops, crypto);
      var (after, r) := Reply(later, CodeOp(sid, email, code), crypto);
      && (r == Ok(LoggedIn(u)) <==>
            && TotalWait(ops) <= 300000
            && Lookup(later.accounts.users, email) == Some(u)
            && Twofa.Judge(later.accounts, u, code, crypto).Accepted?)
      && (r.Ok? ==> r == Ok(LoggedIn(u)) && after.sessions == later.sessions[sid := Session(None, Some(u))])
      && (r.Err? ==> sid in after.sessions && after.sessions[sid].user == w.sessions[sid].user)
      && (TotalWait(ops) > 300000 ==> r == Err(BadRequest) && after.sessions[sid].pending.None?)
  {
    var asked := Reply(w, LoginOp(sid, email, password), crypto).0;
    FirstStageAnswers(w, sid, email, password, u, crypto);
    RunKeepsSession(asked, ops, sid, crypto);
    var later := RunAll(asked, ops, crypto);
    assert later.sessions[sid].pending == Some(Pending(u, email, w.ms));
    hide RunAll, Twofa.JudgeCode;
  }

  /** So with unchanged accounts only the time and the code decide. */
  lemma CodeInTimeEntersUnchanged(w: World, sid: string, email: string, password: string, u: string, ops: seq<Op>,
                                  code: string, crypto: Crypto)
    requires sid in w.sessions && PasswordNames(w, email, password, u, crypto)
    requires Reply(w, LoginOp(sid, email, password), crypto).1 == Ok(NeedsCode)
    requires forall i :: 0 <= i < |ops| ==> Elsewhere(ops[i], sid)
    requires RunAll(Reply(w, LoginOp(sid, email, password), crypto).0, ops, crypto).accounts.users == w.accounts.users
    ensures var later := RunAll(Reply(w, LoginOp(sid, email, password), crypto).0, ops, crypto);
      Reply(later, CodeOp(sid, email, code), crypto).1 == Ok(LoggedIn(u)) <==>
        TotalWait(ops) <= 300000 && Twofa.Judge(later.accounts, u, code, crypto).Accepted?
  {
    CodeInTimeEntersIff(w, sid, email, password, u, ops, code, crypto);
  }

  /** Logging out ends the session and no other. */
  lemma LogoutEndsSession(w: World, sid: string, crypto: Crypto)
    ensures var after := Reply(w, LogoutOp(sid), crypto).0;
      && sid !in after.sessions && after.accounts == w.accounts
      && forall other :: other != sid ==>
           (other in after.sessions <==> other in w.sessions)
           && (other in w.sessions ==> after.sessions[other] == w.sessions[other])
  {
  }
}

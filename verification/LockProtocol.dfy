/** The lease lock: one client's acquire loop, and the protocol between any number of clients. */
module LockProtocol {
  import opened Basics
  import opened RedisModel

  const DEFAULT_RETRY_DELAY: nat := 100

  /** `options.retryDelay || 100` */
  function RetryDelay(requested: nat): (delay: nat)
    ensures delay > 0 && (requested > 0 ==> delay == requested) && (requested == 0 ==> delay == 100)
  {
    if requested == 0 then DEFAULT_RETRY_DELAY else requested
  }

  /** The release script: delete the lock only if it still carries this identifier. */
  function CompareAndDelete(st: Store, lockKey: string, lockId: string): (Store, bool) {
    if Get(st, lockKey) == Some(Str(lockId)) then (Del(st, {lockKey}), true) else (st, false)
  }

  /** ceil(timeout / delay) */
  function MaxAttempts(timeout: nat, delay: nat): nat
    requires delay > 0
  {
    (timeout + delay - 1) / delay
  }

  lemma AttemptFits(attempts: nat, timeout: nat, delay: nat)
    requires delay > 0 && attempts * delay < timeout
    ensures attempts + 1 <= MaxAttempts(timeout, delay)
  {
    var q := MaxAttempts(timeout, delay);
    assert q * delay >= timeout;
    Cancel(attempts, q, delay);
  }

  lemma Cancel(a: nat, b: nat, factor: nat)
    requires a * factor < b * factor
    ensures a < b
  {
  }

  // ---------- one client's acquire loop ----------

  /** A command another client sends for the same lock. */
  datatype Rival = Take(id: string, timeout: nat) | GiveBack(id: string)

  /** One wait between two attempts: how much longer than asked, and what the others did meanwhile. */
  datatype Pause = Pause(extra: nat, rivals: seq<Rival>)

  function Compete(st: Store, lockKey: string, rivals: seq<Rival>): (after: Store)
    ensures after.now == st.now
    decreases |rivals|
  {
    if rivals == [] then st
    else
      var next := match rivals[0]
        case Take(id, timeout) => SetNx(st, lockKey, Str(id), timeout).0
        case GiveBack(id) => CompareAndDelete(st, lockKey, id).0;
      Compete(next, lockKey, rivals[1..])
  }

  function Sleep(st: Store, lockKey: string, delay: nat, pauses: seq<Pause>): (after: Store)
    ensures after.now >= st.now + delay
  {
    if pauses == [] then Tick(st, delay)
    else Compete(Tick(st, delay + pauses[0].extra), lockKey, pauses[0].rivals)
  }

  function Later(pauses: seq<Pause>): seq<Pause> {
    if pauses == [] then [] else pauses[1..]
  }

  datatype Acquired = Acquired(store: Store, lockId: Option<string>, attempts: nat)

  /** The loop of `acquireLock` from a given moment on. */
  function Acquire(st: Store, lockKey: string, lockId: string, start: int, timeout: nat, delay: nat,
                   pauses: seq<Pause>, attempts: nat): Acquired
    requires delay > 0
    decreases timeout - (st.now - start)
  {
    if st.now - start >= timeout then Acquired(st, None, attempts)
    else
      var (after, ok) := SetNx(st, lockKey, Str(lockId), timeout);
      if ok then Acquired(after, Some(lockId), attempts + 1)
      else Acquire(Sleep(after, lockKey, delay, pauses), lockKey, lockId, start, timeout, delay, Later(pauses), attempts + 1)
  }

  /**
   * The loop ends after at most ceil(timeout / delay) attempts. It returns the identifier exactly
   * when its last attempt found the lock free, and then holds a full lease; it gives up only when the
   * time is over.
   */
  lemma {:induction false} AcquireOutcome(st: Store, lockKey: string, lockId: string, start: int, timeout: nat,
                                          delay: nat, pauses: seq<Pause>, attempts: nat)
    requires delay > 0 && attempts * delay <= st.now - start
    ensures var r := Acquire(st, lockKey, lockId, start, timeout, delay, pauses, attempts);
      && r.attempts <= Max(attempts, MaxAttempts(timeout, delay))
      && (r.lockId.Some? ==>
            && r.lockId.value == lockId
            && r.store.now - start < timeout
            && lockKey in r.store.db
            && r.store.db[lockKey] == Entry(Str(lockId), Some(r.store.now + timeout)))
      && (r.lockId.None? ==> r.store.now - start >= timeout)
    decreases timeout - (st.now - start)
  {
    if st.now - start < timeout {
      AttemptFits(attempts, timeout, delay);
      var (after, ok) := SetNx(st, lockKey, Str(lockId), timeout);
      if !ok {
        var next := Sleep(after, lockKey, delay, pauses);
        assert (attempts + 1) * delay == attempts * delay + delay;
        AcquireOutcome(next, lockKey, lockId, start, timeout, delay, Later(pauses), attempts + 1);
      }
    }
  }

  /**
   * The store when attempt number k is due, if none succeeded before: only time and the rivals have
   * acted on it.
   */
  function Due(st: Store, lockKey: string, delay: nat, pauses: seq<Pause>, k: nat): Store
    decreases k
  {
    if k == 0 then st else Due(Sleep(st, lockKey, delay, pauses), lockKey, delay, Later(pauses), k - 1)
  }

  /** The attempt is due before the time is over. */
  predicate InWindow(due: Store, start: int, timeout: nat) {
    due.now - start < timeout
  }

  lemma {:induction false} DueTime(st: Store, lockKey: string, delay: nat, pauses: seq<Pause>, k: nat)
    ensures Due(st, lockKey, delay, pauses, k).now >= st.now + k * delay
    decreases k
  {
    if k > 0 {
      DueTime(Sleep(st, lockKey, delay, pauses), lockKey, delay, Later(pauses), k - 1);
      assert k * delay == delay + (k - 1) * delay;
    }
  }

  /** Attempts are due later and later. */
  lemma {:induction false} DueIsMonotone(st: Store, lockKey: string, delay: nat, pauses: seq<Pause>, j: nat, k: nat)
    requires j <= k
    ensures Due(st, lockKey, delay, pauses, j).now <= Due(st, lockKey, delay, pauses, k).now
    decreases k
  {
    if j == 0 {
      DueTime(st, lockKey, delay, pauses, k);
    } else {
      DueIsMonotone(Sleep(st, lockKey, delay, pauses), lockKey, delay, Later(pauses), j - 1, k - 1);
    }
  }

  /** The lock is in use, and time is left, at each of the first n instants at which an attempt is due. */
  ghost predicate InUse(st: Store, lockKey: string, start: int, timeout: nat, delay: nat, pauses: seq<Pause>, n: nat) {
    forall k :: 0 <= k < n ==>
      InWindow(Due(st, lockKey, delay, pauses, k), start, timeout) && Live(Due(st, lockKey, delay, pauses, k), lockKey)
  }

  lemma InUseCons(st: Store, lockKey: string, start: int, timeout: nat, delay: nat, pauses: seq<Pause>, n: nat)
    requires InWindow(st, start, timeout) && Live(st, lockKey)
    requires InUse(Sleep(st, lockKey, delay, pauses), lockKey, start, timeout, delay, Later(pauses), n)
    ensures InUse(st, lockKey, start, timeout, delay, pauses, n + 1)
  {
    var next, later := Sleep(st, lockKey, delay, pauses), Later(pauses);
    forall k | 0 <= k < n + 1
      ensures InWindow(Due(st, lockKey, delay, pauses, k), start, timeout) && Live(Due(st, lockKey, delay, pauses, k), lockKey)
    {
      if k > 0 {
        assert Due(st, lockKey, delay, pauses, k) == Due(next, lockKey, delay, later, k - 1);
      }
    }
  }

  /**
   * The loop sends its attempts one per due instant. It takes the lock at the first instant at which
   * the key is free, and gives up at the first one at which the time is over.
   */
  lemma {:induction false} AcquireAtFirstFree(st: Store, lockKey: string, lockId: string, start: int, timeout: nat,
                                              delay: nat, pauses: seq<Pause>, attempts: nat) returns (n: nat)
    requires delay > 0
    ensures InUse(st, lockKey, start, timeout, delay, pauses, n)
    ensures var due := Due(st, lockKey, delay, pauses, n);
      var r := Acquire(st, lockKey, lockId, start, timeout, delay, pauses, attempts);
      if InWindow(due, start, timeout) then
        && !Live(due, lockKey)
        && r == Acquired(Set(due, lockKey, Str(lockId), timeout), Some(lockId), attempts + n + 1)
      else
        r == Acquired(due, None, attempts + n)
    decreases timeout - (st.now - start)
  {
    if InWindow(st, start, timeout) && Live(st, lockKey) {
      var next := Sleep(st, lockKey, delay, pauses);
      var m := AcquireAtFirstFree(next, lockKey, lockId, start, timeout, delay, Later(pauses), attempts + 1);
      InUseCons(st, lockKey, start, timeout, delay, pauses, m);
      n := m + 1;
    } else {
      n := 0;
    }
  }

  /** It gives up if and only if the key was in use at every instant before the timeout at which an attempt was due. */
  lemma GivesUpIff(st: Store, lockKey: string, lockId: string, start: int, timeout: nat, delay: nat,
                   pauses: seq<Pause>, attempts: nat)
    requires delay > 0
    ensures Acquire(st, lockKey, lockId, start, timeout, delay, pauses, attempts).lockId.None? <==>
      forall k: nat :: InWindow(Due(st, lockKey, delay, pauses, k), start, timeout) ==>
        Live(Due(st, lockKey, delay, pauses, k), lockKey)
  {
    var n := AcquireAtFirstFree(st, lockKey, lockId, start, timeout, delay, pauses, attempts);
    if !InWindow(Due(st, lockKey, delay, pauses, n), start, timeout) {
      forall k: nat | InWindow(Due(st, lockKey, delay, pauses, k), start, timeout)
        ensures Live(Due(st, lockKey, delay, pauses, k), lockKey)
      {
        if k >= n {
          DueIsMonotone(st, lockKey, delay, pauses, n, k);
        }
      }
    }
  }

  // ---------- any number of clients ----------

  /** Where a client is inside `withLock`. */
  datatype Client =
    | Idle
    | Trying(id: string, start: int, timeout: nat, delay: nat, attempts: nat, nextAt: int)
    | Inside(id: string, until: int)

  datatype World = World(store: Store, clients: map<nat, Client>, usedIds: set<string>)

  datatype Op =
    | Begin(client: nat, id: string, timeout: nat, retryDelay: nat)
    | Attempt(client: nat)
    | GiveUp(client: nat)
    | Leave(client: nat)
    | Wait(delay: nat)

  function At(w: World, client: nat): Client {
    if client in w.clients then w.clients[client] else Idle
  }

  /** A step a client is allowed to take now; identifiers are never used twice. */
  predicate Enabled(w: World, op: Op) {
    match op
    case Begin(c, id, _, _) => At(w, c).Idle? && id !in w.usedIds
    case Attempt(c) =>
      At(w, c).Trying? && At(w, c).nextAt <= w.store.now && w.store.now - At(w, c).start < At(w, c).timeout
    case GiveUp(c) =>
      At(w, c).Trying? && At(w, c).nextAt <= w.store.now && w.store.now - At(w, c).start >= At(w, c).timeout
    case Leave(c) => At(w, c).Inside?
    case Wait(_) => true
  }

  function Step(w: World, lockKey: string, op: Op): World
    requires Enabled(w, op)
  {
    match op
    case Begin(c, id, timeout, retryDelay) =>
      w.(clients := w.clients[c := Trying(id, w.store.now, timeout, RetryDelay(retryDelay), 0, w.store.now)],
         usedIds := w.usedIds + {id})
    case Attempt(c) =>
      var me := At(w, c);
      var (after, ok) := SetNx(w.store, lockKey, Str(me.id), me.timeout);
      if ok then w.(store := after, clients := w.clients[c := Inside(me.id, w.store.now + me.timeout)])
      else w.(clients := w.clients[c := me.(attempts := me.attempts + 1, nextAt := w.store.now + me.delay)])
    case GiveUp(c) => w.(clients := w.clients[c := Idle])
    case Leave(c) =>
      w.(store := CompareAndDelete(w.store, lockKey, At(w, c).id).0, clients := w.clients[c := Idle])
    case Wait(delay) => w.(store := Tick(w.store, delay))
  }

  /** A client whose lease has not run out. */
  predicate Leases(w: World, client: nat) {
    At(w, client).Inside? && w.store.now < At(w, client).until
  }

  // The five parts of the invariant, client by client.

  predicate Named(w: World, c: nat) {
    At(w, c) != Idle ==> At(w, c).id in w.usedIds
  }

  predicate Apart(w: World, c: nat, d: nat) {
    c != d && At(w, c) != Idle && At(w, d) != Idle ==> At(w, c).id != At(w, d).id
  }

  /** A running lease is what the store holds. */
  predicate Backed(w: World, lockKey: string, c: nat) {
    Leases(w, c) ==> lockKey in w.store.db && w.store.db[lockKey] == Entry(Str(At(w, c).id), Some(At(w, c).until))
  }

  /** A stored lock expires with its owner's lease. */
  predicate Dated(w: World, lockKey: string, c: nat) {
    At(w, c).Inside? && lockKey in w.store.db && w.store.db[lockKey].value == Str(At(w, c).id) ==>
      w.store.db[lockKey].expiry == Some(At(w, c).until)
  }

  predicate InTime(w: World, c: nat) {
    At(w, c).Trying? ==>
      var me := At(w, c);
      && me.delay > 0
      && me.attempts * me.delay <= me.nextAt - me.start
      && me.attempts <= MaxAttempts(me.timeout, me.delay)
  }

  ghost predicate Safe(w: World, lockKey: string) {
    && (forall c :: Named(w, c))
    && (forall c, d :: Apart(w, c, d))
    && (forall c :: Backed(w, lockKey, c))
    && (forall c :: Dated(w, lockKey, c))
    && (forall c :: InTime(w, c))
  }

  lemma StepKeepsNames(w: World, lockKey: string, op: Op, c: nat, d: nat)
    requires Named(w, c) && Named(w, d) && Apart(w, c, d) && Enabled(w, op)
    ensures Named(Step(w, lockKey, op), c) && Apart(Step(w, lockKey, op), c, d)
  {
    hide InTime, MaxAttempts, RetryDelay;
  }

  lemma StepKeepsLease(w: World, lockKey: string, op: Op, c: nat)
    requires Safe(w, lockKey) && Enabled(w, op)
    ensures Backed(Step(w, lockKey, op), lockKey, c) && Dated(Step(w, lockKey, op), lockKey, c)
  {
    hide MaxAttempts, RetryDelay;
    assert op.Attempt? ==> InTime(w, op.client);
    assert Named(w, c) && Backed(w, lockKey, c) && Dated(w, lockKey, c);
    var after := Step(w, lockKey, op);
    if op.Wait? {
      assert At(after, c) == At(w, c);
    } else {
      assert Apart(w, c, op.client) && Dated(w, lockKey, op.client);
      assert c != op.client ==> At(after, c) == At(w, c);
    }
  }

  lemma StepKeepsTime(w: World, lockKey: string, op: Op, c: nat)
    requires InTime(w, c) && Enabled(w, op)
    ensures InTime(Step(w, lockKey, op), c)
  {
    if op.Attempt? && op.client == c {
      var me := At(w, c);
      AttemptFits(me.attempts, me.timeout, me.delay);
      assert (me.attempts + 1) * me.delay == me.attempts * me.delay + me.delay;
    }
  }

  lemma StepIsSafe(w: World, lockKey: string, op: Op)
    requires Safe(w, lockKey) && Enabled(w, op)
    ensures Safe(Step(w, lockKey, op), lockKey)
  {
    hide Named, Apart, Backed, Dated, InTime, Step, Enabled;
    var after := Step(w, lockKey, op);
    forall c, d ensures Named(after, c) && Apart(after, c, d) {
      assert Named(w, c) && Named(w, d) && Apart(w, c, d);
      StepKeepsNames(w, lockKey, op, c, d);
    }
    forall c ensures Backed(after, lockKey, c) && Dated(after, lockKey, c) {
      StepKeepsLease(w, lockKey, op, c);
    }
    forall c ensures InTime(after, c) {
      StepKeepsTime(w, lockKey, op, c);
    }
    forall c ensures Named(after, c) {
      assert Apart(after, c, c);
    }
  }

  predicate Valid(w: World, lockKey: string, ops: seq<Op>)
    decreases |ops|
  {
    ops == [] || (Enabled(w, ops[0]) && Valid(Step(w, lockKey, ops[0]), lockKey, ops[1..]))
  }

  function Run(w: World, lockKey: string, ops: seq<Op>): World
    requires Valid(w, lockKey, ops)
    decreases |ops|
  {
    if ops == [] then w else Run(Step(w, lockKey, ops[0]), lockKey, ops[1..])
  }

  lemma {:induction false} RunIsSafe(w: World, lockKey: string, ops: seq<Op>)
    requires Safe(w, lockKey) && Valid(w, lockKey, ops)
    ensures Safe(Run(w, lockKey, ops), lockKey)
    decreases |ops|
  {
    if ops != [] {
      StepIsSafe(w, lockKey, ops[0]);
      RunIsSafe(Step(w, lockKey, ops[0]), lockKey, ops[1..]);
    }
  }

  /** Any database, nobody in the protocol. */
  function Start(st: Store): World {
    World(st, map[], {})
  }

  /** In every reachable state at most one client holds an unexpired lease, and no loop exceeds its bound. */
  lemma MutualExclusion(st: Store, lockKey: string, ops: seq<Op>, c: nat, d: nat)
    requires Valid(Start(st), lockKey, ops)
    ensures var w := Run(Start(st), lockKey, ops);
      && (Leases(w, c) && Leases(w, d) ==> c == d)
      && (At(w, c).Inside? && At(w, d).Inside? && c != d ==>
            At(w, c).until <= w.store.now || At(w, d).until <= w.store.now)
      && (At(w, c).Trying? ==> At(w, c).delay > 0 && At(w, c).attempts <= MaxAttempts(At(w, c).timeout, At(w, c).delay))
  {
    RunIsSafe(Start(st), lockKey, ops);
    var w := Run(Start(st), lockKey, ops);
    assert Apart(w, c, d) && Backed(w, lockKey, c) && Backed(w, lockKey, d) && InTime(w, c);
  }

  /**
   * A client that leaves with its lease running frees the lock; one that overstayed changes nothing
   * in the store. Either way another client's lease survives.
   */
  lemma StaleReleaseIsHarmless(st: Store, lockKey: string, ops: seq<Op>, c: nat, d: nat)
    requires Valid(Start(st), lockKey, ops) && c != d
    requires At(Run(Start(st), lockKey, ops), c).Inside?
    ensures var w := Run(Start(st), lockKey, ops);
      var after := Step(w, lockKey, Leave(c));
      && (Leases(w, c) ==> lockKey !in after.store.db)
      && (!Leases(w, c) ==> after.store == w.store)
      && (Leases(w, d) <==> Leases(after, d))
      && (Leases(w, d) ==> after.store == w.store)
  {
    RunIsSafe(Start(st), lockKey, ops);
    var w := Run(Start(st), lockKey, ops);
    assert Apart(w, c, d) && Backed(w, lockKey, c) && Dated(w, lockKey, c) && Backed(w, lockKey, d);
    assert At(Step(w, lockKey, Leave(c)), d) == At(w, d);
  }

  // ---------- when a client gets in ----------

  /** A stored lock is somebody's running lease. */
  ghost predicate NoOrphan(w: World, lockKey: string) {
    Live(w.store, lockKey) ==> exists c :: Leases(w, c)
  }

  /** A client other than the one that acts keeps its state, and its lease while no time passes. */
  lemma OthersStay(w: World, lockKey: string, op: Op, c: nat)
    requires Enabled(w, op) && !op.Wait? && op.client != c
    ensures At(Step(w, lockKey, op), c) == At(w, c)
    ensures Leases(Step(w, lockKey, op), c) <==> Leases(w, c)
  {
    hide InTime, MaxAttempts, RetryDelay;
  }

  /** Who acts was not leasing, unless it leaves. */
  lemma StepLeavesNoOrphan(w: World, lockKey: string, op: Op)
    requires Safe(w, lockKey) && NoOrphan(w, lockKey) && Enabled(w, op)
    ensures NoOrphan(Step(w, lockKey, op), lockKey)
  {
    var after := Step(w, lockKey, op);
    if Live(after.store, lockKey) {
      if op.Attempt? && At(after, op.client).Inside? {
        assert InTime(w, op.client);
        assert Leases(after, op.client);
      } else {
        assert Live(w.store, lockKey);
        var c :| Leases(w, c);
        assert Backed(w, lockKey, c);
        if op.Wait? {
          assert Leases(after, c);
        } else {
          assert op.client != c;
          OthersStay(w, lockKey, op, c);
        }
      }
    }
  }

  lemma {:induction false} RunLeavesNoOrphan(w: World, lockKey: string, ops: seq<Op>)
    requires Safe(w, lockKey) && NoOrphan(w, lockKey) && Valid(w, lockKey, ops)
    ensures NoOrphan(Run(w, lockKey, ops), lockKey)
    decreases |ops|
  {
    if ops != [] {
      StepIsSafe(w, lockKey, ops[0]);
      StepLeavesNoOrphan(w, lockKey, ops[0]);
      RunLeavesNoOrphan(Step(w, lockKey, ops[0]), lockKey, ops[1..]);
    }
  }

  /**
   * In every reachable state a client's attempt succeeds exactly when no lease is running: neither
   * an orphaned lock nor a client that is still inside with an expired lease keeps it out.
   */
  lemma EntersIffNoLease(st: Store, lockKey: string, ops: seq<Op>, d: nat)
    requires !Live(st, lockKey) && Valid(Start(st), lockKey, ops)
    requires Enabled(Run(Start(st), lockKey, ops), Attempt(d))
    ensures var w := Run(Start(st), lockKey, ops);
      At(Step(w, lockKey, Attempt(d)), d).Inside? <==> forall c :: !Leases(w, c)
  {
    var w := Run(Start(st), lockKey, ops);
    RunIsSafe(Start(st), lockKey, ops);
    RunLeavesNoOrphan(Start(st), lockKey, ops);
    if c :| Leases(w, c) {
      assert Backed(w, lockKey, c);
    }
  }

  /** So a client joins another one that is inside exactly when that one, and everyone else, overstayed. */
  lemma OverlapsIffLeaseOver(st: Store, lockKey: string, ops: seq<Op>, c: nat, d: nat)
    requires !Live(st, lockKey) && Valid(Start(st), lockKey, ops)
    requires Enabled(Run(Start(st), lockKey, ops), Attempt(d)) && At(Run(Start(st), lockKey, ops), c).Inside?
    ensures var w := Run(Start(st), lockKey, ops);
      var after := Step(w, lockKey, Attempt(d));
      && c != d
      && (At(after, c).Inside? && At(after, d).Inside? <==>
            forall x :: At(w, x).Inside? ==> At(w, x).until <= w.store.now)
  {
    var w := Run(Start(st), lockKey, ops);
    EntersIffNoLease(st, lockKey, ops, d);
    OthersStay(w, lockKey, Attempt(d), c);
    assert forall x :: Leases(w, x) <==> At(w, x).Inside? && w.store.now < At(w, x).until;
  }

  /** A run in which this happens: a slow client's work overlaps the next holder's. */
  lemma SlowClientOverlaps(lockKey: string, timeout: nat)
    requires timeout > 0
    ensures var ops := [Begin(0, "a", timeout, 0), Attempt(0), Wait(timeout), Begin(1, "b", timeout, 0), Attempt(1)];
      var w0 := Start(Store(map[], 0));
      && Valid(w0, lockKey, ops)
      && At(Run(w0, lockKey, ops), 0).Inside? && At(Run(w0, lockKey, ops), 1).Inside?
  {
    var ops := [Begin(0, "a", timeout, 0), Attempt(0), Wait(timeout), Begin(1, "b", timeout, 0), Attempt(1)];
    var w0 := Start(Store(map[], 0));
    var w1 := Step(w0, lockKey, ops[0]);
    var w2 := Step(w1, lockKey, ops[1]);
    var w3 := Step(w2, lockKey, ops[2]);
    var w4 := Step(w3, lockKey, ops[3]);
    var w5 := Step(w4, lockKey, ops[4]);
    RunCons(w4, lockKey, ops[4], []);
    RunCons(w3, lockKey, ops[3], ops[4..]);
    RunCons(w2, lockKey, ops[2], ops[3..]);
    RunCons(w1, lockKey, ops[1], ops[2..]);
    RunCons(w0, lockKey, ops[0], ops[1..]);
    assert [ops[4]] + [] == ops[4..] && [ops[3]] + ops[4..] == ops[3..] && [ops[2]] + ops[3..] == ops[2..];
    assert [ops[1]] + ops[2..] == ops[1..] && [ops[0]] + ops[1..] == ops;
  }

  lemma RunCons(w: World, lockKey: string, op: Op, ops: seq<Op>)
    requires Enabled(w, op) && Valid(Step(w, lockKey, op), lockKey, ops)
    ensures Valid(w, lockKey, [op] + ops)
    ensures Run(w, lockKey, [op] + ops) == Run(Step(w, lockKey, op), lockKey, ops)
  {
    assert ([op] + ops)[1..] == ops;
  }
}

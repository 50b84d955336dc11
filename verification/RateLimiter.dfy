/** The fixed-window rate limiter, one atomic script on the Redis server. */
module RateLimiter {
  import opened Basics
  import opened RedisModel

  datatype Verdict = Verdict(allowed: bool, remaining: int, resetAt: int)

  /** INCR; a key of another type is refused. */
  function Incr(st: Store, key: string): (Store, int) {
    if !Live(st, key) then
      (st.(db := st.db[key := Entry(Int(1), None)]), 1)
    else if st.db[key].value.Int? then
      var n := st.db[key].value.n + 1;
      (st.(db := st.db[key := st.db[key].(value := Int(n))]), n)
    else (st, 0)
  }

  /** The script: count the request, open a window on the first one. */
  function Hit(st: Store, key: string, window: nat): (Store, int) {
    var (counted, current) := Incr(st, key);
    (if current == 1 then Expire(counted, key, window) else counted, current)
  }

  function VerdictOf(st: Store, key: string, current: int, limit: int): Verdict {
    Verdict(current <= limit, Max(0, limit - current), st.now + Ttl(st, key))
  }

  // ---------- the counter as a window machine ----------

  /** The window opened by the request at `start`, and the requests it has received. */
  datatype Window = Window(start: int, count: nat)

  function Next(w: Option<Window>, time: int, length: nat): Window {
    if w.None? || w.value.start + length <= time then Window(time, 1)
    else w.value.(count := w.value.count + 1)
  }

  /** The stored counter stands for this window. */
  predicate Represents(st: Store, key: string, w: Option<Window>, length: nat) {
    match w
    case None => !Live(st, key)
    case Some(win) =>
      if st.now < win.start + length then
        key in st.db && st.db[key] == Entry(Int(win.count), Some(win.start + length))
      else !Live(st, key)
  }

  /**
   * The script moves the stored counter as the window machine moves, leaves every other key alone,
   * and reports the end of the window; `later` is the store when the request arrives, after any
   * time and any activity on other keys.
   */
  lemma HitRefinesWindow(st: Store, later: Store, key: string, w: Option<Window>, length: nat, limit: int)
    requires length > 0 && Represents(st, key, w, length) && (w.Some? ==> w.value.count > 0)
    requires st.now <= later.now && (key in later.db <==> key in st.db) && (key in st.db ==> later.db[key] == st.db[key])
    ensures var (after, current) := Hit(later, key, length);
      var next := Next(w, later.now, length);
      && Represents(later, key, w, length)
      && Represents(after, key, Some(next), length)
      && current == next.count
      && VerdictOf(after, key, current, limit)
           == Verdict(next.count <= limit, Max(0, limit - next.count), next.start + length)
      && after.now == later.now
      && after.db - {key} == later.db - {key}
  {
  }

  // ---------- whole runs on one key ----------

  predicate Chronological(times: seq<int>) {
    forall i, j :: 0 <= i < j < |times| ==> times[i] <= times[j]
  }

  /** The window after the first `n` requests. */
  function After(times: seq<int>, length: nat, n: nat): Option<Window>
    requires n <= |times|
  {
    if n == 0 then None else Some(Next(After(times, length, n - 1), times[n - 1], length))
  }

  /** Whether request number `i` was let through. */
  predicate Granted(times: seq<int>, length: nat, limit: nat, i: nat)
    requires i < |times|
  {
    After(times, length, i + 1).value.count <= limit
  }

  /** Requests among the first `n` that fell into the window opened at `start`. */
  function Received(times: seq<int>, length: nat, n: nat, start: int): nat
    requires n <= |times|
  {
    if n == 0 then 0 else
      Received(times, length, n - 1, start) + (if After(times, length, n).value.start == start then 1 else 0)
  }

  function GrantedInWindow(times: seq<int>, length: nat, limit: nat, n: nat, start: int): nat
    requires n <= |times|
  {
    if n == 0 then 0 else
      GrantedInWindow(times, length, limit, n - 1, start) +
      (if After(times, length, n).value.start == start && Granted(times, length, limit, n - 1) then 1 else 0)
  }

  /** Requests let through at instants in [from, to). */
  function GrantedBetween(times: seq<int>, length: nat, limit: nat, n: nat, from: int, to: int): nat
    requires n <= |times|
  {
    if n == 0 then 0 else
      GrantedBetween(times, length, limit, n - 1, from, to) +
      (if from <= times[n - 1] < to && Granted(times, length, limit, n - 1) then 1 else 0)
  }

  lemma {:induction false} WindowFacts(times: seq<int>, length: nat, limit: nat, n: nat, start: int)
    requires 0 < n <= |times| && Chronological(times) && length > 0
    ensures var w := After(times, length, n).value;
      && w.start <= times[n - 1] < w.start + length
      && w.count > 0
      && (start > w.start ==> Received(times, length, n, start) == 0)
      && (start == w.start ==> Received(times, length, n, start) == w.count)
      && GrantedInWindow(times, length, limit, n, start) == Min(Received(times, length, n, start), limit)
  {
    if n > 1 {
      WindowFacts(times, length, limit, n - 1, start);
    } else {
      assert Received(times, length, 0, start) == 0;
      assert GrantedInWindow(times, length, limit, 0, start) == 0;
      assert After(times, length, 0) == None;
    }
  }

  /** A window that received n requests has let through exactly min(n, limit) of them. */
  lemma WindowAllowsExactlyLimit(times: seq<int>, length: nat, limit: nat, start: int)
    requires Chronological(times) && length > 0
    ensures GrantedInWindow(times, length, limit, |times|, start)
         == Min(Received(times, length, |times|, start), limit)
  {
    if times != [] {
      WindowFacts(times, length, limit, |times|, start);
    }
  }

  /** The number of requests a client can get through in any interval as long as a window. */
  function SlidingBound(limit: nat): nat {
    if limit == 0 then 0 else 2 * limit - 1
  }

  lemma {:induction false} SlidingBoundAt(times: seq<int>, length: nat, limit: nat, n: nat, from: int)
    requires n <= |times| && Chronological(times) && length > 0
    ensures var granted := GrantedBetween(times, length, limit, n, from, from + length);
      && granted <= SlidingBound(limit)
      && (n > 0 && times[n - 1] < from ==> granted == 0)
      && (n > 0 && times[n - 1] < from + length ==>
            var w := After(times, length, n).value;
            && w.count > 0
            && w.start <= times[n - 1] < w.start + length
            && (w.start < from ==> granted <= Max(0, Min(w.count, limit) - 1))
            && (w.start == from ==> granted <= Min(w.count, limit))
            && (w.start > from ==> granted <= Max(0, limit - 1) + Min(w.count, limit)))
  {
    if n > 0 {
      SlidingBoundAt(times, length, limit, n - 1, from);
      if n > 1 {
        assert times[n - 2] <= times[n - 1];
      }
    }
  }

  /** No interval of one window's length sees more than 2 * limit - 1 granted requests. */
  lemma SlidingIntervalIsBounded(times: seq<int>, length: nat, limit: nat, from: int)
    requires Chronological(times) && length > 0
    ensures GrantedBetween(times, length, limit, |times|, from, from + length) <= Max(0, 2 * limit - 1)
  {
    SlidingBoundAt(times, length, limit, |times|, from);
  }

  // ---------- the bound is reached ----------

  /** One request opens a window; the rest of its quota comes at its end, the next quota right after. */
  function Burst(length: nat, limit: nat): seq<int> {
    seq(2 * limit, i => if i == 0 then 0 else if i < limit then length - 1 else length)
  }

  lemma {:induction false} BurstAt(length: nat, limit: nat, n: nat)
    requires length >= 2 && limit >= 1 && 0 < n <= 2 * limit
    ensures var times := Burst(length, limit);
      && After(times, length, n) == Some(if n <= limit then Window(0, n) else Window(length, n - limit))
      && GrantedBetween(times, length, limit, n, length - 1, 2 * length - 1) == n - 1
  {
    if n > 1 {
      BurstAt(length, limit, n - 1);
    } else {
      assert After(Burst(length, limit), length, 0) == None;
      assert GrantedBetween(Burst(length, limit), length, limit, 0, length - 1, 2 * length - 1) == 0;
    }
  }

  lemma SlidingBoundIsTight(length: nat, limit: nat)
    requires length >= 2 && limit >= 1
    ensures var times := Burst(length, limit);
      && Chronological(times)
      && GrantedBetween(times, length, limit, |times|, length - 1, 2 * length - 1) == 2 * limit - 1
  {
    BurstAt(length, limit, 2 * limit);
  }

  // ---------- what the throttle service reports ----------

  datatype ThrottleResult = ThrottleResult(allowed: bool, remaining: int, resetAt: int, current: int, limit: int)

  function Report(v: Verdict, limit: int): ThrottleResult {
    ThrottleResult(v.allowed, v.remaining, v.resetAt, limit - v.remaining, limit)
  }

  /** `current` is the number of requests of the open window, capped at the limit. */
  lemma ReportedCurrent(times: seq<int>, length: nat, limit: nat, n: nat)
    requires 0 < n <= |times| && Chronological(times) && length > 0
    ensures var w := After(times, length, n).value;
      var v := Verdict(w.count <= limit, Max(0, limit - w.count), w.start + length);
      && Report(v, limit).current == Min(Received(times, length, n, w.start), limit)
      && (Report(v, limit).allowed <==> Received(times, length, n, w.start) <= limit)
      && Report(v, limit).remaining == Max(0, limit - Received(times, length, n, w.start))
      && Report(v, limit).limit == limit && Report(v, limit).resetAt == w.start + length
      && times[n - 1] < Report(v, limit).resetAt <= times[n - 1] + length
  {
    WindowFacts(times, length, limit, n, After(times, length, n).value.start);
  }
}

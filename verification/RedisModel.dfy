/** The Redis server as a timed map, and the commands the services send to it. */
module RedisModel {
  import opened Basics

  /** A stored value; JSON text is kept in parsed form. */
  datatype Value =
    | Null
    | Bool(flag: bool)
    | Int(n: int)
    | Str(s: string)
    | Strs(items: seq<string>)
    | Members(elems: set<string>)

  /** `expiry` is the first instant at which the entry is gone. */
  datatype Entry = Entry(value: Value, expiry: Option<int>)

  datatype Store = Store(db: map<string, Entry>, now: int)

  predicate Live(st: Store, key: string) {
    key in st.db && (st.db[key].expiry.Some? ==> st.now < st.db[key].expiry.value)
  }

  /** GET */
  function Get(st: Store, key: string): Option<Value> {
    if Live(st, key) then Some(st.db[key].value) else None
  }

  /** What the services read: a stored JSON null is taken for a missing entry. */
  function Cached(st: Store, key: string): Option<Value> {
    if Get(st, key) == Some(Null) then None else Get(st, key)
  }

  /** A lifetime of zero stands for a missing one: the services test it for truth. */
  function ExpiryFor(now: int, ttl: nat): Option<int> {
    if ttl > 0 then Some(now + ttl) else None
  }

  /** SET, or SETEX when a lifetime is given. */
  function Set(st: Store, key: string, value: Value, ttl: nat): Store {
    st.(db := st.db[key := Entry(value, ExpiryFor(st.now, ttl))])
  }

  /** SET with NX: only when the key is free. */
  function SetNx(st: Store, key: string, value: Value, ttl: nat): (Store, bool) {
    if Live(st, key) then (st, false) else (Set(st, key, value, ttl), true)
  }

  /** EXPIRE */
  function Expire(st: Store, key: string, ttl: nat): Store {
    if Live(st, key) then st.(db := st.db[key := st.db[key].(expiry := Some(st.now + ttl))]) else st
  }

  /** SADD; a key of another type is refused and left alone. */
  function Sadd(st: Store, key: string, member: string): Store {
    if !Live(st, key) then
      st.(db := st.db[key := Entry(Members({member}), None)])
    else if st.db[key].value.Members? then
      st.(db := st.db[key := st.db[key].(value := Members(st.db[key].value.elems + {member}))])
    else st
  }

  /** SMEMBERS */
  function Smembers(st: Store, key: string): set<string> {
    if Live(st, key) && st.db[key].value.Members? then st.db[key].value.elems else {}
  }

  /** DEL */
  function Del(st: Store, keys: set<string>): Store {
    st.(db := st.db - keys)
  }

  /** The number DEL replies with. */
  function DelCount(st: Store, keys: set<string>): nat {
    |set key | key in keys && Live(st, key)|
  }

  /** TTL: the remaining lifetime, -1 without one, -2 for a missing key. */
  function Ttl(st: Store, key: string): int {
    if !Live(st, key) then -2
    else if st.db[key].expiry.None? then -1
    else st.db[key].expiry.value - st.now
  }

  function Tick(st: Store, delay: nat): Store {
    st.(now := st.now + delay)
  }

  /** Expiry instants compare with "never" above every instant. */
  predicate NoLaterThan(a: Option<int>, b: Option<int>) {
    b.None? || (a.Some? && a.value <= b.value)
  }
}

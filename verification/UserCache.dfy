/** The user cache: one value under up to four keys. */
module UserCache {
  import opened Basics
  import opened KeyBuilder
  import opened RedisModel
  import TagIndex

  /** A user as the cache sees it; an empty field stands for a missing one. */
  datatype CachedUser = CachedUser(id: string, username: string, email: string, websocketId: string, json: string)

  const DEFAULT_TTL: nat := 300

  /** The key by id, then those of the fields that are present. */
  function AliasKeys(prefix: string, userId: string, user: CachedUser): seq<string> {
    [UserCacheKey(prefix, "id", userId)]
    + (if user.username != "" then [UserCacheKey(prefix, "username", user.username)] else [])
    + (if user.email != "" then [UserCacheKey(prefix, "email", user.email)] else [])
    + (if user.websocketId != "" then [UserCacheKey(prefix, "websocketId", user.websocketId)] else [])
  }

  function DefaultTags(identifier: string): seq<string> {
    ["user", "user:" + identifier]
  }

  /** `cacheSet` of the same value under each key in turn. */
  function PutAll(st: Store, prefix: string, keys: seq<string>, value: Value, ttl: nat, tags: seq<string>): Store {
    if keys == [] then st
    else
      TagIndex.CacheSet(PutAll(st, prefix, keys[..|keys| - 1], value, ttl, tags), prefix, keys[|keys| - 1], value, ttl, tags)
  }

  lemma PutOne(st: Store, prefix: string, key: string, value: Value, ttl: nat, tags: seq<string>)
    ensures PutAll(st, prefix, [key], value, ttl, tags) == TagIndex.CacheSet(st, prefix, key, value, ttl, tags)
  {
    hide TagIndex.CacheSet;
    var none := [key][..|[key]| - 1];
    assert none == [];
    assert PutAll(st, prefix, none, value, ttl, tags) == st;
  }

  /** cacheUser */
  function CacheUser(st: Store, prefix: string, userId: string, user: CachedUser, ttl: nat, tags: seq<string>): Store {
    PutAll(st, prefix, AliasKeys(prefix, userId, user), Str(user.json), ttl, tags)
  }

  function IdOf(user: CachedUser, identifier: string): string {
    if user.id != "" then user.id else identifier
  }

  /** What the caller's fetch does: throw, find nothing, or return a user. */
  datatype Fetch = Throws | Missing | Found(user: CachedUser)

  /** The keys under which getOrSetUser stores a fetched user. */
  function LookupKeys(prefix: string, lookup: string, identifier: string, user: CachedUser): seq<string> {
    AliasKeys(prefix, IdOf(user, identifier), user) + [UserCacheKey(prefix, lookup, identifier)]
  }

  /** ... and what it stores there: a user that is not found is remembered as null. */
  function LookupPuts(st: Store, prefix: string, lookup: string, identifier: string, fetched: Fetch): (seq<string>, Value) {
    if Cached(st, UserCacheKey(prefix, lookup, identifier)).Some? then ([], Null)
    else
      match fetched
      case Throws => ([], Null)
      case Missing => ([UserCacheKey(prefix, lookup, identifier)], Null)
      case Found(user) => (LookupKeys(prefix, lookup, identifier, user), Str(user.json))
  }

  /** getOrSetUser */
  function Lookup(st: Store, prefix: string, lookup: string, identifier: string, fetched: Fetch, ttl: nat,
                  tags: seq<string>): (Store, Result<Value, HttpError>)
  {
    var (keys, value) := LookupPuts(st, prefix, lookup, identifier, fetched);
    (PutAll(st, prefix, keys, value, ttl, tags),
     match Cached(st, UserCacheKey(prefix, lookup, identifier))
     case Some(cached) => Ok(cached)
     case None => if fetched.Throws? then Err(NotFound) else Ok(value))
  }

  /** How the posts service looks up an acting user: the store afterwards, and whether there is one. */
  function Author(st: Store, prefix: string, userId: string, fetched: Fetch): (Store, bool) {
    var (after, user) := Lookup(st, prefix, "id", userId, fetched, DEFAULT_TTL, DefaultTags(userId));
    (after, user.Ok? && user.value != Null)
  }

  /** invalidateUser */
  function InvalidateUser(st: Store, prefix: string, userId: string): Store {
    TagIndex.Invalidate(st, prefix, DefaultTags(userId))
  }

  // ---------- runs of the user cache with the default lifetime ----------

  datatype Op =
    | CacheOp(userId: string, user: CachedUser, tags: seq<string>)
    | LookupOp(lookup: string, identifier: string, fetched: Fetch, tags: seq<string>)
    | InvalidateOp(userId: string)
    | Wait(delay: nat)

  /** Every caller names at least the tag `user`, as the default tags do. */
  predicate Ordinary(op: Op) {
    (op.CacheOp? || op.LookupOp?) ==> "user" in op.tags
  }

  function Step(st: Store, prefix: string, op: Op): Store {
    match op
    case CacheOp(userId, user, tags) => CacheUser(st, prefix, userId, user, DEFAULT_TTL, tags)
    case LookupOp(lookup, identifier, fetched, tags) =>
      Lookup(st, prefix, lookup, identifier, fetched, DEFAULT_TTL, tags).0
    case InvalidateOp(userId) => InvalidateUser(st, prefix, userId)
    case Wait(delay) => Tick(st, delay)
  }

  function Run(st: Store, prefix: string, ops: seq<Op>): Store
    decreases |ops|
  {
    if ops == [] then st else Run(Step(st, prefix, ops[0]), prefix, ops[1..])
  }

  // ---------- every entry is listed under the tag `user` ----------

  /** Each data key in the store was last put with the tag `user`. */
  predicate Tagged(w: TagIndex.World, prefix: string) {
    forall key :: key in w.store.db && IsDataKey(prefix, key) ==> key in w.tagsOf && "user" in w.tagsOf[key]
  }

  ghost predicate Kept(w: TagIndex.World, prefix: string) {
    TagIndex.Kept(w, prefix, DEFAULT_TTL) && Tagged(w, prefix)
  }

  lemma PutKeeps(w: TagIndex.World, prefix: string, key: string, value: Value, tags: seq<string>)
    requires Kept(w, prefix) && IsDataKey(prefix, key) && "user" in tags
    ensures Kept(TagIndex.Step(w, prefix, TagIndex.Put(key, value, DEFAULT_TTL, tags)), prefix)
  {
    var op := TagIndex.Put(key, value, DEFAULT_TTL, tags);
    var after := TagIndex.Step(w, prefix, op);
    TagIndex.StepKeeps(w, prefix, DEFAULT_TTL, op);
    TagIndex.CacheSetEffect(w.store, prefix, key, value, DEFAULT_TTL, tags);
    forall k | k in after.store.db && IsDataKey(prefix, k) ensures k in after.tagsOf && "user" in after.tagsOf[k] {
      if k != key {
        assert TagIndex.SameEntry(w.store, after.store, k);
      }
    }
  }

  lemma DropKeeps(w: TagIndex.World, prefix: string, tags: seq<string>)
    requires Kept(w, prefix)
    ensures Kept(TagIndex.Step(w, prefix, TagIndex.Drop(tags)), prefix)
  {
    TagIndex.StepKeeps(w, prefix, DEFAULT_TTL, TagIndex.Drop(tags));
    InvalidateShrinks(w.store, prefix, tags);
  }

  lemma {:induction false} InvalidateShrinks(st: Store, prefix: string, tags: seq<string>)
    ensures TagIndex.Invalidate(st, prefix, tags).db.Keys <= st.db.Keys
  {
    if tags != [] {
      InvalidateShrinks(st, prefix, tags[..|tags| - 1]);
    }
  }

  /** The puts of one value under several keys, as operations of the tagged cache. */
  function Puts(keys: seq<string>, value: Value, ttl: nat, tags: seq<string>): (puts: seq<TagIndex.Op>)
    ensures |puts| == |keys|
    ensures forall i :: 0 <= i < |keys| ==> puts[i] == TagIndex.Put(keys[i], value, ttl, tags)
  {
    seq(|keys|, i requires 0 <= i < |keys| => TagIndex.Put(keys[i], value, ttl, tags))
  }

  lemma {:induction false} RunPuts(w: TagIndex.World, prefix: string, keys: seq<string>, value: Value, ttl: nat,
                                   tags: seq<string>)
    ensures TagIndex.Run(w, prefix, Puts(keys, value, ttl, tags)).store == PutAll(w.store, prefix, keys, value, ttl, tags)
    ensures keys != [] ==>
      var n := |keys| - 1;
      TagIndex.Run(w, prefix, Puts(keys, value, ttl, tags))
        == TagIndex.Step(TagIndex.Run(w, prefix, Puts(keys[..n], value, ttl, tags)), prefix,
                         TagIndex.Put(keys[n], value, ttl, tags))
  {
    if keys != [] {
      var n := |keys| - 1;
      assert Puts(keys, value, ttl, tags)[..n] == Puts(keys[..n], value, ttl, tags);
      RunPuts(w, prefix, keys[..n], value, ttl, tags);
    }
  }

  lemma {:induction false} PutsKeep(w: TagIndex.World, prefix: string, keys: seq<string>, value: Value, tags: seq<string>)
    requires Kept(w, prefix) && "user" in tags && forall i :: 0 <= i < |keys| ==> IsDataKey(prefix, keys[i])
    ensures Kept(TagIndex.Run(w, prefix, Puts(keys, value, DEFAULT_TTL, tags)), prefix)
  {
    if keys != [] {
      var n := |keys| - 1;
      RunPuts(w, prefix, keys, value, DEFAULT_TTL, tags);
      PutsKeep(w, prefix, keys[..n], value, tags);
      PutKeeps(TagIndex.Run(w, prefix, Puts(keys[..n], value, DEFAULT_TTL, tags)), prefix, keys[n], value, tags);
    }
  }

  lemma AliasesAreDataKeys(prefix: string, userId: string, user: CachedUser)
    ensures forall i :: 0 <= i < |AliasKeys(prefix, userId, user)| ==> IsDataKey(prefix, AliasKeys(prefix, userId, user)[i])
  {
    hide IsDataKey, UserCacheKey;
    BuiltKeysAreDataKeys(prefix, "id", userId);
    BuiltKeysAreDataKeys(prefix, "username", user.username);
    BuiltKeysAreDataKeys(prefix, "email", user.email);
    BuiltKeysAreDataKeys(prefix, "websocketId", user.websocketId);
  }

  lemma LookupKeysAreDataKeys(st: Store, prefix: string, lookup: string, identifier: string, fetched: Fetch)
    ensures var keys := LookupPuts(st, prefix, lookup, identifier, fetched).0;
      forall i :: 0 <= i < |keys| ==> IsDataKey(prefix, keys[i])
  {
    BuiltKeysAreDataKeys(prefix, lookup, identifier);
    if fetched.Found? {
      AliasesAreDataKeys(prefix, IdOf(fetched.user, identifier), fetched.user);
    }
    hide IsDataKey, UserCacheKey, AliasKeys;
  }

  lemma StepKeeps(w: TagIndex.World, prefix: string, op: Op) returns (after: TagIndex.World)
    requires Kept(w, prefix) && Ordinary(op)
    ensures Kept(after, prefix) && after.store == Step(w.store, prefix, op)
  {
    match op
    case CacheOp(userId, user, tags) =>
      var keys := AliasKeys(prefix, userId, user);
      AliasesAreDataKeys(prefix, userId, user);
      PutsKeep(w, prefix, keys, Str(user.json), tags);
      RunPuts(w, prefix, keys, Str(user.json), DEFAULT_TTL, tags);
      after := TagIndex.Run(w, prefix, Puts(keys, Str(user.json), DEFAULT_TTL, tags));
    case LookupOp(lookup, identifier, fetched, tags) =>
      var (keys, value) := LookupPuts(w.store, prefix, lookup, identifier, fetched);
      LookupKeysAreDataKeys(w.store, prefix, lookup, identifier, fetched);
      PutsKeep(w, prefix, keys, value, tags);
      RunPuts(w, prefix, keys, value, DEFAULT_TTL, tags);
      after := TagIndex.Run(w, prefix, Puts(keys, value, DEFAULT_TTL, tags));
    case InvalidateOp(userId) =>
      DropKeeps(w, prefix, DefaultTags(userId));
      after := TagIndex.Step(w, prefix, TagIndex.Drop(DefaultTags(userId)));
    case Wait(delay) =>
      TagIndex.StepKeeps(w, prefix, DEFAULT_TTL, TagIndex.Wait(delay));
      after := TagIndex.Step(w, prefix, TagIndex.Wait(delay));
  }

  lemma {:induction false} RunKeeps(w: TagIndex.World, prefix: string, ops: seq<Op>) returns (after: TagIndex.World)
    requires Kept(w, prefix) && forall i :: 0 <= i < |ops| ==> Ordinary(ops[i])
    ensures Kept(after, prefix) && after.store == Run(w.store, prefix, ops)
    decreases |ops|
  {
    after := w;
    if ops != [] {
      var next := StepKeeps(w, prefix, ops[0]);
      after := RunKeeps(next, prefix, ops[1..]);
    }
  }

  /**
   * After any run whose callers name the tag `user` among theirs, `invalidateUser` leaves no cached
   * user under any key: no alias of the user survives, whichever lookup stored it. It empties the cache of all other users as well, since
   * every entry carries the tag `user`.
   */
  lemma NoAliasSurvives(prefix: string, now: int, ops: seq<Op>, userId: string, lookup: string, identifier: string)
    requires forall i :: 0 <= i < |ops| ==> Ordinary(ops[i])
    ensures !Live(InvalidateUser(Run(Store(map[], now), prefix, ops), prefix, userId),
                  UserCacheKey(prefix, lookup, identifier))
  {
    var w := RunKeeps(TagIndex.Fresh(now), prefix, ops);
    var key := UserCacheKey(prefix, lookup, identifier);
    BuiltKeysAreDataKeys(prefix, lookup, identifier);
    TagIndex.InvalidateIsExact(w.store, prefix, DefaultTags(userId), key);
    if Live(w.store, key) {
      assert TagIndex.Indexed(w.store, prefix, key, "user");
    }
  }

  // ---------- a cached user is found under each key ----------

  lemma {:induction false} PutAllStores(st: Store, prefix: string, keys: seq<string>, value: Value, ttl: nat, tags: seq<string>)
    requires TagIndex.WellTyped(st, prefix) && forall i :: 0 <= i < |keys| ==> IsDataKey(prefix, keys[i])
    ensures var after := PutAll(st, prefix, keys, value, ttl, tags);
      && after.now == st.now && TagIndex.WellTyped(after, prefix)
      && forall i :: 0 <= i < |keys| ==> keys[i] in after.db && after.db[keys[i]] == Entry(value, ExpiryFor(st.now, ttl))
  {
    if keys != [] {
      var n := |keys| - 1;
      PutAllStores(st, prefix, keys[..n], value, ttl, tags);
      var before := PutAll(st, prefix, keys[..n], value, ttl, tags);
      var after := PutAll(st, prefix, keys, value, ttl, tags);
      TagIndex.CacheSetEffect(before, prefix, keys[n], value, ttl, tags);
      TagIndex.CacheSetWellTyped(before, prefix, keys[n], value, ttl, tags);
      forall i | 0 <= i < n ensures keys[i] in after.db && after.db[keys[i]] == Entry(value, ExpiryFor(st.now, ttl)) {
        assert keys[..n][i] == keys[i];
        if keys[i] != keys[n] {
          assert TagIndex.SameEntry(before, after, keys[i]);
        }
      }
    }
  }

  /** The key holds the user for `ttl` seconds and no longer. */
  predicate Holds(later: Store, key: string, user: CachedUser, delay: nat, ttl: nat) {
    Get(later, key) == if delay < ttl then Some(Str(user.json)) else None
  }

  /** For `ttl` seconds a cached user is returned for the id, and for username, e-mail and websocket id if present. */
  lemma CachedUserIsFound(st: Store, prefix: string, userId: string, user: CachedUser, ttl: nat, tags: seq<string>, delay: nat)
    requires TagIndex.WellTyped(st, prefix) && 0 < ttl
    ensures var later := Tick(CacheUser(st, prefix, userId, user, ttl, tags), delay);
      && Holds(later, UserCacheKey(prefix, "id", userId), user, delay, ttl)
      && (user.username != "" ==> Holds(later, UserCacheKey(prefix, "username", user.username), user, delay, ttl))
      && (user.email != "" ==> Holds(later, UserCacheKey(prefix, "email", user.email), user, delay, ttl))
      && (user.websocketId != "" ==> Holds(later, UserCacheKey(prefix, "websocketId", user.websocketId), user, delay, ttl))
  {
    var keys := AliasKeys(prefix, userId, user);
    AliasesAreDataKeys(prefix, userId, user);
    PutAllStores(st, prefix, keys, Str(user.json), ttl, tags);
    AliasesListed(prefix, userId, user);
    hide AliasKeys, UserCacheKey, PutAll;
    forall key | key in keys ensures Holds(Tick(CacheUser(st, prefix, userId, user, ttl, tags), delay), key, user, delay, ttl) {
      var i :| 0 <= i < |keys| && keys[i] == key;
    }
  }

  lemma AliasesListed(prefix: string, userId: string, user: CachedUser)
    ensures var keys := AliasKeys(prefix, userId, user);
      && UserCacheKey(prefix, "id", userId) in keys
      && (user.username != "" ==> UserCacheKey(prefix, "username", user.username) in keys)
      && (user.email != "" ==> UserCacheKey(prefix, "email", user.email) in keys)
      && (user.websocketId != "" ==> UserCacheKey(prefix, "websocketId", user.websocketId) in keys)
      && forall key :: key in keys ==>
           || key == UserCacheKey(prefix, "id", userId)
           || (user.username != "" && key == UserCacheKey(prefix, "username", user.username))
           || (user.email != "" && key == UserCacheKey(prefix, "email", user.email))
           || (user.websocketId != "" && key == UserCacheKey(prefix, "websocketId", user.websocketId))
  {
    hide UserCacheKey;
    var keys := AliasKeys(prefix, userId, user);
    var n := if user.username != "" then 2 else 1;
    var m := if user.email != "" then n + 1 else n;
    assert keys[0] == UserCacheKey(prefix, "id", userId);
    assert user.username != "" ==> keys[1] == UserCacheKey(prefix, "username", user.username);
    assert user.email != "" ==> keys[n] == UserCacheKey(prefix, "email", user.email);
    assert user.websocketId != "" ==> keys[m] == UserCacheKey(prefix, "websocketId", user.websocketId);
  }

  /** A look-up without a cached user returns what the fetch finds, and later look-ups return it again. */
  lemma FetchedUserIsReturned(st: Store, prefix: string, lookup: string, identifier: string, user: CachedUser, ttl: nat,
                              tags: seq<string>, delay: nat, later: Fetch)
    requires TagIndex.WellTyped(st, prefix) && 0 < ttl && delay < ttl
    requires Cached(st, UserCacheKey(prefix, lookup, identifier)).None?
    ensures var (after, answer) := Lookup(st, prefix, lookup, identifier, Found(user), ttl, tags);
      && answer == Ok(Str(user.json))
      && Lookup(Tick(after, delay), prefix, lookup, identifier, later, ttl, tags) == (Tick(after, delay), Ok(Str(user.json)))
      && Get(Tick(after, delay), UserCacheKey(prefix, "id", if user.id != "" then user.id else identifier)) == Some(Str(user.json))
  {
    var keys := LookupKeys(prefix, lookup, identifier, user);
    LookupKeysAreDataKeys(st, prefix, lookup, identifier, Found(user));
    PutAllStores(st, prefix, keys, Str(user.json), ttl, tags);
    var after := PutAll(st, prefix, keys, Str(user.json), ttl, tags);
    assert keys[|keys| - 1] == UserCacheKey(prefix, lookup, identifier);
    assert keys[0] == UserCacheKey(prefix, "id", IdOf(user, identifier));
    hide UserCacheKey, AliasKeys, IsDataKey;
    assert PutAll(Tick(after, delay), prefix, [], Null, ttl, tags) == Tick(after, delay);
  }

  /** A user that does not exist is looked for again next time; a fetch that throws leaves no trace. */
  lemma MissingUserIsNotFound(st: Store, prefix: string, lookup: string, identifier: string, ttl: nat, tags: seq<string>)
    requires TagIndex.WellTyped(st, prefix) && Cached(st, UserCacheKey(prefix, lookup, identifier)).None?
    ensures var (after, answer) := Lookup(st, prefix, lookup, identifier, Missing, ttl, tags);
      answer == Ok(Null) && Cached(after, UserCacheKey(prefix, lookup, identifier)).None?
    ensures Lookup(st, prefix, lookup, identifier, Throws, ttl, tags) == (st, Err(NotFound))
  {
    var key := UserCacheKey(prefix, lookup, identifier);
    BuiltKeysAreDataKeys(prefix, lookup, identifier);
    PutAllStores(st, prefix, [key], Null, ttl, tags);
    var after := PutAll(st, prefix, [key], Null, ttl, tags);
    assert [key][0] == key && after.db[key].value == Null;
  }

  /** A cached user is returned without asking the database. */
  lemma CachedUserIsReturned(st: Store, prefix: string, lookup: string, identifier: string, fetched: Fetch, ttl: nat,
                             tags: seq<string>)
    requires Cached(st, UserCacheKey(prefix, lookup, identifier)).Some?
    ensures Lookup(st, prefix, lookup, identifier, fetched, ttl, tags)
         == (st, Ok(Cached(st, UserCacheKey(prefix, lookup, identifier)).value))
  {
  }

  /** An acting user is known if cached, or else if the database has the row. */
  lemma AuthorIsKnownIff(st: Store, prefix: string, userId: string, fetched: Fetch)
    ensures var (after, known) := Author(st, prefix, userId, fetched);
      && (known <==> Cached(st, UserCacheKey(prefix, "id", userId)).Some? || fetched.Found?)
      && (Cached(st, UserCacheKey(prefix, "id", userId)).Some? ==> after == st)
  {
    hide UserCacheKey, AliasKeys;
  }

  /** Nothing stays listed under the two tags of an invalidated user. */
  lemma InvalidationEmptiesTags(st: Store, prefix: string, userId: string)
    requires TagIndex.WellTyped(st, prefix)
    ensures var after := InvalidateUser(st, prefix, userId);
      Smembers(after, TagKey(prefix, "user")) == {} && Smembers(after, TagKey(prefix, "user:" + userId)) == {}
  {
    var tags := DefaultTags(userId);
    assert tags[0] in tags && tags[1] in tags;
    TagIndex.InvalidateEffect(st, prefix, tags);
  }

  /** Without the tag `user` an alias stays behind when the user is not the one named in the tag. */
  lemma AliasWithoutTagSurvives(prefix: string, userId: string, identifier: string, user: CachedUser, other: string)
    requires other != "user" && other != "user:" + userId
    ensures var st := PutAll(Store(map[], 0), prefix, [UserCacheKey(prefix, "id", identifier)], Str(user.json), DEFAULT_TTL, [other]);
      Live(InvalidateUser(st, prefix, userId), UserCacheKey(prefix, "id", identifier))
  {
    var key := UserCacheKey(prefix, "id", identifier);
    var empty := Store(map[], 0);
    BuiltKeysAreDataKeys(prefix, "id", identifier);
    var st := PutAll(empty, prefix, [key], Str(user.json), DEFAULT_TTL, [other]);
    PutOne(empty, prefix, key, Str(user.json), DEFAULT_TTL, [other]);
    TagIndex.CacheSetEffect(empty, prefix, key, Str(user.json), DEFAULT_TTL, [other]);
    TagIndex.CacheSetWellTyped(empty, prefix, key, Str(user.json), DEFAULT_TTL, [other]);
    TagIndex.InvalidateIsExact(st, prefix, DefaultTags(userId), key);
    forall tag | tag in DefaultTags(userId) ensures key !in Smembers(st, TagKey(prefix, tag)) {
      assert TagIndex.SameEntry(empty, st, TagKey(prefix, tag));
    }
  }
}

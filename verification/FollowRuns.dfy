/** What holds of the follow service after any sequence of its operations. */
module FollowRuns {
  import opened Basics
  import opened KeyBuilder
  import opened RedisModel
  import opened FollowGraph
  import TagIndex
  import UserCache

  /** The operations of the service and the others that share the tags of users in the same store. */
  datatype Op =
    | Register(user: Id)
    | FollowUser(edge: Edge)
    | UnfollowUser(edge: Edge)
    | IsFollowingUser(edge: Edge)
    | BatchFollowStatus(follower: Id, ids: seq<Id>)
    | DeleteAccount(user: Id)
    | ClearCooldown(edge: Edge)
    | CacheUser(user: Id, cached: UserCache.CachedUser, tags: seq<string>)
    | LookupUser(lookup: string, identifier: string, fetched: UserCache.Fetch, tags: seq<string>)
    | CacheSuggestions(user: Id, suggestions: Value)
    | InvalidateUser(user: Id)
    | Wait(delay: nat)

  /** The state with its history: cache tags, ids ever given out, and the last successful follow of each pair. */
  datatype Sys = Sys(net: Net, cache: TagIndex.World, known: set<Id>, followedAt: map<Edge, int>)

  /** Acting users are identified by UUIDs; a fresh account gets an id that was never used. */
  predicate Enabled(sys: Sys, op: Op) {
    match op
    case Register(user) => user !in sys.known
    case FollowUser(e) => ColonFree(e.follower)
    case UnfollowUser(e) => ColonFree(e.follower)
    case IsFollowingUser(e) => ColonFree(e.follower)
    case BatchFollowStatus(follower, _) => ColonFree(follower)
    case ClearCooldown(e) => ColonFree(e.follower)
    case _ => true
  }

  function Apply(net: Net, prefix: string, op: Op): Net {
    match op
    case Register(user) => net.(users := net.users[user := Counts(0, 0)])
    case FollowUser(e) => Follow(net, prefix, e)
    case UnfollowUser(e) => Unfollow(net, prefix, e)
    case IsFollowingUser(e) => IsFollowing(net, prefix, e).0
    case BatchFollowStatus(follower, ids) => Batch(net, prefix, follower, ids)
    case DeleteAccount(user) => DeleteUser(net, prefix, user)
    case ClearCooldown(e) => net.(store := Del(net.store, {CooldownKey(e)}))
    case CacheUser(user, cached, tags) =>
      net.(store := UserCache.CacheUser(net.store, prefix, user, cached, UserCache.DEFAULT_TTL, tags))
    case LookupUser(lookup, identifier, fetched, tags) =>
      net.(store := UserCache.Lookup(net.store, prefix, lookup, identifier, fetched, UserCache.DEFAULT_TTL, tags).0)
    case CacheSuggestions(user, suggestions) =>
      net.(store := UserCache.PutAll(net.store, prefix, [SuggestionsKey(user)], suggestions, SUGGESTIONS_TTL, SuggestionsTags(user)))
    case InvalidateUser(user) => net.(store := UserCache.InvalidateUser(net.store, prefix, user))
    case Wait(delay) => net.(store := Tick(net.store, delay))
  }

  function PutStatus(edges: set<Edge>, e: Edge): TagIndex.Op {
    TagIndex.Put(StatusKey(e), Bool(e in edges), STATUS_TTL, StatusTags(e))
  }

  function PutStatuses(edges: set<Edge>, follower: Id, ids: seq<Id>): seq<TagIndex.Op> {
    seq(|ids|, i requires 0 <= i < |ids| => PutStatus(edges, Edge(follower, ids[i])))
  }

  /** What an operation does to the Redis store, as operations of the tagged cache. */
  function Commands(net: Net, prefix: string, op: Op): seq<TagIndex.Op> {
    match op
    case Register(_) => []
    case FollowUser(e) =>
      if FollowRefusal(net, e).Some? then []
      else [TagIndex.Drop(ChangedTags(e)), TagIndex.Remove(StatusKey(e)), TagIndex.Remove(SuggestionsKey(e.follower))]
    case UnfollowUser(e) =>
      if e !in net.edges then []
      else [TagIndex.Put(CooldownKey(e), Str("1"), FOLLOW_COOLDOWN_SECONDS, []),
            TagIndex.Drop(ChangedTags(e)), TagIndex.Remove(StatusKey(e))]
    case IsFollowingUser(e) => if Cached(net.store, StatusKey(e)).Some? then [] else [PutStatus(net.edges, e)]
    case BatchFollowStatus(follower, ids) =>
      PutStatuses(net.edges, follower, Uncached(net.store, follower, Limited(ids)))
    case DeleteAccount(user) => if user in net.users then [TagIndex.Drop(["user", UserTag(user)])] else []
    case ClearCooldown(e) => [TagIndex.Remove(CooldownKey(e))]
    case CacheUser(user, cached, tags) =>
      UserCache.Puts(UserCache.AliasKeys(prefix, user, cached), Str(cached.json), STATUS_TTL, tags)
    case LookupUser(lookup, identifier, fetched, tags) =>
      var (keys, value) := UserCache.LookupPuts(net.store, prefix, lookup, identifier, fetched);
      UserCache.Puts(keys, value, STATUS_TTL, tags)
    case CacheSuggestions(user, suggestions) =>
      UserCache.Puts([SuggestionsKey(user)], suggestions, STATUS_TTL, SuggestionsTags(user))
    case InvalidateUser(user) => [TagIndex.Drop(UserCache.DefaultTags(user))]
    case Wait(delay) => [TagIndex.Wait(delay)]
  }

  function Step(sys: Sys, prefix: string, op: Op): Sys {
    Sys(Apply(sys.net, prefix, op),
        TagIndex.Run(sys.cache, prefix, Commands(sys.net, prefix, op)),
        if op.Register? then sys.known + {op.user} else sys.known,
        if op.FollowUser? && FollowRefusal(sys.net, op.edge).None?
        then sys.followedAt[op.edge := sys.net.store.now] else sys.followedAt)
  }

  // ---------- the invariant ----------

  /** Live cached answers agree with the follow table and carry the tags of both users. */
  ghost predicate Coherent(edges: set<Edge>, w: TagIndex.World) {
    forall e: Edge :: ColonFree(e.follower) && Live(w.store, StatusKey(e)) ==>
      && w.store.db[StatusKey(e)].value == Bool(e in edges)
      && StatusKey(e) in w.tagsOf
      && {UserTag(e.follower), UserTag(e.following)} <= w.tagsOf[StatusKey(e)]
  }

  /** No cooldown was ever put under a tag. */
  ghost predicate CooldownsUntagged(w: TagIndex.World) {
    forall key, tag :: (key, tag) in w.ever ==> !("follow:cooldown:" <= key)
  }

  ghost predicate Good(sys: Sys, prefix: string) {
    && sys.cache.store == sys.net.store
    && TagIndex.Kept(sys.cache, prefix, STATUS_TTL)
    && Coherent(sys.net.edges, sys.cache)
    && CooldownsUntagged(sys.cache)
    && sys.net.users.Keys <= sys.known
    && (forall e :: e in sys.net.edges ==> ColonFree(e.follower) && e.follower != e.following)
    && (forall e :: e in sys.net.edges ==> e.follower in sys.net.users && e.following in sys.net.users)
  }

  // ---------- unfolding short runs of the cache ----------

  lemma RunOne(w: TagIndex.World, prefix: string, a: TagIndex.Op)
    ensures TagIndex.Run(w, prefix, [a]) == TagIndex.Step(w, prefix, a)
  {
    assert [a][..0] == [];
    assert TagIndex.Run(w, prefix, []) == w;
  }

  lemma RunThree(w: TagIndex.World, prefix: string, a: TagIndex.Op, b: TagIndex.Op, c: TagIndex.Op)
    ensures TagIndex.Run(w, prefix, [a, b, c])
         == TagIndex.Step(TagIndex.Step(TagIndex.Step(w, prefix, a), prefix, b), prefix, c)
  {
    RunOne(w, prefix, a);
    assert [a, b, c][..2] == [a, b] && [a, b][..1] == [a];
    assert TagIndex.Run(w, prefix, [a, b]) == TagIndex.Step(TagIndex.Run(w, prefix, [a]), prefix, b);
  }

  // ---------- one cached answer ----------

  lemma PutStatusKeeps(w: TagIndex.World, prefix: string, edges: set<Edge>, e: Edge)
    requires ColonFree(prefix) && ColonFree(e.follower)
    requires TagIndex.Kept(w, prefix, STATUS_TTL) && Coherent(edges, w) && CooldownsUntagged(w)
    ensures var after := TagIndex.Step(w, prefix, PutStatus(edges, e));
      && TagIndex.Kept(after, prefix, STATUS_TTL) && Coherent(edges, after) && CooldownsUntagged(after)
      && after.store == CacheStatus(w.store, prefix, edges, e)
      && after.store.now == w.store.now
      && (forall f :: TagIndex.SameEntry(w.store, after.store, CooldownKey(f)))
  {
    var after := TagIndex.Step(w, prefix, PutStatus(edges, e));
    FollowKeys(prefix, e, e, "");
    assert StatusKey(e)[7] == 's' && "follow:cooldown:"[7] == 'c';
    TagIndex.StepKeeps(w, prefix, STATUS_TTL, PutStatus(edges, e));
    TagIndex.CacheSetEffect(w.store, prefix, StatusKey(e), Bool(e in edges), STATUS_TTL, StatusTags(e));
    forall f: Edge | ColonFree(f.follower) && Live(after.store, StatusKey(f))
      ensures after.store.db[StatusKey(f)].value == Bool(f in edges)
      ensures StatusKey(f) in after.tagsOf
      ensures {UserTag(f.follower), UserTag(f.following)} <= after.tagsOf[StatusKey(f)]
    {
      StatusKeysApart(e, f);
      FollowKeys(prefix, f, f, "");
      if e != f {
        assert TagIndex.SameEntry(w.store, after.store, StatusKey(f));
      } else {
        assert StatusTags(e)[0] == UserTag(e.follower) && StatusTags(e)[1] == UserTag(e.following);
      }
    }
    forall f ensures TagIndex.SameEntry(w.store, after.store, CooldownKey(f)) {
      FollowKeys(prefix, e, f, "");
      FollowKeys(prefix, f, f, "");
    }
  }

  lemma {:induction false} PutStatusesKeep(w: TagIndex.World, prefix: string, edges: set<Edge>, follower: Id, ids: seq<Id>)
    requires ColonFree(prefix) && ColonFree(follower)
    requires TagIndex.Kept(w, prefix, STATUS_TTL) && Coherent(edges, w) && CooldownsUntagged(w)
    ensures var after := TagIndex.Run(w, prefix, PutStatuses(edges, follower, ids));
      && TagIndex.Kept(after, prefix, STATUS_TTL) && Coherent(edges, after) && CooldownsUntagged(after)
      && after.store == CacheStatuses(w.store, prefix, edges, follower, ids)
      && after.store.now == w.store.now
      && (forall f :: TagIndex.SameEntry(w.store, after.store, CooldownKey(f)))
  {
    hide StatusKey, CooldownKey, StatusTags, Coherent, CooldownsUntagged, TagIndex.Kept, TagIndex.CacheSet;
    var puts := PutStatuses(edges, follower, ids);
    if ids != [] {
      var n := |ids| - 1;
      assert puts[..n] == PutStatuses(edges, follower, ids[..n]);
      PutStatusesKeep(w, prefix, edges, follower, ids[..n]);
      var before := TagIndex.Run(w, prefix, puts[..n]);
      PutStatusKeeps(before, prefix, edges, Edge(follower, ids[n]));
      forall f ensures TagIndex.SameEntry(w.store, TagIndex.Run(w, prefix, puts).store, CooldownKey(f)) {
        assert TagIndex.SameEntry(w.store, before.store, CooldownKey(f));
      }
    } else {
      assert puts == [];
    }
  }

  // ---------- dropping tags ----------

  /** Invalidation only removes cached answers, and never a cooldown. */
  lemma DropKeeps(w: TagIndex.World, prefix: string, edges: set<Edge>, tags: seq<string>)
    requires ColonFree(prefix)
    requires TagIndex.Kept(w, prefix, STATUS_TTL) && Coherent(edges, w) && CooldownsUntagged(w)
    ensures var after := TagIndex.Step(w, prefix, TagIndex.Drop(tags));
      && TagIndex.Kept(after, prefix, STATUS_TTL) && Coherent(edges, after) && CooldownsUntagged(after)
      && after.store.now == w.store.now
      && (forall f :: TagIndex.SameEntry(w.store, after.store, CooldownKey(f)))
      && (forall f: Edge :: ColonFree(f.follower) && Live(after.store, StatusKey(f)) ==>
            UserTag(f.follower) !in tags && UserTag(f.following) !in tags)
  {
    var after := TagIndex.Step(w, prefix, TagIndex.Drop(tags));
    TagIndex.StepKeeps(w, prefix, STATUS_TTL, TagIndex.Drop(tags));
    TagIndex.InvalidateEffect(w.store, prefix, tags);
    forall f: Edge | ColonFree(f.follower) && Live(after.store, StatusKey(f))
      ensures Live(w.store, StatusKey(f)) && after.store.db[StatusKey(f)] == w.store.db[StatusKey(f)]
      ensures UserTag(f.follower) !in tags && UserTag(f.following) !in tags
    {
      FollowKeys(prefix, f, f, "");
      TagIndex.InvalidateIsExact(w.store, prefix, tags, StatusKey(f));
      forall tag | tag in w.tagsOf[StatusKey(f)] ensures tag !in tags {
        assert TagIndex.Indexed(w.store, prefix, StatusKey(f), tag);
      }
    }
    forall f ensures TagIndex.SameEntry(w.store, after.store, CooldownKey(f)) {
      FollowKeys(prefix, f, f, "");
      assert "follow:cooldown:" <= CooldownKey(f);
      assert forall tag :: CooldownKey(f) !in Smembers(w.store, TagKey(prefix, tag));
    }
  }

  /** Removing one data key keeps the invariant; removing a cached answer allows the edge to change. */
  lemma RemoveKeeps(w: TagIndex.World, prefix: string, edges: set<Edge>, key: string)
    requires TagIndex.Kept(w, prefix, STATUS_TTL) && Coherent(edges, w) && CooldownsUntagged(w) && IsDataKey(prefix, key)
    ensures var after := TagIndex.Step(w, prefix, TagIndex.Remove(key));
      && TagIndex.Kept(after, prefix, STATUS_TTL) && Coherent(edges, after) && CooldownsUntagged(after)
      && after.store.now == w.store.now
      && (forall other :: other != key ==> TagIndex.SameEntry(w.store, after.store, other))
      && key !in after.store.db
  {
    TagIndex.StepKeeps(w, prefix, STATUS_TTL, TagIndex.Remove(key));
  }

  lemma EdgeChange(w: TagIndex.World, edges: set<Edge>, edges': set<Edge>, e: Edge)
    requires Coherent(edges, w) && ColonFree(e.follower) && StatusKey(e) !in w.store.db
    requires edges' == edges + {e} || edges' == edges - {e}
    ensures Coherent(edges', w)
  {
    forall f: Edge | ColonFree(f.follower) && Live(w.store, StatusKey(f)) ensures f in edges' <==> f in edges {
      StatusKeysApart(e, f);
    }
  }

  // ---------- the operations keep the invariant ----------

  /** The stored cooldown of a pair is the same after the step. */
  predicate CooldownKept(sys: Sys, after: Sys, e: Edge) {
    var key := CooldownKey(e);
    && (key in after.net.store.db <==> key in sys.net.store.db)
    && (key in sys.net.store.db ==> after.net.store.db[key] == sys.net.store.db[key])
  }

  lemma FollowStep(sys: Sys, prefix: string, e: Edge)
    requires ColonFree(prefix) && Good(sys, prefix) && Enabled(sys, FollowUser(e))
    ensures var after := Step(sys, prefix, FollowUser(e));
      Good(after, prefix) && after.net.store.now == sys.net.store.now && forall f :: CooldownKept(sys, after, f)
  {
    if FollowRefusal(sys.net, e).None? {
      var a, b, c := TagIndex.Drop(ChangedTags(e)), TagIndex.Remove(StatusKey(e)), TagIndex.Remove(SuggestionsKey(e.follower));
      var w := sys.cache;
      var w1 := TagIndex.Step(w, prefix, a);
      var w2 := TagIndex.Step(w1, prefix, b);
      var edges, edges' := sys.net.edges, sys.net.edges + {e};
      RunThree(w, prefix, a, b, c);
      FollowKeys(prefix, e, e, e.follower);
      DropKeeps(w, prefix, edges, ChangedTags(e));
      RemoveKeeps(w1, prefix, edges, StatusKey(e));
      EdgeChange(w2, edges, edges', e);
      RemoveKeeps(w2, prefix, edges', SuggestionsKey(e.follower));
      var after := Step(sys, prefix, FollowUser(e));
      forall f ensures CooldownKept(sys, after, f) {
        FollowKeys(prefix, e, f, e.follower);
        FollowKeys(prefix, f, f, e.follower);
        assert TagIndex.SameEntry(w.store, w1.store, CooldownKey(f));
        assert TagIndex.SameEntry(w1.store, w2.store, CooldownKey(f));
        assert TagIndex.SameEntry(w2.store, after.cache.store, CooldownKey(f));
      }
    }
  }

  lemma PutCooldownKeeps(w: TagIndex.World, prefix: string, edges: set<Edge>, e: Edge)
    requires ColonFree(prefix)
    requires TagIndex.Kept(w, prefix, STATUS_TTL) && Coherent(edges, w) && CooldownsUntagged(w)
    ensures var put := TagIndex.Put(CooldownKey(e), Str("1"), FOLLOW_COOLDOWN_SECONDS, []);
      var after := TagIndex.Step(w, prefix, put);
      && TagIndex.Kept(after, prefix, STATUS_TTL) && Coherent(edges, after) && CooldownsUntagged(after)
      && after.store == Set(w.store, CooldownKey(e), Str("1"), FOLLOW_COOLDOWN_SECONDS)
  {
    var put := TagIndex.Put(CooldownKey(e), Str("1"), FOLLOW_COOLDOWN_SECONDS, []);
    var after := TagIndex.Step(w, prefix, put);
    FollowKeys(prefix, e, e, "");
    TagIndex.StepKeeps(w, prefix, STATUS_TTL, put);
    TagIndex.CacheSetEffect(w.store, prefix, CooldownKey(e), Str("1"), FOLLOW_COOLDOWN_SECONDS, []);
    forall f: Edge | ColonFree(f.follower) && Live(after.store, StatusKey(f))
      ensures Live(w.store, StatusKey(f)) && after.store.db[StatusKey(f)] == w.store.db[StatusKey(f)]
      ensures StatusKey(f) != CooldownKey(e)
    {
      FollowKeys(prefix, f, e, "");
    }
  }

  lemma UnfollowStep(sys: Sys, prefix: string, e: Edge)
    requires ColonFree(prefix) && Good(sys, prefix) && Enabled(sys, UnfollowUser(e))
    ensures var after := Step(sys, prefix, UnfollowUser(e));
      && Good(after, prefix) && after.net.store.now == sys.net.store.now
      && (forall f: Edge :: ColonFree(f.follower) && f != e ==> CooldownKept(sys, after, f))
      && (e in sys.net.edges ==>
            && CooldownKey(e) in after.net.store.db
            && after.net.store.db[CooldownKey(e)].expiry == Some(sys.net.store.now + FOLLOW_COOLDOWN_SECONDS))
      && (e !in sys.net.edges ==> CooldownKept(sys, after, e))
  {
    if e in sys.net.edges {
      var a := TagIndex.Put(CooldownKey(e), Str("1"), FOLLOW_COOLDOWN_SECONDS, []);
      var b, c := TagIndex.Drop(ChangedTags(e)), TagIndex.Remove(StatusKey(e));
      var w := sys.cache;
      var w1 := TagIndex.Step(w, prefix, a);
      var w2 := TagIndex.Step(w1, prefix, b);
      var w3 := TagIndex.Step(w2, prefix, c);
      var edges := sys.net.edges;
      RunThree(w, prefix, a, b, c);
      FollowKeys(prefix, e, e, "");
      PutCooldownKeeps(w, prefix, edges, e);
      DropKeeps(w1, prefix, edges, ChangedTags(e));
      RemoveKeeps(w2, prefix, edges, StatusKey(e));
      EdgeChange(w3, edges, edges - {e}, e);
      var after := Step(sys, prefix, UnfollowUser(e));
      forall f ensures TagIndex.SameEntry(w1.store, after.net.store, CooldownKey(f)) {
        FollowKeys(prefix, e, f, "");
        assert TagIndex.SameEntry(w1.store, w2.store, CooldownKey(f));
        assert TagIndex.SameEntry(w2.store, w3.store, CooldownKey(f));
      }
      forall f: Edge | ColonFree(f.follower) && f != e ensures CooldownKept(sys, after, f) {
        StatusKeysApart(e, f);
        assert TagIndex.SameEntry(w1.store, after.net.store, CooldownKey(f));
      }
      assert TagIndex.SameEntry(w1.store, after.net.store, CooldownKey(e));
    }
  }

  lemma DeleteStep(sys: Sys, prefix: string, user: Id)
    requires ColonFree(prefix) && Good(sys, prefix)
    ensures var after := Step(sys, prefix, DeleteAccount(user));
      Good(after, prefix) && after.net.store.now == sys.net.store.now && forall f :: CooldownKept(sys, after, f)
  {
    if user in sys.net.users {
      var tags := ["user", UserTag(user)];
      var after := Step(sys, prefix, DeleteAccount(user));
      RunOne(sys.cache, prefix, TagIndex.Drop(tags));
      DropKeeps(sys.cache, prefix, sys.net.edges, tags);
      assert UserTag(user) == tags[1] && UserTag(user) in tags;
      assert Coherent(after.net.edges, after.cache);
      forall f ensures CooldownKept(sys, after, f) {
        assert TagIndex.SameEntry(sys.net.store, after.net.store, CooldownKey(f));
      }
    }
  }

  lemma AskStep(sys: Sys, prefix: string, op: Op)
    requires ColonFree(prefix) && Good(sys, prefix) && Enabled(sys, op)
    requires op.IsFollowingUser? || op.BatchFollowStatus?
    ensures var after := Step(sys, prefix, op);
      Good(after, prefix) && after.net.store.now == sys.net.store.now && forall f :: CooldownKept(sys, after, f)
  {
    var after := Step(sys, prefix, op);
    match op {
      case IsFollowingUser(e) =>
        if Cached(sys.net.store, StatusKey(e)).None? {
          RunOne(sys.cache, prefix, PutStatus(sys.net.edges, e));
          PutStatusKeeps(sys.cache, prefix, sys.net.edges, e);
        }
      case BatchFollowStatus(follower, ids) =>
        PutStatusesKeep(sys.cache, prefix, sys.net.edges, follower, Uncached(sys.net.store, follower, Limited(ids)));
    }
    forall f ensures CooldownKept(sys, after, f) {
      assert TagIndex.SameEntry(sys.net.store, after.net.store, CooldownKey(f));
    }
  }

  // ---------- entries of other services ----------

  /** A key that is neither a cached answer nor a cooldown. */
  predicate Foreign(prefix: string, key: string) {
    IsDataKey(prefix, key) && !("follow:status:" <= key) && !("follow:cooldown:" <= key)
  }

  ghost predicate Coexists(w: TagIndex.World, prefix: string, edges: set<Edge>) {
    TagIndex.Kept(w, prefix, STATUS_TTL) && Coherent(edges, w) && CooldownsUntagged(w)
  }

  /** The two worlds hold the same cooldowns at the same time. */
  ghost predicate CooldownsStay(w: TagIndex.World, after: TagIndex.World) {
    after.store.now == w.store.now && forall f :: TagIndex.SameEntry(w.store, after.store, CooldownKey(f))
  }

  lemma ForeignPutKeeps(w: TagIndex.World, prefix: string, edges: set<Edge>, key: string, value: Value, tags: seq<string>)
    requires ColonFree(prefix) && Coexists(w, prefix, edges) && Foreign(prefix, key)
    ensures var after := TagIndex.Step(w, prefix, TagIndex.Put(key, value, STATUS_TTL, tags));
      Coexists(after, prefix, edges) && CooldownsStay(w, after)
  {
    var put := TagIndex.Put(key, value, STATUS_TTL, tags);
    var after := TagIndex.Step(w, prefix, put);
    TagIndex.StepKeeps(w, prefix, STATUS_TTL, put);
    TagIndex.CacheSetEffect(w.store, prefix, key, value, STATUS_TTL, tags);
    hide TagIndex.CacheSet, TagIndex.Kept;
    forall f: Edge
      ensures TagIndex.SameEntry(w.store, after.store, CooldownKey(f))
      ensures StatusKey(f) != key && TagIndex.SameEntry(w.store, after.store, StatusKey(f))
    {
      FollowKeys(prefix, f, f, "");
      assert "follow:status:" <= StatusKey(f) && "follow:cooldown:" <= CooldownKey(f);
    }
  }

  lemma {:induction false} ForeignPutsKeep(w: TagIndex.World, prefix: string, edges: set<Edge>, keys: seq<string>,
                                           value: Value, tags: seq<string>)
    requires ColonFree(prefix) && Coexists(w, prefix, edges)
    requires forall i :: 0 <= i < |keys| ==> Foreign(prefix, keys[i])
    ensures var after := TagIndex.Run(w, prefix, UserCache.Puts(keys, value, STATUS_TTL, tags));
      Coexists(after, prefix, edges) && CooldownsStay(w, after)
  {
    hide Coexists, Foreign, CooldownKey;
    if keys != [] {
      var n := |keys| - 1;
      var before := TagIndex.Run(w, prefix, UserCache.Puts(keys[..n], value, STATUS_TTL, tags));
      UserCache.RunPuts(w, prefix, keys, value, STATUS_TTL, tags);
      ForeignPutsKeep(w, prefix, edges, keys[..n], value, tags);
      ForeignPutKeeps(before, prefix, edges, keys[n], value, tags);
      var after := TagIndex.Run(w, prefix, UserCache.Puts(keys, value, STATUS_TTL, tags));
      forall f ensures TagIndex.SameEntry(w.store, after.store, CooldownKey(f)) {
        assert TagIndex.SameEntry(w.store, before.store, CooldownKey(f));
        assert TagIndex.SameEntry(before.store, after.store, CooldownKey(f));
      }
    }
  }

  lemma UserKeyIsForeign(prefix: string, lookup: string, identifier: string)
    requires ColonFree(prefix)
    ensures Foreign(prefix, UserCacheKey(prefix, lookup, identifier))
  {
    BuiltKeysAreDataKeys(prefix, lookup, identifier);
    UserKeySegments(prefix, lookup, identifier);
    var rest := "user:" + lookup + ":" + identifier;
    NotUnder("follow", "status", prefix, "cache", rest);
    NotUnder("follow", "cooldown", prefix, "cache", rest);
    hide UserCacheKey, IsDataKey;
  }

  lemma UserKeySegments(prefix: string, lookup: string, identifier: string)
    ensures UserCacheKey(prefix, lookup, identifier) == prefix + ":" + "cache" + ":" + ("user:" + lookup + ":" + identifier)
    ensures "follow" + ":" + "status" + ":" == "follow:status:"
    ensures "follow" + ":" + "cooldown" + ":" == "follow:cooldown:"
  {
    assert prefix + ":cache:user:" == prefix + ":" + "cache" + ":" + "user:";
  }

  lemma NotUnder(p: string, q: string, first: string, second: string, rest: string)
    requires ColonFree(p) && ColonFree(q) && ColonFree(first) && ColonFree(second) && q != second
    ensures !(p + ":" + q + ":" <= first + ":" + second + ":" + rest)
  {
    if p + ":" + q + ":" <= first + ":" + second + ":" + rest {
      SegmentsAgree(p, q, first, second, rest);
    }
  }

  lemma SuggestionsKeyIsForeign(prefix: string, user: Id)
    requires ColonFree(prefix)
    ensures Foreign(prefix, SuggestionsKey(user))
  {
    FollowKeys(prefix, Edge(user, user), Edge(user, user), user);
    assert SuggestionsKey(user)[8] == 'u' && "follow:status:"[8] == 't' && "follow:cooldown:"[8] == 'o';
  }

  lemma AliasesAreForeign(prefix: string, userId: Id, user: UserCache.CachedUser)
    requires ColonFree(prefix)
    ensures var keys := UserCache.AliasKeys(prefix, userId, user);
      forall i :: 0 <= i < |keys| ==> Foreign(prefix, keys[i])
  {
    hide Foreign, UserCacheKey;
    UserKeyIsForeign(prefix, "id", userId);
    UserKeyIsForeign(prefix, "username", user.username);
    UserKeyIsForeign(prefix, "email", user.email);
    UserKeyIsForeign(prefix, "websocketId", user.websocketId);
  }

  lemma LookupKeysAreForeign(st: Store, prefix: string, lookup: string, identifier: string, fetched: UserCache.Fetch)
    requires ColonFree(prefix)
    ensures var keys := UserCache.LookupPuts(st, prefix, lookup, identifier, fetched).0;
      forall i :: 0 <= i < |keys| ==> Foreign(prefix, keys[i])
  {
    UserKeyIsForeign(prefix, lookup, identifier);
    if fetched.Found? {
      AliasesAreForeign(prefix, UserCache.IdOf(fetched.user, identifier), fetched.user);
    }
    hide Foreign, UserCacheKey, UserCache.AliasKeys;
  }

  predicate IsForeign(op: Op) {
    op.CacheUser? || op.LookupUser? || op.CacheSuggestions?
  }

  /** The keys and the value that such an operation stores. */
  function ForeignPuts(st: Store, prefix: string, op: Op): (seq<string>, Value)
    requires IsForeign(op)
  {
    match op
    case CacheUser(user, cached, _) => (UserCache.AliasKeys(prefix, user, cached), Str(cached.json))
    case LookupUser(lookup, identifier, fetched, _) => UserCache.LookupPuts(st, prefix, lookup, identifier, fetched)
    case CacheSuggestions(user, suggestions) => ([SuggestionsKey(user)], suggestions)
  }

  function ForeignTags(op: Op): seq<string>
    requires IsForeign(op)
  {
    if op.CacheSuggestions? then SuggestionsTags(op.user) else op.tags
  }

  lemma ForeignKeys(st: Store, prefix: string, op: Op)
    requires ColonFree(prefix) && IsForeign(op)
    ensures var keys := ForeignPuts(st, prefix, op).0;
      forall i :: 0 <= i < |keys| ==> Foreign(prefix, keys[i])
  {
    match op
    case CacheUser(user, cached, _) => AliasesAreForeign(prefix, user, cached);
    case LookupUser(lookup, identifier, fetched, _) => LookupKeysAreForeign(st, prefix, lookup, identifier, fetched);
    case CacheSuggestions(user, _) => SuggestionsKeyIsForeign(prefix, user);
  }

  lemma ForeignCommands(net: Net, prefix: string, op: Op)
    requires IsForeign(op)
    ensures var (keys, value) := ForeignPuts(net.store, prefix, op);
      && Commands(net, prefix, op) == UserCache.Puts(keys, value, STATUS_TTL, ForeignTags(op))
      && Apply(net, prefix, op)
           == net.(store := UserCache.PutAll(net.store, prefix, keys, value, STATUS_TTL, ForeignTags(op)))
  {
    hide UserCache.PutAll, UserCache.AliasKeys, UserCache.LookupPuts;
  }

  lemma ForeignStep(sys: Sys, prefix: string, op: Op)
    requires ColonFree(prefix) && Good(sys, prefix) && IsForeign(op)
    ensures var after := Step(sys, prefix, op);
      && Good(after, prefix) && after.net.store.now == sys.net.store.now
      && forall f :: CooldownKept(sys, after, f)
  {
    var after := Step(sys, prefix, op);
    var (keys, value) := ForeignPuts(sys.net.store, prefix, op);
    var tags := ForeignTags(op);
    ForeignKeys(sys.net.store, prefix, op);
    ForeignCommands(sys.net, prefix, op);
    hide CooldownKey, StatusKey, Foreign, Apply, Commands, ForeignPuts, ForeignTags, Coherent, CooldownsUntagged,
      TagIndex.Kept, FollowRefusal, UserCache.PutAll, TagIndex.Run;
    ForeignPutsKeep(sys.cache, prefix, sys.net.edges, keys, value, tags);
    UserCache.RunPuts(sys.cache, prefix, keys, value, STATUS_TTL, tags);
    StoreStepIsGood(sys, after, prefix);
  }

  /** A step that only touches the store. */
  lemma StoreStepIsGood(sys: Sys, after: Sys, prefix: string)
    requires Good(sys, prefix) && Coexists(after.cache, prefix, sys.net.edges) && CooldownsStay(sys.cache, after.cache)
    requires after.net == sys.net.(store := after.cache.store) && after.known == sys.known
    ensures Good(after, prefix) && after.net.store.now == sys.net.store.now
    ensures forall f :: CooldownKept(sys, after, f)
  {
    hide CooldownKey, StatusKey, Coherent, CooldownsUntagged, TagIndex.Kept;
    forall f ensures CooldownKept(sys, after, f) {
      assert TagIndex.SameEntry(sys.cache.store, after.cache.store, CooldownKey(f));
    }
  }

  lemma InvalidateStep(sys: Sys, prefix: string, user: Id)
    requires ColonFree(prefix) && Good(sys, prefix)
    ensures var after := Step(sys, prefix, InvalidateUser(user));
      Good(after, prefix) && after.net.store.now == sys.net.store.now && forall f :: CooldownKept(sys, after, f)
  {
    var tags := UserCache.DefaultTags(user);
    var after := Step(sys, prefix, InvalidateUser(user));
    RunOne(sys.cache, prefix, TagIndex.Drop(tags));
    DropKeeps(sys.cache, prefix, sys.net.edges, tags);
    forall f ensures CooldownKept(sys, after, f) {
      assert TagIndex.SameEntry(sys.net.store, after.net.store, CooldownKey(f));
    }
  }

  lemma StepIsGood(sys: Sys, prefix: string, op: Op)
    requires ColonFree(prefix) && Good(sys, prefix) && Enabled(sys, op)
    ensures Good(Step(sys, prefix, op), prefix)
  {
    match op {
      case Register(_) =>
      case FollowUser(e) => FollowStep(sys, prefix, e);
      case UnfollowUser(e) => UnfollowStep(sys, prefix, e);
      case IsFollowingUser(_) => AskStep(sys, prefix, op);
      case BatchFollowStatus(_, _) => AskStep(sys, prefix, op);
      case DeleteAccount(user) => DeleteStep(sys, prefix, user);
      case ClearCooldown(e) =>
        RunOne(sys.cache, prefix, TagIndex.Remove(CooldownKey(e)));
        FollowKeys(prefix, e, e, "");
        RemoveKeeps(sys.cache, prefix, sys.net.edges, CooldownKey(e));
      case Wait(delay) =>
        RunOne(sys.cache, prefix, TagIndex.Wait(delay));
        TagIndex.StepKeeps(sys.cache, prefix, STATUS_TTL, TagIndex.Wait(delay));
      case InvalidateUser(user) => InvalidateStep(sys, prefix, user);
      case _ => ForeignStep(sys, prefix, op);
    }
  }

  // ---------- whole runs ----------

  predicate Valid(sys: Sys, prefix: string, ops: seq<Op>)
    decreases |ops|
  {
    ops == [] || (Enabled(sys, ops[0]) && Valid(Step(sys, prefix, ops[0]), prefix, ops[1..]))
  }

  function Run(sys: Sys, prefix: string, ops: seq<Op>): Sys
    requires Valid(sys, prefix, ops)
    decreases |ops|
  {
    if ops == [] then sys else Run(Step(sys, prefix, ops[0]), prefix, ops[1..])
  }

  function Start(now: int): Sys {
    Sys(Net(map[], {}, Store(map[], now)), TagIndex.Fresh(now), {}, map[])
  }

  lemma {:induction false} RunIsGood(sys: Sys, prefix: string, ops: seq<Op>)
    requires ColonFree(prefix) && Good(sys, prefix) && Valid(sys, prefix, ops)
    ensures Good(Run(sys, prefix, ops), prefix)
    decreases |ops|
  {
    if ops != [] {
      StepIsGood(sys, prefix, ops[0]);
      RunIsGood(Step(sys, prefix, ops[0]), prefix, ops[1..]);
    }
  }

  /** In every reachable state the cached and the batch answers say what the follow table says. */
  lemma StatusAgreesWithTable(now: int, prefix: string, ops: seq<Op>, e: Edge, ids: seq<Id>)
    requires ColonFree(prefix) && ColonFree(e.follower) && Valid(Start(now), prefix, ops)
    ensures var net := Run(Start(now), prefix, ops).net;
      && IsFollowing(net, prefix, e).1 == Bool(e in net.edges)
      && BatchAnswers(net, e.follower, ids).Keys == Elements(Limited(ids))
      && (forall id :: id in Limited(ids) ==>
            BatchAnswers(net, e.follower, ids)[id] == Bool(Edge(e.follower, id) in net.edges))
  {
    RunIsGood(Start(now), prefix, ops);
  }

  // ---------- spacing of follows ----------

  /** A pair that was followed stays apart: followed still, gone, long ago, or cooling down. */
  predicate SpacedAt(sys: Sys, e: Edge, last: int) {
    && ColonFree(e.follower)
    && e.follower in sys.known && e.following in sys.known
    && last <= sys.net.store.now
    && (|| e in sys.net.edges
        || e.follower !in sys.net.users || e.following !in sys.net.users
        || last + FOLLOW_COOLDOWN_SECONDS <= sys.net.store.now
        || CoolsUntil(sys, e, last + FOLLOW_COOLDOWN_SECONDS))
  }

  predicate CoolsUntil(sys: Sys, e: Edge, time: int) {
    && CooldownKey(e) in sys.net.store.db
    && sys.net.store.db[CooldownKey(e)].expiry.Some?
    && time <= sys.net.store.db[CooldownKey(e)].expiry.value
  }

  ghost predicate Spaced(sys: Sys) {
    forall e :: e in sys.followedAt ==> SpacedAt(sys, e, sys.followedAt[e])
  }

  lemma SpacedStays(sys: Sys, after: Sys, e: Edge, last: int)
    requires SpacedAt(sys, e, last) && CooldownKept(sys, after, e)
    requires sys.net.store.now <= after.net.store.now && sys.known <= after.known
    requires e in sys.net.edges ==> e in after.net.edges || e.follower !in after.net.users || e.following !in after.net.users
    requires forall u :: u in sys.known && u in after.net.users ==> u in sys.net.users
    ensures SpacedAt(after, e, last)
  {
  }

  lemma StepKeepsSpacing(sys: Sys, prefix: string, op: Op)
    requires ColonFree(prefix) && Good(sys, prefix) && Enabled(sys, op) && Spaced(sys) && !op.ClearCooldown?
    ensures Spaced(Step(sys, prefix, op))
  {
    var after := Step(sys, prefix, op);
    hide Coherent, CooldownsUntagged, TagIndex.Kept, StatusKey;
    forall f | f in after.followedAt ensures SpacedAt(after, f, after.followedAt[f]) {
      match op {
        case FollowUser(e) =>
          FollowStep(sys, prefix, e);
          if f != e || FollowRefusal(sys.net, e).Some? {
            SpacedStays(sys, after, f, sys.followedAt[f]);
          } else {
            assert e.follower in sys.net.users.Keys && e.following in sys.net.users.Keys;
          }
        case UnfollowUser(e) =>
          UnfollowStep(sys, prefix, e);
          if f != e || e !in sys.net.edges {
            SpacedStays(sys, after, f, sys.followedAt[f]);
          } else {
            assert CoolsUntil(after, f, sys.followedAt[f] + FOLLOW_COOLDOWN_SECONDS);
          }
        case DeleteAccount(user) =>
          DeleteStep(sys, prefix, user);
          SpacedStays(sys, after, f, sys.followedAt[f]);
        case IsFollowingUser(_) =>
          AskStep(sys, prefix, op);
          SpacedStays(sys, after, f, sys.followedAt[f]);
        case BatchFollowStatus(_, _) =>
          AskStep(sys, prefix, op);
          SpacedStays(sys, after, f, sys.followedAt[f]);
        case Register(_) => SpacedStays(sys, after, f, sys.followedAt[f]);
        case Wait(_) => SpacedStays(sys, after, f, sys.followedAt[f]);
        case InvalidateUser(user) =>
          InvalidateStep(sys, prefix, user);
          SpacedStays(sys, after, f, sys.followedAt[f]);
        case CacheUser(_, _, _) =>
          ForeignStep(sys, prefix, op);
          SpacedStays(sys, after, f, sys.followedAt[f]);
        case LookupUser(_, _, _, _) =>
          ForeignStep(sys, prefix, op);
          SpacedStays(sys, after, f, sys.followedAt[f]);
        case CacheSuggestions(_, _) =>
          ForeignStep(sys, prefix, op);
          SpacedStays(sys, after, f, sys.followedAt[f]);
      }
    }
  }

  predicate NoClearing(ops: seq<Op>) {
    forall i :: 0 <= i < |ops| ==> !ops[i].ClearCooldown?
  }

  lemma {:induction false} RunKeepsSpacing(sys: Sys, prefix: string, ops: seq<Op>)
    requires ColonFree(prefix) && Good(sys, prefix) && Spaced(sys) && Valid(sys, prefix, ops) && NoClearing(ops)
    ensures Good(Run(sys, prefix, ops), prefix) && Spaced(Run(sys, prefix, ops))
    decreases |ops|
  {
    if ops != [] {
      StepKeepsSpacing(sys, prefix, ops[0]);
      StepIsGood(sys, prefix, ops[0]);
      RunKeepsSpacing(Step(sys, prefix, ops[0]), prefix, ops[1..]);
    }
  }

  /** Without `clearCooldown`, two successful follows of one pair are at least 300 seconds apart. */
  lemma FollowsAreSpaced(now: int, prefix: string, ops: seq<Op>, e: Edge)
    requires ColonFree(prefix) && ColonFree(e.follower) && Valid(Start(now), prefix, ops) && NoClearing(ops)
    ensures var sys := Run(Start(now), prefix, ops);
      e in sys.followedAt && FollowRefusal(sys.net, e).None? ==> sys.followedAt[e] + 300 <= sys.net.store.now
  {
    RunKeepsSpacing(Start(now), prefix, ops);
  }
}

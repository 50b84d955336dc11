/** The follow service and the part of the user service that deletes accounts, over shared tables. */
module FollowsService {
  import opened Basics
  import opened KeyBuilder
  import opened RedisModel
  import opened FollowGraph
  import RedisService
  import TagIndex

  class Follows {
    const redis: RedisService.Redis
    var users: map<Id, Counts>
    var edges: set<Edge>

    constructor (redis: RedisService.Redis)
      ensures this.redis == redis && users == map[] && edges == {}
    {
      this.redis := redis;
      users, edges := map[], {};
    }

    function Snapshot(): Net
      reads this, redis
    {
      Net(users, edges, redis.State())
    }

    method FollowUser(e: Edge) returns (refusal: Option<FollowError>)
      modifies this, redis
      ensures refusal == FollowRefusal(old(Snapshot()), e)
      ensures Snapshot() == Follow(old(Snapshot()), redis.prefix, e)
      ensures refusal.Some? ==> Snapshot() == old(Snapshot())
    {
      if e.follower == e.following {
        return Some(SelfFollow);
      }
      if e in edges {
        return Some(AlreadyFollowing);
      }
      if e.follower !in users {
        return Some(FollowerMissing);
      }
      if e.following !in users {
        return Some(UserMissing);
      }
      var cooldown := redis.Get(CooldownKey(e));
      if cooldown.Some? {
        var ttl := Ttl(redis.State(), CooldownKey(e));
        if ttl > 0 {
          return Some(CoolingDown((ttl + 59) / 60));
        }
      }
      edges := edges + {e};
      users := users[e.follower := users[e.follower].(following := users[e.follower].following + 1)];
      users := users[e.following := users[e.following].(followers := users[e.following].followers + 1)];
      var _ := redis.InvalidateByTags(ChangedTags(e));
      var _ := redis.Del({StatusKey(e)});
      var _ := redis.Del({SuggestionsKey(e.follower)});
      refusal := None;
    }

    method UnfollowUser(e: Edge) returns (refusal: Option<FollowError>)
      modifies this, redis
      ensures refusal == if e in old(edges) then None else Some(NotFollowing)
      ensures Snapshot() == Unfollow(old(Snapshot()), redis.prefix, e)
      ensures refusal.Some? ==> Snapshot() == old(Snapshot())
    {
      if e !in edges {
        return Some(NotFollowing);
      }
      edges := edges - {e};
      redis.Set(CooldownKey(e), Str("1"), FOLLOW_COOLDOWN_SECONDS);
      if e.follower in users {
        users := users[e.follower := users[e.follower].(following := users[e.follower].following - 1)];
      }
      if e.following in users {
        users := users[e.following := users[e.following].(followers := users[e.following].followers - 1)];
      }
      var _ := redis.InvalidateByTags(ChangedTags(e));
      var _ := redis.Del({StatusKey(e)});
      refusal := None;
    }

    method IsFollowing(e: Edge) returns (answer: Value)
      modifies redis
      ensures (Snapshot(), answer) == FollowGraph.IsFollowing(old(Snapshot()), redis.prefix, e)
      ensures users == old(users) && edges == old(edges)
    {
      var cached := redis.GetParsed(StatusKey(e));
      if cached.Some? {
        return cached.value;
      }
      answer := Bool(e in edges);
      redis.CacheSet(StatusKey(e), answer, STATUS_TTL, StatusTags(e));
    }

    /** The first pass of `batchFollowStatus`: read the cache for each id. */
    method ReadCached(follower: Id, ids: seq<Id>) returns (hits: map<Id, Value>, uncached: seq<Id>)
      ensures hits == CachedAnswers(redis.State(), follower, ids)
      ensures uncached == Uncached(redis.State(), follower, ids)
    {
      hits, uncached := map[], [];
      for i := 0 to |ids|
        invariant uncached == Uncached(redis.State(), follower, ids[..i])
        invariant hits == CachedAnswers(redis.State(), follower, ids[..i])
      {
        AnswersStep(redis.State(), follower, ids[..i], ids[i]);
        assert ids[..i + 1] == ids[..i] + [ids[i]];
        var cached := redis.GetParsed(StatusKey(Edge(follower, ids[i])));
        if cached.Some? {
          hits := hits[ids[i] := cached.value];
        } else {
          uncached := uncached + [ids[i]];
        }
      }
      assert ids[..|ids|] == ids;
    }

    /** The second pass: look the rest up in the follow table and cache what was found. */
    method CacheMissing(follower: Id, ids: seq<Id>) returns (found: map<Id, Value>)
      modifies redis
      ensures found == TableAnswers(edges, follower, ids)
      ensures redis.State() == CacheStatuses(old(redis.State()), redis.prefix, edges, follower, ids)
    {
      hide StatusKey, StatusTags, TagIndex.CacheSet;
      var followed := set e | e in edges && e.follower == follower && e.following in ids :: e.following;
      found := map[];
      for i := 0 to |ids|
        invariant redis.State() == CacheStatuses(old(redis.State()), redis.prefix, edges, follower, ids[..i])
        invariant found == TableAnswers(edges, follower, ids[..i])
      {
        assert ids[..i + 1][..i] == ids[..i] && ids[..i + 1] == ids[..i] + [ids[i]];
        var e := Edge(follower, ids[i]);
        var isFollowing := ids[i] in followed;
        assert isFollowing <==> e in edges;
        found := found[ids[i] := Bool(isFollowing)];
        redis.CacheSet(StatusKey(e), Bool(isFollowing), STATUS_TTL, StatusTags(e));
      }
      assert ids[..|ids|] == ids;
    }

    method BatchFollowStatus(follower: Id, userIds: seq<Id>) returns (answers: map<Id, Value>)
      modifies redis
      ensures answers == BatchAnswers(old(Snapshot()), follower, userIds)
      ensures Snapshot() == Batch(old(Snapshot()), redis.prefix, follower, userIds)
    {
      var limited := Limited(userIds);
      ghost var st := redis.State();
      var hits, uncached := ReadCached(follower, limited);
      UncachedIds(st, follower, limited);
      var found := CacheMissing(follower, uncached);
      answers := hits + found;
      AnswersSplit(old(Snapshot()), follower, limited, uncached);
    }

    /** The user service removes the row; the follow table cascades; then the user's cache is invalidated. */
    method DeleteUser(user: Id) returns (found: bool)
      modifies this, redis
      ensures found <==> user in old(users)
      ensures Snapshot() == FollowGraph.DeleteUser(old(Snapshot()), redis.prefix, user)
    {
      found := user in users;
      if found {
        users := users - {user};
        edges := set e | e in edges && e.follower != user && e.following != user;
        var _ := redis.InvalidateByTags(["user", UserTag(user)]);
      }
    }
  }

  function CachedAnswers(st: Store, follower: Id, ids: seq<Id>): map<Id, Value> {
    map id | id in ids && Hit(st, follower, id) :: HitValue(st, follower, id)
  }

  predicate Hit(st: Store, follower: Id, id: Id) {
    Cached(st, StatusKey(Edge(follower, id))).Some?
  }

  function HitValue(st: Store, follower: Id, id: Id): Value
    requires Hit(st, follower, id)
  {
    Cached(st, StatusKey(Edge(follower, id))).value
  }

  function TableAnswers(edges: set<Edge>, follower: Id, ids: seq<Id>): map<Id, Value> {
    map id | id in ids :: Bool(Edge(follower, id) in edges)
  }

  lemma AnswersStep(st: Store, follower: Id, ids: seq<Id>, id: Id)
    ensures Uncached(st, follower, ids + [id]) == Uncached(st, follower, ids) + (if Hit(st, follower, id) then [] else [id])
    ensures CachedAnswers(st, follower, ids + [id])
         == if Hit(st, follower, id) then CachedAnswers(st, follower, ids)[id := HitValue(st, follower, id)]
            else CachedAnswers(st, follower, ids)
  {
    assert (ids + [id])[..|ids|] == ids && (ids + [id])[|ids|] == id;
  }

  lemma {:induction false} UncachedIds(st: Store, follower: Id, ids: seq<Id>)
    ensures forall id :: id in Uncached(st, follower, ids) <==> id in ids && !Hit(st, follower, id)
  {
    if ids != [] {
      UncachedIds(st, follower, ids[..|ids| - 1]);
      AnswersStep(st, follower, ids[..|ids| - 1], ids[|ids| - 1]);
      assert ids == ids[..|ids| - 1] + [ids[|ids| - 1]];
    }
  }

  /** The two passes together answer every id once. */
  lemma AnswersSplit(net: Net, follower: Id, ids: seq<Id>, uncached: seq<Id>)
    requires Limited(ids) == ids && uncached == Uncached(net.store, follower, ids)
    ensures CachedAnswers(net.store, follower, ids) + TableAnswers(net.edges, follower, uncached)
         == BatchAnswers(net, follower, ids)
  {
    UncachedIds(net.store, follower, ids);
    var both := CachedAnswers(net.store, follower, ids) + TableAnswers(net.edges, follower, uncached);
    forall id ensures id in both <==> id in BatchAnswers(net, follower, ids) {
    }
    forall id | id in ids ensures both[id] == Answer(net, Edge(follower, id)) {
      if Hit(net.store, follower, id) {
        assert id !in uncached;
      }
    }
  }
}

/** The user part of the caching service; all its state is in Redis. */
module CachingService {
  import opened Basics
  import opened KeyBuilder
  import opened RedisModel
  import RedisService
  import TagIndex
  import UserCache

  class Caching {
    const redis: RedisService.Redis

    constructor (redis: RedisService.Redis)
      ensures this.redis == redis
    {
      this.redis := redis;
    }

    /** A lifetime of zero and absent tags stand for the defaults. */
    method CacheUser(userId: string, user: UserCache.CachedUser, optionTtl: nat, optionTags: Option<seq<string>>)
      modifies redis
      ensures var ttl := if optionTtl != 0 then optionTtl else 300;
        var tags := if optionTags.Some? then optionTags.value else UserCache.DefaultTags(userId);
        redis.State() == UserCache.CacheUser(old(redis.State()), redis.prefix, userId, user, ttl, tags)
    {
      hide TagIndex.CacheSet, UserCacheKey;
      var ttl := if optionTtl != 0 then optionTtl else UserCache.DEFAULT_TTL;
      var tags := if optionTags.Some? then optionTags.value else UserCache.DefaultTags(userId);
      ghost var start := redis.State();
      ghost var keys := [];
      CacheUnder(UserCacheKey(redis.prefix, "id", userId), user, ttl, tags, start, keys);
      keys := keys + [UserCacheKey(redis.prefix, "id", userId)];
      if user.username != "" {
        CacheUnder(UserCacheKey(redis.prefix, "username", user.username), user, ttl, tags, start, keys);
        keys := keys + [UserCacheKey(redis.prefix, "username", user.username)];
      }
      if user.email != "" {
        CacheUnder(UserCacheKey(redis.prefix, "email", user.email), user, ttl, tags, start, keys);
        keys := keys + [UserCacheKey(redis.prefix, "email", user.email)];
      }
      if user.websocketId != "" {
        CacheUnder(UserCacheKey(redis.prefix, "websocketId", user.websocketId), user, ttl, tags, start, keys);
        keys := keys + [UserCacheKey(redis.prefix, "websocketId", user.websocketId)];
      }
      assert keys == UserCache.AliasKeys(redis.prefix, userId, user);
    }

    /** One `cacheSet` of the sequence, after those for `keys`. */
    method CacheUnder(key: string, user: UserCache.CachedUser, ttl: nat, tags: seq<string>,
                      ghost start: Store, ghost keys: seq<string>)
      requires redis.State() == UserCache.PutAll(start, redis.prefix, keys, Str(user.json), ttl, tags)
      modifies redis
      ensures redis.State() == UserCache.PutAll(start, redis.prefix, keys + [key], Str(user.json), ttl, tags)
    {
      redis.CacheSet(key, Str(user.json), ttl, tags);
      assert (keys + [key])[..|keys|] == keys;
    }

    /** Cache-aside; `fetched` is what the caller's fetch would do. */
    method GetOrSetUser(lookup: string, identifier: string, fetched: UserCache.Fetch, optionTtl: nat,
                        optionTags: Option<seq<string>>)
      returns (result: Result<Value, HttpError>)
      modifies redis
      ensures var ttl := if optionTtl != 0 then optionTtl else 300;
        var tags := if optionTags.Some? then optionTags.value else UserCache.DefaultTags(identifier);
        (redis.State(), result)
          == UserCache.Lookup(old(redis.State()), redis.prefix, lookup, identifier, fetched, ttl, tags)
    {
      hide TagIndex.CacheSet, UserCacheKey, UserCache.AliasKeys;
      var key := UserCacheKey(redis.prefix, lookup, identifier);
      var ttl := if optionTtl != 0 then optionTtl else UserCache.DEFAULT_TTL;
      var tags := if optionTags.Some? then optionTags.value else UserCache.DefaultTags(identifier);
      var cached := redis.GetParsed(key);
      if cached.Some? {
        return Ok(cached.value);
      }
      match fetched {
        case Throws =>
          result := Err(NotFound);
        case Missing =>
          redis.CacheSet(key, Null, ttl, tags);
          UserCache.PutOne(old(redis.State()), redis.prefix, key, Null, ttl, tags);
          result := Ok(Null);
        case Found(user) =>
          ghost var start := redis.State();
          var userId := UserCache.IdOf(user, identifier);
          CacheUser(userId, user, ttl, Some(tags));
          CacheUnder(key, user, ttl, tags, start, UserCache.AliasKeys(redis.prefix, userId, user));
          result := Ok(Str(user.json));
      }
    }

    method InvalidateUser(userId: string)
      modifies redis
      ensures redis.State() == UserCache.InvalidateUser(old(redis.State()), redis.prefix, userId)
    {
      var _ := redis.InvalidateByTags(["user", "user:" + userId]);
    }
  }
}

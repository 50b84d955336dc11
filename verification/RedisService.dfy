/** The service that talks to Redis. Its fields stand for the server's data and clock. */
module RedisService {
  import opened Basics
  import opened KeyBuilder
  import opened RedisModel
  import TagIndex
  import RateLimiter
  import LockProtocol

  class Redis {
    const prefix: string
    var db: map<string, Entry>
    var now: int

    constructor (prefix: string, now: int)
      ensures this.prefix == prefix && State() == Store(map[], now)
    {
      this.prefix := prefix;
      this.db := map[];
      this.now := now;
    }

    function State(): Store
      reads this
    {
      Store(db, now)
    }

    // ---------- single commands ----------

    method Set(key: string, value: Value, ttl: nat)
      modifies this
      ensures State() == RedisModel.Set(old(State()), key, value, ttl)
    {
      db := db[key := Entry(value, if ttl > 0 then Some(now + ttl) else None)];
    }

    method Get(key: string) returns (value: Option<Value>)
      ensures value == RedisModel.Get(State(), key)
    {
      value := None;
      if key in db && (db[key].expiry.None? || now < db[key].expiry.value) {
        value := Some(db[key].value);
      }
    }

    method Del(keys: set<string>) returns (count: nat)
      modifies this
      ensures State() == RedisModel.Del(old(State()), keys)
      ensures count == DelCount(old(State()), keys)
    {
      count := |set key | key in keys && Live(State(), key)|;
      db := db - keys;
    }

    method Sadd(key: string, member: string)
      modifies this
      ensures State() == RedisModel.Sadd(old(State()), key, member)
    {
      if !Live(State(), key) {
        db := db[key := Entry(Members({member}), None)];
      } else if db[key].value.Members? {
        db := db[key := db[key].(value := Members(db[key].value.elems + {member}))];
      }
    }

    method Expire(key: string, ttl: nat)
      modifies this
      ensures State() == RedisModel.Expire(old(State()), key, ttl)
    {
      if Live(State(), key) {
        db := db[key := db[key].(expiry := Some(now + ttl))];
      }
    }

    // ---------- the tagged cache ----------

    method CacheSet(key: string, value: Value, ttl: nat, tags: seq<string>)
      modifies this
      ensures State() == TagIndex.CacheSet(old(State()), prefix, key, value, ttl, tags)
    {
      Set(key, value, ttl);
      if |tags| > 0 {
        Set(MetaKey(prefix, key), Strs(tags), ttl);
        ghost var stored := State();
        for i := 0 to |tags|
          invariant State() == TagIndex.AddTags(stored, prefix, key, ttl, tags[..i])
        {
          assert tags[..i + 1][..i] == tags[..i];
          Sadd(TagKey(prefix, tags[i]), key);
          if ttl > 0 {
            Expire(TagKey(prefix, tags[i]), ttl);
          }
        }
        assert tags[..|tags|] == tags;
      }
    }

    method InvalidateByTags(tags: seq<string>) returns (deleted: nat)
      modifies this
      ensures State() == TagIndex.Invalidate(old(State()), prefix, tags)
      ensures deleted == TagIndex.Deleted(old(State()), prefix, tags)
    {
      deleted := 0;
      ghost var start := State();
      for i := 0 to |tags|
        invariant State() == TagIndex.Invalidate(start, prefix, tags[..i])
        invariant deleted == TagIndex.Deleted(start, prefix, tags[..i])
      {
        assert tags[..i + 1][..i] == tags[..i];
        var keys := Smembers(State(), TagKey(prefix, tags[i]));
        if |keys| > 0 {
          var count := Del(keys);
          deleted := deleted + count;
          DropMetadata(keys);
          var _ := Del({TagKey(prefix, tags[i])});
        }
      }
      assert tags[..|tags|] == tags;
    }

    /** The inner loop of `invalidateByTags`, which removes the tag list of each key. */
    method DropMetadata(keys: set<string>)
      modifies this
      ensures State() == RedisModel.Del(old(State()), TagIndex.MetaKeys(prefix, keys))
    {
      var todo := keys;
      ghost var start := State();
      while todo != {}
        invariant todo <= keys
        invariant State() == RedisModel.Del(start, TagIndex.MetaKeys(prefix, keys - todo))
      {
        var key :| key in todo;
        var _ := Del({MetaKey(prefix, key)});
        assert TagIndex.MetaKeys(prefix, keys - (todo - {key}))
            == TagIndex.MetaKeys(prefix, keys - todo) + {MetaKey(prefix, key)};
        todo := todo - {key};
      }
      assert keys - todo == keys;
    }

    /** GET with the JSON text parsed. */
    method GetParsed(key: string) returns (value: Option<Value>)
      ensures value == Cached(State(), key)
    {
      value := Get(key);
      if value == Some(Null) {
        value := None;
      }
    }

    /** Cache-aside: `fetched` is what the caller's function would return, possibly null. */
    method GetOrSet(key: string, fetched: Value, ttl: nat, tags: seq<string>) returns (value: Value)
      modifies this
      ensures Cached(old(State()), key).Some? ==> State() == old(State()) && Some(value) == Cached(old(State()), key)
      ensures Cached(old(State()), key).None? ==>
        value == fetched && State() == TagIndex.CacheSet(old(State()), prefix, key, fetched, ttl, tags)
    {
      var cached := GetParsed(key);
      if cached.Some? {
        return cached.value;
      }
      CacheSet(key, fetched, ttl, tags);
      value := fetched;
    }

    // ---------- rate limiting ----------

    /** The script runs as one step; the service then derives the verdict. */
    method CheckRateLimit(identifier: string, action: string, limit: int, window: nat)
      returns (verdict: RateLimiter.Verdict)
      modifies this
      ensures var key := RateLimitKey(prefix, identifier, action);
        var (after, current) := RateLimiter.Hit(old(State()), key, window);
        State() == after && verdict == RateLimiter.VerdictOf(after, key, current, limit)
    {
      var key := RateLimitKey(prefix, identifier, action);
      var (counted, current) := RateLimiter.Incr(State(), key);
      db := counted.db;
      if current == 1 {
        Expire(key, window);
      }
      var remaining := if limit - current > 0 then limit - current else 0;
      verdict := RateLimiter.Verdict(current <= limit, remaining, now + Ttl(State(), key));
    }

    // ---------- locking ----------

    /**
     * `pauses` says what happens during each wait between attempts. The result is that of the loop
     * specification; its guarantees are restated for the caller.
     */
    method AcquireLock(resource: string, lockId: string, timeout: nat, retryDelay: nat, pauses: seq<LockProtocol.Pause>)
      returns (result: Option<string>, ghost attempts: nat)
      modifies this
      ensures LockProtocol.Acquired(State(), result, attempts)
           == LockProtocol.Acquire(old(State()), LockKey(prefix, resource), lockId, old(now), timeout,
                                   LockProtocol.RetryDelay(retryDelay), pauses, 0)
      ensures attempts <= LockProtocol.MaxAttempts(timeout, LockProtocol.RetryDelay(retryDelay))
      ensures result.Some? ==>
        RedisModel.Get(State(), LockKey(prefix, resource)) == Some(Str(lockId))
      ensures timeout > 0 && !Live(old(State()), LockKey(prefix, resource)) ==>
        && result == Some(lockId) && attempts == 1
        && State() == RedisModel.Set(old(State()), LockKey(prefix, resource), Str(lockId), timeout)
    {
      var lockKey, startTime := LockKey(prefix, resource), now;
      var delay := LockProtocol.RetryDelay(retryDelay);
      var waiting := pauses;
      attempts := 0;
      LockProtocol.AcquireOutcome(State(), lockKey, lockId, startTime, timeout, delay, pauses, 0);
      ghost var expected := LockProtocol.Acquire(State(), lockKey, lockId, startTime, timeout, delay, pauses, 0);
      while now - startTime < timeout
        invariant startTime <= now
        invariant LockProtocol.Acquire(State(), lockKey, lockId, startTime, timeout, delay, waiting, attempts) == expected
        decreases timeout - (now - startTime)
      {
        attempts := attempts + 1;
        var (after, ok) := SetNx(State(), lockKey, Str(lockId), timeout);
        db := after.db;
        if ok {
          return Some(lockId), attempts;
        }
        var awake := LockProtocol.Sleep(State(), lockKey, delay, waiting);
        db, now := awake.db, awake.now;
        waiting := LockProtocol.Later(waiting);
      }
      result := None;
    }

    method ReleaseLock(resource: string, lockId: string) returns (released: bool)
      modifies this
      ensures (State(), released) == LockProtocol.CompareAndDelete(old(State()), LockKey(prefix, resource), lockId)
      ensures released <==> RedisModel.Get(old(State()), LockKey(prefix, resource)) == Some(Str(lockId))
      ensures !released ==> State() == old(State())
    {
      var lockKey := LockKey(prefix, resource);
      released := RedisModel.Get(State(), lockKey) == Some(Str(lockId));
      if released {
        var _ := Del({lockKey});
      }
    }
  }

  /** The service in front of the limiter. */
  class Throttle {
    const redis: Redis

    constructor (redis: Redis)
      ensures this.redis == redis
    {
      this.redis := redis;
    }

    method CheckRateLimit(identifier: string, action: string, limit: int, window: nat)
      returns (result: RateLimiter.ThrottleResult)
      modifies redis
      ensures var key := RateLimitKey(redis.prefix, identifier, action);
        var (after, current) := RateLimiter.Hit(old(redis.State()), key, window);
        && redis.State() == after
        && result == RateLimiter.Report(RateLimiter.VerdictOf(after, key, current, limit), limit)
        && result.current == Min(current, limit)
    {
      var verdict := redis.CheckRateLimit(identifier, action, limit, window);
      result := RateLimiter.ThrottleResult(verdict.allowed, verdict.remaining, verdict.resetAt,
                                           limit - verdict.remaining, limit);
    }

    /** Forgetting the counter closes the window. */
    method ResetRateLimit(identifier: string, action: string)
      modifies redis
      ensures redis.State() == RedisModel.Del(old(redis.State()), {RateLimitKey(redis.prefix, identifier, action)})
      ensures RateLimiter.Represents(redis.State(), RateLimitKey(redis.prefix, identifier, action), None, 1)
    {
      var _ := redis.Del({RateLimitKey(redis.prefix, identifier, action)});
    }
  }
}

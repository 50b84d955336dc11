/** What the operations of the follow service achieve, in terms of the tables and of later answers. */
module FollowEffects {
  import opened Basics
  import opened KeyBuilder
  import opened RedisModel
  import opened FollowGraph
  import FollowRuns
  import TagIndex
  import UserCache

  /** The rows of one table entry, for any user. */
  predicate SameRow(net: Net, after: Net, user: Id) {
    (user in after.users <==> user in net.users) && (user in net.users ==> after.users[user] == net.users[user])
  }

  /** The counters of the pair move by `amount`; every other row stays. */
  ghost predicate CountersMove(net: Net, after: Net, e: Edge, amount: int) {
    && (e.follower in net.users ==>
          && e.follower in after.users
          && after.users[e.follower].following == net.users[e.follower].following + amount
          && after.users[e.follower].followers == net.users[e.follower].followers)
    && (e.following in net.users ==>
          && e.following in after.users
          && after.users[e.following].followers == net.users[e.following].followers + amount
          && after.users[e.following].following == net.users[e.following].following)
    && (forall user :: user != e.follower && user != e.following ==> SameRow(net, after, user))
    && after.users.Keys == net.users.Keys
  }

  /** Nothing is cached any more under the tags of either user. */
  ghost predicate Forgotten(after: Store, prefix: string, e: Edge) {
    && Smembers(after, TagKey(prefix, "user:" + e.follower)) == {}
    && Smembers(after, TagKey(prefix, "user:" + e.following)) == {}
    && Smembers(after, TagKey(prefix, "user:" + e.follower + ":following")) == {}
    && Smembers(after, TagKey(prefix, "user:" + e.following + ":followers")) == {}
  }

  lemma BumpMoves(net: Net, after: Net, e: Edge, amount: int)
    requires e.follower != e.following && after.users == Bump(net.users, e, amount)
    ensures CountersMove(net, after, e, amount)
  {
  }

  lemma ChangedTagsForgotten(st: Store, after: Store, prefix: string, e: Edge)
    requires TagIndex.WellTyped(st, prefix)
    requires after == TagIndex.Invalidate(st, prefix, ChangedTags(e))
    ensures Forgotten(after, prefix, e) && TagIndex.WellTyped(after, prefix)
  {
    TagIndex.InvalidateEffect(st, prefix, ChangedTags(e));
    var tags := ChangedTags(e);
    assert tags[0] in tags && tags[1] in tags && tags[2] in tags && tags[3] in tags;
  }

  /** Removing a data key empties no tag set and fills none. */
  lemma RemoveKeepsForgotten(st: Store, prefix: string, e: Edge, key: string)
    requires Forgotten(st, prefix, e) && IsDataKey(prefix, key)
    ensures Forgotten(Del(st, {key}), prefix, e)
  {
    NamespacesApart(prefix);
  }

  // ---------- following ----------

  /** What stands against a follow, in the order in which it is reported. */
  lemma FollowIsRefusedIff(net: Net, e: Edge)
    ensures var left := Ttl(net.store, CooldownKey(e));
      var r := FollowRefusal(net, e);
      && (r.None? <==> && e.follower != e.following && e !in net.edges
                       && e.follower in net.users && e.following in net.users && left <= 0)
      && (r == Some(SelfFollow) <==> e.follower == e.following)
      && (r == Some(AlreadyFollowing) <==> e.follower != e.following && e in net.edges)
      && (r == Some(FollowerMissing) <==> e.follower != e.following && e !in net.edges && e.follower !in net.users)
      && (r == Some(UserMissing) <==>
            && e.follower != e.following && e !in net.edges
            && e.follower in net.users && e.following !in net.users)
      && (r.Some? && r.value.CoolingDown? ==> 60 * (r.value.minutes - 1) < left <= 60 * r.value.minutes)
      && r != Some(NotFollowing)
  {
  }

  /** A follow that is not refused adds the edge, counts it once on each side and clears what was cached. */
  lemma FollowTakesEffect(sys: FollowRuns.Sys, prefix: string, e: Edge)
    requires ColonFree(prefix) && FollowRuns.Good(sys, prefix) && ColonFree(e.follower)
    requires FollowRefusal(sys.net, e).None?
    ensures var net := sys.net;
      var after := FollowRuns.Step(sys, prefix, FollowRuns.FollowUser(e)).net;
      && e in after.edges
      && (forall f :: f != e ==> (f in after.edges <==> f in net.edges))
      && CountersMove(net, after, e, 1)
      && Forgotten(after.store, prefix, e)
      && !Live(after.store, StatusKey(e)) && !Live(after.store, SuggestionsKey(e.follower))
  {
    var net := sys.net;
    var after := FollowRuns.Step(sys, prefix, FollowRuns.FollowUser(e)).net;
    var st := TagIndex.Invalidate(net.store, prefix, ChangedTags(e));
    ChangedTagsForgotten(net.store, st, prefix, e);
    FollowKeys(prefix, e, e, e.follower);
    RemoveKeepsForgotten(st, prefix, e, StatusKey(e));
    RemoveKeepsForgotten(Del(st, {StatusKey(e)}), prefix, e, SuggestionsKey(e.follower));
    BumpMoves(net, after, e, 1);
    hide CountersMove, Forgotten, Bump;
  }

  lemma RefusedFollowChangesNothing(sys: FollowRuns.Sys, prefix: string, e: Edge)
    requires FollowRefusal(sys.net, e).Some?
    ensures FollowRuns.Step(sys, prefix, FollowRuns.FollowUser(e)).net == sys.net
  {
  }

  // ---------- unfollowing ----------

  /** An unfollow of an existing edge removes it, takes it off both counters and clears what was cached. */
  lemma UnfollowTakesEffect(sys: FollowRuns.Sys, prefix: string, e: Edge)
    requires ColonFree(prefix) && FollowRuns.Good(sys, prefix) && ColonFree(e.follower)
    requires e in sys.net.edges
    ensures var net := sys.net;
      var after := FollowRuns.Step(sys, prefix, FollowRuns.UnfollowUser(e)).net;
      && e !in after.edges
      && (forall f :: f != e ==> (f in after.edges <==> f in net.edges))
      && CountersMove(net, after, e, -1)
      && Forgotten(after.store, prefix, e)
      && !Live(after.store, StatusKey(e))
      && Ttl(after.store, CooldownKey(e)) == 300
  {
    var net := sys.net;
    var after := FollowRuns.Step(sys, prefix, FollowRuns.UnfollowUser(e)).net;
    FollowRuns.UnfollowStep(sys, prefix, e);
    FollowRuns.PutCooldownKeeps(sys.cache, prefix, net.edges, e);
    var cooling := Set(net.store, CooldownKey(e), Str("1"), FOLLOW_COOLDOWN_SECONDS);
    var st := TagIndex.Invalidate(cooling, prefix, ChangedTags(e));
    ChangedTagsForgotten(cooling, st, prefix, e);
    FollowKeys(prefix, e, e, "");
    RemoveKeepsForgotten(st, prefix, e, StatusKey(e));
    BumpMoves(net, after, e, -1);
    hide CountersMove, Forgotten, Bump;
  }

  lemma UnfollowWithoutEdgeChangesNothing(sys: FollowRuns.Sys, prefix: string, e: Edge)
    requires e !in sys.net.edges
    ensures FollowRuns.Step(sys, prefix, FollowRuns.UnfollowUser(e)).net == sys.net
  {
  }

  /** The cooldown of an unfollow lasts 300 seconds and no longer. */
  lemma RefollowIffCooledDown(sys: FollowRuns.Sys, prefix: string, e: Edge, delay: nat)
    requires ColonFree(prefix) && FollowRuns.Good(sys, prefix) && ColonFree(e.follower)
    requires e in sys.net.edges
    ensures var unfollowed := FollowRuns.Step(sys, prefix, FollowRuns.UnfollowUser(e));
      var later := FollowRuns.Step(unfollowed, prefix, FollowRuns.Wait(delay));
      && (FollowRefusal(later.net, e).None? <==> delay >= 300)
      && (delay < 300 ==> FollowRefusal(later.net, e) == Some(CoolingDown((300 - delay + 59) / 60)))
  {
    UnfollowTakesEffect(sys, prefix, e);
    assert e.follower in sys.net.users && e.following in sys.net.users;
    var unfollowed := FollowRuns.Step(sys, prefix, FollowRuns.UnfollowUser(e));
    FollowRuns.UnfollowStep(sys, prefix, e);
  }

  /** Clearing the cooldown allows the follow at once. */
  lemma ClearedCooldownAllowsFollow(sys: FollowRuns.Sys, prefix: string, e: Edge)
    requires e.follower != e.following && e !in sys.net.edges
    requires e.follower in sys.net.users && e.following in sys.net.users
    ensures FollowRefusal(FollowRuns.Step(sys, prefix, FollowRuns.ClearCooldown(e)).net, e).None?
  {
  }

  // ---------- deleting a user ----------

  /** Deleting a user removes the row and exactly the user's edges. */
  lemma DeletionTakesEffect(sys: FollowRuns.Sys, prefix: string, user: Id)
    requires user in sys.net.users && TagIndex.WellTyped(sys.net.store, prefix)
    ensures var net := sys.net;
      var after := FollowRuns.Step(sys, prefix, FollowRuns.DeleteAccount(user)).net;
      && user !in after.users
      && (forall other :: other != user ==> SameRow(net, after, other))
      && (forall f: Edge :: f in after.edges <==> f in net.edges && f.follower != user && f.following != user)
      && Smembers(after.store, TagKey(prefix, "user")) == {}
      && Smembers(after.store, TagKey(prefix, "user:" + user)) == {}
  {
    var tags := ["user", UserTag(user)];
    assert tags[0] in tags && tags[1] in tags;
    TagIndex.InvalidateEffect(sys.net.store, prefix, tags);
  }

  // ---------- asking ----------

  /** Only the three operations above and registration touch the tables. */
  lemma OtherOperationsKeepTables(sys: FollowRuns.Sys, prefix: string, op: FollowRuns.Op)
    requires !op.Register? && !op.FollowUser? && !op.UnfollowUser? && !op.DeleteAccount?
    ensures var after := FollowRuns.Step(sys, prefix, op).net;
      after.users == sys.net.users && after.edges == sys.net.edges
  {
  }

  /** An answer that was not cached is remembered for 300 seconds under the tags of the pair. */
  lemma AnswerIsRemembered(sys: FollowRuns.Sys, prefix: string, e: Edge)
    requires ColonFree(prefix) && FollowRuns.Good(sys, prefix) && ColonFree(e.follower)
    requires Cached(sys.net.store, StatusKey(e)).None?
    ensures var after := FollowRuns.Step(sys, prefix, FollowRuns.IsFollowingUser(e)).net.store;
      && Cached(after, StatusKey(e)) == Some(Bool(e in sys.net.edges))
      && Ttl(after, StatusKey(e)) == 300
      && StatusKey(e) in Smembers(after, TagKey(prefix, "user:" + e.follower))
      && StatusKey(e) in Smembers(after, TagKey(prefix, "user:" + e.following))
      && StatusKey(e) in Smembers(after, TagKey(prefix, "user:" + e.follower + ":following"))
  {
    FollowKeys(prefix, e, e, "");
    var tags := StatusTags(e);
    assert tags[0] in tags && tags[1] in tags && tags[2] in tags;
    TagIndex.CacheSetEffect(sys.net.store, prefix, StatusKey(e), Bool(e in sys.net.edges), STATUS_TTL, tags);
    var after := FollowRuns.Step(sys, prefix, FollowRuns.IsFollowingUser(e)).net.store;
    forall tag | tag in tags ensures StatusKey(e) in Smembers(after, TagKey(prefix, tag)) {
      assert TagIndex.Added(sys.net.store, after, TagKey(prefix, tag), StatusKey(e), STATUS_TTL);
    }
  }

  /** Suggestions are cached for 300 seconds under the two tags that a follow or unfollow of the user empties. */
  lemma SuggestionsAreRemembered(sys: FollowRuns.Sys, prefix: string, user: Id, suggestions: Value)
    requires ColonFree(prefix) && FollowRuns.Good(sys, prefix)
    ensures var after := FollowRuns.Step(sys, prefix, FollowRuns.CacheSuggestions(user, suggestions)).net.store;
      && Get(after, SuggestionsKey(user)) == Some(suggestions)
      && Ttl(after, SuggestionsKey(user)) == 300
      && SuggestionsKey(user) in Smembers(after, TagKey(prefix, "user:" + user))
      && SuggestionsKey(user) in Smembers(after, TagKey(prefix, "user:" + user + ":following"))
  {
    var key, tags := SuggestionsKey(user), SuggestionsTags(user);
    var st := sys.net.store;
    FollowKeys(prefix, Edge(user, user), Edge(user, user), user);
    UserCache.PutOne(st, prefix, key, suggestions, SUGGESTIONS_TTL, tags);
    TagIndex.CacheSetEffect(st, prefix, key, suggestions, SUGGESTIONS_TTL, tags);
    var after := FollowRuns.Step(sys, prefix, FollowRuns.CacheSuggestions(user, suggestions)).net.store;
    assert tags[0] in tags && tags[1] in tags;
    forall tag | tag in tags ensures key in Smembers(after, TagKey(prefix, tag)) {
      assert TagIndex.Added(st, after, TagKey(prefix, tag), key, SUGGESTIONS_TTL);
    }
  }

  lemma {:induction false} StatusesRemembered(w: TagIndex.World, prefix: string, edges: set<Edge>, follower: Id, ids: seq<Id>)
    requires ColonFree(prefix) && ColonFree(follower) && FollowRuns.Coexists(w, prefix, edges)
    ensures var after := CacheStatuses(w.store, prefix, edges, follower, ids);
      && after.now == w.store.now
      && (forall id :: id in ids ==> Get(after, StatusKey(Edge(follower, id))) == Some(Bool(Edge(follower, id) in edges)))
      && (forall id :: id !in ids ==>
            TagIndex.SameEntry(w.store, after, StatusKey(Edge(follower, id))))
  {
    if ids != [] {
      var n := |ids| - 1;
      var last := Edge(follower, ids[n]);
      StatusesRemembered(w, prefix, edges, follower, ids[..n]);
      FollowRuns.PutStatusesKeep(w, prefix, edges, follower, ids[..n]);
      var before := CacheStatuses(w.store, prefix, edges, follower, ids[..n]);
      var after := CacheStatuses(w.store, prefix, edges, follower, ids);
      FollowKeys(prefix, last, last, "");
      TagIndex.CacheSetEffect(before, prefix, StatusKey(last), Bool(last in edges), STATUS_TTL, StatusTags(last));
      forall id
        ensures id != ids[n] ==> TagIndex.SameEntry(before, after, StatusKey(Edge(follower, id)))
        ensures id in ids <==> id in ids[..n] || id == ids[n]
      {
        FollowKeys(prefix, Edge(follower, id), last, "");
        StatusKeysApart(Edge(follower, id), last);
        assert ids == ids[..n] + [ids[n]];
      }
    }
  }

  /** After a batch each of the first 100 ids has a cached answer, and no other pair's entry changed. */
  lemma BatchRemembersAnswers(sys: FollowRuns.Sys, prefix: string, follower: Id, ids: seq<Id>)
    requires ColonFree(prefix) && FollowRuns.Good(sys, prefix) && ColonFree(follower)
    ensures var net := sys.net;
      var after := FollowRuns.Step(sys, prefix, FollowRuns.BatchFollowStatus(follower, ids)).net.store;
      var first := ids[..Min(|ids|, 100)];
      && BatchAnswers(net, follower, ids).Keys == Elements(first)
      && (forall id :: id in first ==>
            Get(after, StatusKey(Edge(follower, id))) == Some(Bool(Edge(follower, id) in net.edges)))
      && (forall id :: id !in first ==> TagIndex.SameEntry(net.store, after, StatusKey(Edge(follower, id))))
  {
    var net := sys.net;
    var first := ids[..Min(|ids|, 100)];
    assert Limited(ids) == first;
    var missing := Uncached(net.store, follower, first);
    var after := CacheStatuses(net.store, prefix, net.edges, follower, missing);
    assert FollowRuns.Step(sys, prefix, FollowRuns.BatchFollowStatus(follower, ids)).net.store == after;
    StatusesRemembered(sys.cache, prefix, net.edges, follower, missing);
    MissingIds(net.store, follower, first);
    hide CacheStatuses, Uncached, FollowRuns.Step, TagIndex.Kept;
    forall id | id in first
      ensures Get(after, StatusKey(Edge(follower, id))) == Some(Bool(Edge(follower, id) in net.edges))
    {
      if id !in missing {
        CoherentAnswer(sys, prefix, Edge(follower, id));
        assert TagIndex.SameEntry(net.store, after, StatusKey(Edge(follower, id)));
      }
    }
  }

  lemma CoherentAnswer(sys: FollowRuns.Sys, prefix: string, e: Edge)
    requires FollowRuns.Good(sys, prefix) && ColonFree(e.follower) && Cached(sys.net.store, StatusKey(e)).Some?
    ensures Get(sys.net.store, StatusKey(e)) == Some(Bool(e in sys.net.edges))
  {
  }

  lemma {:induction false} MissingIds(st: Store, follower: Id, ids: seq<Id>)
    ensures forall id :: id in Uncached(st, follower, ids) <==>
      id in ids && Cached(st, StatusKey(Edge(follower, id))).None?
  {
    if ids != [] {
      MissingIds(st, follower, ids[..|ids| - 1]);
      assert ids == ids[..|ids| - 1] + [ids[|ids| - 1]];
    }
  }
}

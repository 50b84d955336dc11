/** Following, unfollowing and the cached follow status, as functions on the whole state. */
module FollowGraph {
  import opened Basics
  import opened KeyBuilder
  import opened RedisModel
  import TagIndex

  type Id = string

  datatype Edge = Edge(follower: Id, following: Id)

  datatype Counts = Counts(followers: int, following: int)

  /** The user and follow tables and the Redis store. */
  datatype Net = Net(users: map<Id, Counts>, edges: set<Edge>, store: Store)

  datatype FollowError =
    | SelfFollow
    | AlreadyFollowing
    | FollowerMissing
    | UserMissing
    | CoolingDown(minutes: int)
    | NotFollowing

  const STATUS_TTL: nat := 300
  const SUGGESTIONS_TTL: nat := 300
  const FOLLOW_COOLDOWN_SECONDS: nat := 300
  const BATCH_LIMIT: nat := 100

  function StatusKey(e: Edge): string {
    "follow:status:" + e.follower + ":" + e.following
  }

  function CooldownKey(e: Edge): string {
    "follow:cooldown:" + e.follower + ":" + e.following
  }

  function SuggestionsKey(user: Id): string {
    "follow:suggestions:" + user
  }

  function UserTag(user: Id): string {
    "user:" + user
  }

  function StatusTags(e: Edge): seq<string> {
    [UserTag(e.follower), UserTag(e.following), UserTag(e.follower) + ":following"]
  }

  function SuggestionsTags(user: Id): seq<string> {
    [UserTag(user), UserTag(user) + ":following"]
  }

  function ChangedTags(e: Edge): seq<string> {
    [UserTag(e.follower), UserTag(e.following), UserTag(e.follower) + ":following", UserTag(e.following) + ":followers"]
  }

  /** UPDATE of one counter row; without a row nothing happens. */
  function Bump(users: map<Id, Counts>, e: Edge, amount: int): map<Id, Counts> {
    var first := if e.follower in users
      then users[e.follower := users[e.follower].(following := users[e.follower].following + amount)] else users;
    if e.following in first
    then first[e.following := first[e.following].(followers := first[e.following].followers + amount)] else first
  }

  // ---------- the operations ----------

  function Ceil60(n: nat): int {
    (n + 59) / 60
  }

  /** The checks of `followUser`, in their order. */
  function FollowRefusal(net: Net, e: Edge): Option<FollowError> {
    var ttl := Ttl(net.store, CooldownKey(e));
    if e.follower == e.following then Some(SelfFollow)
    else if e in net.edges then Some(AlreadyFollowing)
    else if e.follower !in net.users then Some(FollowerMissing)
    else if e.following !in net.users then Some(UserMissing)
    else if Live(net.store, CooldownKey(e)) && ttl > 0 then Some(CoolingDown(Ceil60(ttl)))
    else None
  }

  function Follow(net: Net, prefix: string, e: Edge): Net {
    if FollowRefusal(net, e).Some? then net
    else
      var invalidated := TagIndex.Invalidate(net.store, prefix, ChangedTags(e));
      Net(Bump(net.users, e, 1), net.edges + {e},
          Del(Del(invalidated, {StatusKey(e)}), {SuggestionsKey(e.follower)}))
  }

  function Unfollow(net: Net, prefix: string, e: Edge): Net {
    if e !in net.edges then net
    else
      var cooling := Set(net.store, CooldownKey(e), Str("1"), FOLLOW_COOLDOWN_SECONDS);
      Net(Bump(net.users, e, -1), net.edges - {e},
          Del(TagIndex.Invalidate(cooling, prefix, ChangedTags(e)), {StatusKey(e)}))
  }

  /** Remember the answer for one pair. */
  function CacheStatus(st: Store, prefix: string, edges: set<Edge>, e: Edge): Store {
    TagIndex.CacheSet(st, prefix, StatusKey(e), Bool(e in edges), STATUS_TTL, StatusTags(e))
  }

  function IsFollowing(net: Net, prefix: string, e: Edge): (Net, Value) {
    var cached := Cached(net.store, StatusKey(e));
    if cached.Some? then (net, cached.value)
    else (net.(store := CacheStatus(net.store, prefix, net.edges, e)), Bool(e in net.edges))
  }

  function CacheStatuses(st: Store, prefix: string, edges: set<Edge>, follower: Id, ids: seq<Id>): Store {
    if ids == [] then st
    else CacheStatus(CacheStatuses(st, prefix, edges, follower, ids[..|ids| - 1]), prefix, edges, Edge(follower, ids[|ids| - 1]))
  }

  function Uncached(st: Store, follower: Id, ids: seq<Id>): seq<Id> {
    if ids == [] then [] else
      Uncached(st, follower, ids[..|ids| - 1]) +
      (if Cached(st, StatusKey(Edge(follower, ids[|ids| - 1]))).Some? then [] else [ids[|ids| - 1]])
  }

  function Limited(ids: seq<Id>): seq<Id> {
    if |ids| > BATCH_LIMIT then ids[..BATCH_LIMIT] else ids
  }

  /** What `batchFollowStatus` answers for one id. */
  function Answer(net: Net, e: Edge): Value {
    var cached := Cached(net.store, StatusKey(e));
    if cached.Some? then cached.value else Bool(e in net.edges)
  }

  function Batch(net: Net, prefix: string, follower: Id, ids: seq<Id>): Net {
    net.(store := CacheStatuses(net.store, prefix, net.edges, follower, Uncached(net.store, follower, Limited(ids))))
  }

  function BatchAnswers(net: Net, follower: Id, ids: seq<Id>): map<Id, Value> {
    map id | id in Limited(ids) :: Answer(net, Edge(follower, id))
  }

  /** Deleting a user takes the edges along and drops what is cached under the user's tags. */
  function DeleteUser(net: Net, prefix: string, user: Id): Net {
    if user !in net.users then net
    else Net(net.users - {user}, (set e | e in net.edges && e.follower != user && e.following != user),
             TagIndex.Invalidate(net.store, prefix, ["user", UserTag(user)]))
  }

  // ---------- names ----------

  lemma StatusKeysApart(e: Edge, f: Edge)
    requires ColonFree(e.follower) && ColonFree(f.follower)
    ensures StatusKey(e) == StatusKey(f) <==> e == f
    ensures CooldownKey(e) == CooldownKey(f) <==> e == f
  {
    if StatusKey(e) == StatusKey(f) {
      assert StatusKey(e)[14..] == e.follower + ":" + e.following;
      assert StatusKey(f)[14..] == f.follower + ":" + f.following;
      PairsApart(e, f);
    }
    if CooldownKey(e) == CooldownKey(f) {
      assert CooldownKey(e)[16..] == e.follower + ":" + e.following;
      assert CooldownKey(f)[16..] == f.follower + ":" + f.following;
      PairsApart(e, f);
    }
  }

  lemma PairsApart(e: Edge, f: Edge)
    requires ColonFree(e.follower) && ColonFree(f.follower)
    requires e.follower + ":" + e.following == f.follower + ":" + f.following
    ensures e == f
  {
    var s, t := e.follower + ":" + e.following, f.follower + ":" + f.following;
    assert s[|e.follower|] == ':' && t[|f.follower|] == ':';
    assert forall i :: 0 <= i < |e.follower| ==> s[i] == e.follower[i];
    assert forall i :: 0 <= i < |f.follower| ==> t[i] == f.follower[i];
    assert |e.follower| == |f.follower|;
    assert e.follower == s[..|e.follower|] == f.follower;
    assert e.following == s[|e.follower| + 1..] == f.following;
  }

  /** The keys of this service lie outside the tag index and apart from one another. */
  lemma FollowKeys(prefix: string, e: Edge, f: Edge, user: Id)
    requires ColonFree(prefix)
    ensures IsDataKey(prefix, StatusKey(e)) && IsDataKey(prefix, CooldownKey(e)) && IsDataKey(prefix, SuggestionsKey(user))
    ensures StatusKey(e) != CooldownKey(f) && StatusKey(e) != SuggestionsKey(user) && CooldownKey(e) != SuggestionsKey(user)
  {
    ForeignKeyIsDataKey(prefix, "follow", "status", e.follower + ":" + e.following);
    ForeignKeyIsDataKey(prefix, "follow", "cooldown", e.follower + ":" + e.following);
    ForeignKeyIsDataKey(prefix, "follow", "suggestions", user);
    assert StatusKey(e) == "follow" + ":" + "status" + ":" + (e.follower + ":" + e.following);
    assert CooldownKey(e) == "follow" + ":" + "cooldown" + ":" + (e.follower + ":" + e.following);
    assert SuggestionsKey(user) == "follow" + ":" + "suggestions" + ":" + user;
    assert StatusKey(e)[8] == 't' && CooldownKey(f)[8] == 'o' && CooldownKey(e)[8] == 'o' && SuggestionsKey(user)[8] == 'u';
  }
}

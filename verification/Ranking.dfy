/** Mutual-connection counts and the ranking of follow suggestions. */
module Ranking {
  import opened Basics
  import opened FollowGraph
  import opened Sorting

  // ---------- counting with a Map ----------

  function Targets(rows: seq<Edge>): seq<Id> {
    seq(|rows|, i requires 0 <= i < |rows| => rows[i].following)
  }

  /** `counts.get(id) || 0` */
  function CountOf(counts: map<Id, nat>, id: Id): nat {
    if id in counts then counts[id] else 0
  }

  lemma OneMoreRow(rows: seq<Edge>, i: nat)
    requires i < |rows|
    ensures var before, id := Targets(rows[..i]), rows[i].following;
      && Targets(rows[..i + 1]) == before + [id]
      && FirstSeen(before + [id]) == if id in before then FirstSeen(before) else FirstSeen(before) + [id]
  {
    var before, id := Targets(rows[..i]), rows[i].following;
    assert Targets(rows[..i + 1]) == before + [id];
    assert (before + [id])[..|before|] == before;
  }

  /** The Map holds for each key how often it was seen. */
  ghost predicate Tallied<T(!new)>(counts: map<T, nat>, seen: seq<T>) {
    forall x :: (if x in counts then counts[x] else 0) == multiset(seen)[x] && (x in counts <==> x in seen)
  }

  lemma TallyStep<T(!new)>(counts: map<T, nat>, seen: seq<T>, x: T)
    requires Tallied(counts, seen)
    ensures x in counts <==> x in seen
    ensures Tallied(counts[x := (if x in counts then counts[x] else 0) + 1], seen + [x])
  {
  }

  /** The loop that fills the Map; `order` is the Map's insertion order. */
  method CountConnections(rows: seq<Edge>) returns (counts: map<Id, nat>, order: seq<Id>)
    ensures order == FirstSeen(Targets(rows))
    ensures counts.Keys == Elements(Targets(rows))
    ensures forall id :: CountOf(counts, id) == multiset(Targets(rows))[id]
  {
    counts, order := map[], [];
    for i := 0 to |rows|
      invariant order == FirstSeen(Targets(rows[..i]))
      invariant Tallied(counts, Targets(rows[..i]))
    {
      hide FirstSeen, Targets, Tallied;
      var id := rows[i].following;
      OneMoreRow(rows, i);
      TallyStep(counts, Targets(rows[..i]), id);
      var count := if id in counts then counts[id] else 0;
      if id !in counts {
        order := order + [id];
      }
      counts := counts[id := count + 1];
    }
    assert rows[..|rows|] == rows;
  }

  // ---------- what is counted ----------

  /** A query result: each edge from `scope` to `targets` once, in any order. */
  ghost predicate QueryResult(rows: seq<Edge>, edges: set<Edge>, scope: set<Id>, targets: set<Id>) {
    && Distinct(rows)
    && forall e :: e in rows <==> e in edges && e.follower in scope && e.following in targets
  }

  function Following(edges: set<Edge>, user: Id): set<Id> {
    set e | e in edges && e.follower == user :: e.following
  }

  function Followers(edges: set<Edge>, user: Id): set<Id> {
    set e | e in edges && e.following == user :: e.follower
  }

  function SourcesIn(rows: seq<Edge>, target: Id): set<Id> {
    set e | e in rows && e.following == target :: e.follower
  }

  lemma {:induction false} OccurrencesAreSources(rows: seq<Edge>, target: Id)
    requires Distinct(rows)
    ensures multiset(Targets(rows))[target] == |SourcesIn(rows, target)|
  {
    if rows == [] {
      assert SourcesIn(rows, target) == {};
    } else {
      var n := |rows| - 1;
      var last, rest := rows[n], rows[..n];
      OccurrencesAreSources(rest, target);
      assert rows == rest + [last];
      assert Targets(rows) == Targets(rest) + [last.following];
      assert last !in rest;
      if last.following == target {
        assert SourcesIn(rows, target) == SourcesIn(rest, target) + {last.follower};
        assert last.follower !in SourcesIn(rest, target);
      } else {
        assert SourcesIn(rows, target) == SourcesIn(rest, target);
      }
    }
  }

  /** Whatever the order of the rows, each target is counted once per follower inside the scope. */
  lemma QueryCounts(rows: seq<Edge>, edges: set<Edge>, scope: set<Id>, targets: set<Id>, target: Id)
    requires QueryResult(rows, edges, scope, targets) && target in targets
    ensures multiset(Targets(rows))[target] == |scope * Followers(edges, target)|
  {
    OccurrencesAreSources(rows, target);
    forall id ensures id in SourcesIn(rows, target) <==> id in scope * Followers(edges, target) {
      if id in scope * Followers(edges, target) {
        assert Edge(id, target) in rows;
      }
    }
    assert SourcesIn(rows, target) == scope * Followers(edges, target);
  }

  /** The second loop: look every listed user up in the Map. */
  method CountsOfListed(counts: map<Id, nat>, listed: seq<Id>) returns (mutual: map<Id, nat>)
    ensures mutual == map user | user in listed :: CountOf(counts, user)
  {
    mutual := map[];
    for i := 0 to |listed|
      invariant mutual == map user | user in listed[..i] :: CountOf(counts, user)
    {
      assert listed[..i + 1] == listed[..i] + [listed[i]];
      mutual := mutual[listed[i] := if listed[i] in counts then counts[listed[i]] else 0];
    }
    assert listed[..|listed|] == listed;
  }

  /** The counts shown next to the listed users; `rows` is what the batch query returned. */
  method MutualCounts(current: Id, listed: seq<Id>, edges: set<Edge>, rows: seq<Edge>) returns (mutual: map<Id, nat>)
    requires QueryResult(rows, edges, Following(edges, current), Elements(listed))
    ensures forall user :: user in listed ==>
      CountOf(mutual, user) == |Following(edges, current) * Followers(edges, user)|
  {
    mutual := map[];
    if |Following(edges, current)| > 0 {
      var counts, _ := CountConnections(rows);
      mutual := CountsOfListed(counts, listed);
      forall user | user in listed
        ensures CountOf(mutual, user) == |Following(edges, current) * Followers(edges, user)|
      {
        QueryCounts(rows, edges, Following(edges, current), Elements(listed), user);
      }
    } else {
      assert forall user :: Following(edges, current) * Followers(edges, user) == {};
    }
  }

  // ---------- ranking ----------

  function ByCount(counts: map<Id, nat>): Id -> int {
    id => 0 - CountOf(counts, id)
  }

  const SUGGESTION_CAP := 50
  const SCOPE_CAP := 100

  /** The users whose own follows are looked at. */
  function Scope(following: seq<Id>): (scope: seq<Id>)
    ensures scope == following[..Min(|following|, 100)]
  {
    if |following| > SCOPE_CAP then following[..SCOPE_CAP] else following
  }

  /** Count, drop the user and those already followed, sort by count, cut off. */
  method Rank(user: Id, following: seq<Id>, rows: seq<Edge>, limit: int) returns (ranked: seq<Id>, counts: map<Id, nat>)
    ensures counts.Keys == Elements(Targets(rows))
    ensures forall id :: CountOf(counts, id) == multiset(Targets(rows))[id]
    ensures ranked == SliceTo(AllRanked(user, following, rows, counts), Min(limit, 50))
  {
    var order;
    counts, order := CountConnections(rows);
    var alreadyFollowing := Elements(following) + {user};
    var candidates := Keep(order, alreadyFollowing);
    ranked := SliceTo(Sort(candidates, ByCount(counts)), Min(limit, SUGGESTION_CAP));
  }

  /** A user whom someone in the scope follows, who is neither the user nor followed already. */
  ghost predicate Candidate(edges: set<Edge>, user: Id, following: seq<Id>, id: Id) {
    id != user && id !in following && Elements(Scope(following)) * Followers(edges, id) != {}
  }

  /** The number the ranking goes by. */
  function MutualIn(edges: set<Edge>, following: seq<Id>, id: Id): nat {
    |Elements(Scope(following)) * Followers(edges, id)|
  }

  /** What a query over the scope returns: its edges except those to the user. */
  ghost predicate SuggestionRows(rows: seq<Edge>, edges: set<Edge>, user: Id, following: seq<Id>) {
    && Distinct(rows)
    && forall e :: e in rows <==> e in edges && e.follower in Scope(following) && e.following != user
  }

  lemma SuggestionCounts(rows: seq<Edge>, edges: set<Edge>, user: Id, following: seq<Id>, id: Id)
    requires SuggestionRows(rows, edges, user, following) && id != user
    ensures multiset(Targets(rows))[id] == MutualIn(edges, following, id)
    ensures id in Targets(rows) <==> Elements(Scope(following)) * Followers(edges, id) != {}
  {
    OccurrencesAreSources(rows, id);
    var shared := Elements(Scope(following)) * Followers(edges, id);
    forall other ensures other in SourcesIn(rows, id) <==> other in shared {
      if other in shared {
        assert Edge(other, id) in rows;
      }
    }
    assert SourcesIn(rows, id) == shared;
    assert id in Targets(rows) <==> id in multiset(Targets(rows));
    assert shared == {} <==> |shared| == 0;
  }

  /** All candidates in ranked order, before the cut. */
  function AllRanked(user: Id, following: seq<Id>, rows: seq<Edge>, counts: map<Id, nat>): seq<Id> {
    Sort(Keep(FirstSeen(Targets(rows)), Elements(following) + {user}), ByCount(counts))
  }

  /** The list before the cut holds exactly the candidates, once each, by descending mutual count. */
  lemma CandidatesInOrder(edges: set<Edge>, user: Id, following: seq<Id>, rows: seq<Edge>, counts: map<Id, nat>)
    requires SuggestionRows(rows, edges, user, following)
    requires forall id :: CountOf(counts, id) == multiset(Targets(rows))[id]
    ensures var all := AllRanked(user, following, rows, counts);
      && Distinct(all)
      && (forall id :: id in all <==> Candidate(edges, user, following, id))
      && (forall i, j :: 0 <= i < j < |all| ==> MutualIn(edges, following, all[i]) >= MutualIn(edges, following, all[j]))
  {
    var kept := Keep(FirstSeen(Targets(rows)), Elements(following) + {user});
    var key := ByCount(counts);
    var all := AllRanked(user, following, rows, counts);
    SortSorts(kept, key);
    SortStaysDistinct(kept, key);
    forall id ensures id in all <==> Candidate(edges, user, following, id) {
      if id != user {
        SuggestionCounts(rows, edges, user, following, id);
      }
    }
    forall i, j | 0 <= i < j < |all|
      ensures MutualIn(edges, following, all[i]) >= MutualIn(edges, following, all[j])
    {
      assert all[i] in all && all[j] in all && key(all[i]) <= key(all[j]);
      SuggestionCounts(rows, edges, user, following, all[i]);
      SuggestionCounts(rows, edges, user, following, all[j]);
    }
  }

  /**
   * The ranked list has no duplicates, contains candidates only, is ordered by mutual count, leaves
   * out no candidate with a higher count than an included one, and is as long as the limit allows.
   */
  lemma RankingIsBest(edges: set<Edge>, user: Id, following: seq<Id>, rows: seq<Edge>, limit: int,
                      counts: map<Id, nat>, ranked: seq<Id>)
    requires SuggestionRows(rows, edges, user, following)
    requires forall id :: CountOf(counts, id) == multiset(Targets(rows))[id]
    requires ranked == SliceTo(AllRanked(user, following, rows, counts), Min(limit, 50))
    ensures Distinct(ranked)
    ensures forall id :: id in ranked ==> Candidate(edges, user, following, id)
    ensures forall i, j :: 0 <= i < j < |ranked| ==>
      MutualIn(edges, following, ranked[i]) >= MutualIn(edges, following, ranked[j])
    ensures forall i, other :: 0 <= i < |ranked| && Candidate(edges, user, following, other) && other !in ranked ==>
      MutualIn(edges, following, ranked[i]) >= MutualIn(edges, following, other)
    ensures 0 <= limit ==> |ranked| <= Min(limit, 50)
    ensures 0 <= limit && |ranked| < Min(limit, 50) ==>
      forall id :: Candidate(edges, user, following, id) ==> id in ranked
  {
    CandidatesInOrder(edges, user, following, rows, counts);
    hide Candidate, MutualIn, AllRanked, Targets, CountOf, SuggestionRows;
    var all := AllRanked(user, following, rows, counts);
    var n := |ranked|;
    PrefixIsBest(all, n, id => MutualIn(edges, following, id));
  }

  // ---------- the fetched users are put back in ranked order ----------

  /** Whatever order the users come back in, sorting by index restores the ranking, without missing users. */
  lemma ResortRestoresRanking(ranked: seq<Id>, fetched: seq<Id>)
    requires Distinct(ranked) && Distinct(fetched)
    requires forall id :: id in fetched ==> id in ranked
    ensures Sort(fetched, ByIndex(ranked)) == Keep(ranked, Elements(ranked) - Elements(fetched))
    ensures (forall id :: id in ranked ==> id in fetched) ==> Sort(fetched, ByIndex(ranked)) == ranked
  {
    SortByIndexRestores(ranked, fetched);
    if forall id :: id in ranked ==> id in fetched {
      assert Elements(ranked) - Elements(fetched) == {};
      KeepAll(ranked);
    }
  }
}

/** How far the counters of a user move away from the follow table when requests run one at a time. */
module FollowDrift {
  import opened Basics
  import opened FollowGraph
  import FollowRuns

  datatype Side = Followers | Following

  /** The edges that one counter of a user is meant to count. */
  function EdgesOf(edges: set<Edge>, side: Side, user: Id): set<Edge> {
    set e | e in edges && (if side == Followers then e.following else e.follower) == user
  }

  function Counter(net: Net, side: Side, user: Id): int
    requires user in net.users
  {
    if side == Followers then net.users[user].followers else net.users[user].following
  }

  function Drift(net: Net, side: Side, user: Id): int
    requires user in net.users
  {
    Counter(net, side, user) - |EdgesOf(net.edges, side, user)|
  }

  /** The edges of a user that another user's deletion takes along; the counter is not told. */
  function Lost(net: Net, op: FollowRuns.Op, side: Side, user: Id): set<Edge> {
    match op
    case DeleteAccount(other) =>
      if other !in net.users then {}
      else set e | e in EdgesOf(net.edges, side, user) && (e.follower == other || e.following == other)
    case _ => {}
  }

  /** Edges are between registered users. */
  predicate Attached(net: Net) {
    forall e :: e in net.edges ==> e.follower in net.users && e.following in net.users && e.follower != e.following
  }

  lemma AddEdge(edges: set<Edge>, e: Edge, side: Side, user: Id)
    requires e !in edges
    ensures |EdgesOf(edges + {e}, side, user)|
         == |EdgesOf(edges, side, user)| + if (if side == Followers then e.following else e.follower) == user then 1 else 0
  {
    if (if side == Followers then e.following else e.follower) == user {
      assert EdgesOf(edges + {e}, side, user) == EdgesOf(edges, side, user) + {e};
    } else {
      assert EdgesOf(edges + {e}, side, user) == EdgesOf(edges, side, user);
    }
  }

  lemma FollowKeepsDrift(net: Net, prefix: string, e: Edge, side: Side, user: Id)
    requires user in net.users
    ensures user in Follow(net, prefix, e).users && Drift(Follow(net, prefix, e), side, user) == Drift(net, side, user)
  {
    if FollowRefusal(net, e).None? {
      AddEdge(net.edges, e, side, user);
    }
  }

  lemma UnfollowKeepsDrift(net: Net, prefix: string, e: Edge, side: Side, user: Id)
    requires user in net.users && Attached(net)
    ensures user in Unfollow(net, prefix, e).users && Drift(Unfollow(net, prefix, e), side, user) == Drift(net, side, user)
  {
    if e in net.edges {
      AddEdge(net.edges - {e}, e, side, user);
      assert net.edges - {e} + {e} == net.edges;
    }
  }

  lemma DeletionDrifts(net: Net, prefix: string, other: Id, side: Side, user: Id)
    requires user in net.users && other != user
    ensures user in DeleteUser(net, prefix, other).users
    ensures Drift(DeleteUser(net, prefix, other), side, user)
         == Drift(net, side, user) + |Lost(net, FollowRuns.DeleteAccount(other), side, user)|
  {
    if other in net.users {
      var lost, before := Lost(net, FollowRuns.DeleteAccount(other), side, user), EdgesOf(net.edges, side, user);
      assert EdgesOf(DeleteUser(net, prefix, other).edges, side, user) == before - lost;
      assert before * lost == lost;
    }
  }

  /** The user is neither created nor deleted by the step. */
  predicate Spares(op: FollowRuns.Op, user: Id) {
    op != FollowRuns.Register(user) && op != FollowRuns.DeleteAccount(user)
  }

  lemma StepDrifts(net: Net, prefix: string, op: FollowRuns.Op, side: Side, user: Id)
    requires user in net.users && Attached(net) && Spares(op, user)
    ensures var after := FollowRuns.Apply(net, prefix, op);
      user in after.users && Drift(after, side, user) == Drift(net, side, user) + |Lost(net, op, side, user)|
  {
    match op {
      case FollowUser(e) => FollowKeepsDrift(net, prefix, e, side, user);
      case UnfollowUser(e) => UnfollowKeepsDrift(net, prefix, e, side, user);
      case DeleteAccount(other) => DeletionDrifts(net, prefix, other, side, user);
      case _ =>
    }
  }

  lemma StepStaysAttached(net: Net, prefix: string, op: FollowRuns.Op)
    requires Attached(net)
    ensures Attached(FollowRuns.Apply(net, prefix, op))
  {
  }

  // ---------- whole runs ----------

  function Run(net: Net, prefix: string, ops: seq<FollowRuns.Op>): Net
    decreases |ops|
  {
    if ops == [] then net else Run(FollowRuns.Apply(net, prefix, ops[0]), prefix, ops[1..])
  }

  function LostInRun(net: Net, prefix: string, ops: seq<FollowRuns.Op>, side: Side, user: Id): nat
    decreases |ops|
  {
    if ops == [] then 0
    else |Lost(net, ops[0], side, user)| + LostInRun(FollowRuns.Apply(net, prefix, ops[0]), prefix, ops[1..], side, user)
  }

  /**
   * Over every sequential run, a counter exceeds the edges it counts by exactly the number of edges
   * that deletions of other users took along.
   */
  lemma {:induction false} DriftIsLostEdges(net: Net, prefix: string, ops: seq<FollowRuns.Op>, side: Side, user: Id)
    requires user in net.users && Attached(net) && forall i :: 0 <= i < |ops| ==> Spares(ops[i], user)
    ensures var after := Run(net, prefix, ops);
      user in after.users && Drift(after, side, user) == Drift(net, side, user) + LostInRun(net, prefix, ops, side, user)
    decreases |ops|
  {
    if ops != [] {
      var next := FollowRuns.Apply(net, prefix, ops[0]);
      StepDrifts(net, prefix, ops[0], side, user);
      StepStaysAttached(net, prefix, ops[0]);
      DriftIsLostEdges(next, prefix, ops[1..], side, user);
    }
  }

  /** No deleted user was connected to `user` on this side. */
  predicate NoneLost(net: Net, prefix: string, ops: seq<FollowRuns.Op>, side: Side, user: Id)
    decreases |ops|
  {
    ops == []
    || (Lost(net, ops[0], side, user) == {}
        && NoneLost(FollowRuns.Apply(net, prefix, ops[0]), prefix, ops[1..], side, user))
  }

  lemma {:induction false} NothingLostIff(net: Net, prefix: string, ops: seq<FollowRuns.Op>, side: Side, user: Id)
    ensures LostInRun(net, prefix, ops, side, user) == 0 <==> NoneLost(net, prefix, ops, side, user)
    decreases |ops|
  {
    if ops != [] {
      NothingLostIff(FollowRuns.Apply(net, prefix, ops[0]), prefix, ops[1..], side, user);
    }
  }

  /** An exact counter stays exact if and only if no user connected on that side is deleted. */
  lemma CounterStaysExactIff(net: Net, prefix: string, ops: seq<FollowRuns.Op>, side: Side, user: Id)
    requires user in net.users && Attached(net) && forall i :: 0 <= i < |ops| ==> Spares(ops[i], user)
    requires Counter(net, side, user) == |EdgesOf(net.edges, side, user)|
    ensures var after := Run(net, prefix, ops);
      && user in after.users
      && (Counter(after, side, user) == |EdgesOf(after.edges, side, user)| <==> NoneLost(net, prefix, ops, side, user))
  {
    DriftIsLostEdges(net, prefix, ops, side, user);
    NothingLostIff(net, prefix, ops, side, user);
  }
}

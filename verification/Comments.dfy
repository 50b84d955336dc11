/** The comment forest of the posts service, with its two counters. */
module Comments {
  import opened Basics

  /** `born` is the creation time; a comment's id is its key in the table. */
  datatype Comment = Comment(postId: string, userId: string, parent: Option<string>, repliesCount: int, born: nat)

  datatype Post = Post(allowComments: bool, commentsCount: int)

  datatype Forum = Forum(posts: map<string, Post>, comments: map<string, Comment>, clock: nat)

  type Table = map<string, Comment>

  // ---------- threads ----------

  /** `id` is `root` or a reply to something under it. */
  predicate Under(comments: Table, id: string, root: string)
    requires id in comments
    decreases comments[id].born
  {
    id == root
    || (comments[id].parent.Some?
        && var p := comments[id].parent.value;
           p in comments && comments[p].born < comments[id].born && Under(comments, p, root))
  }

  /** What the database removes with `root`. */
  function Thread(comments: Table, root: string): set<string> {
    set id | id in comments && Under(comments, id, root)
  }

  function Children(comments: Table, id: string): set<string> {
    set c | c in comments && comments[c].parent == Some(id)
  }

  function OfPost(comments: Table, postId: string): set<string> {
    set c | c in comments && comments[c].postId == postId
  }

  // ---------- the operations ----------

  function Counted(posts: map<string, Post>, postId: string, delta: int): map<string, Post> {
    if postId in posts then
      posts[postId := posts[postId].(commentsCount := posts[postId].commentsCount + delta)]
    else posts
  }

  function Replied(comments: Table, parent: Option<string>, delta: int): Table {
    if parent.Some? && parent.value in comments then
      var p := parent.value;
      comments[p := comments[p].(repliesCount := comments[p].repliesCount + delta)]
    else comments
  }

  /** createComment; an empty parent id means none. `id` is the new comment's. */
  function Create(f: Forum, id: string, userId: string, knownUser: bool, postId: string, parentId: string)
    : (Forum, Option<HttpError>)
  {
    if postId !in f.posts then (f, Some(NotFound))
    else if !f.posts[postId].allowComments then (f, Some(Forbidden))
    else if !knownUser then (f, Some(NotFound))
    else if parentId != "" && (parentId !in f.comments || f.comments[parentId].postId != postId) then (f, Some(NotFound))
    else
      var parent := if parentId != "" then Some(parentId) else None;
      var comments := Replied(f.comments, parent, 1)[id := Comment(postId, userId, parent, 0, f.clock)];
      (Forum(Counted(f.posts, postId, 1), comments, f.clock + 1), None)
  }

  /** deleteComment, with the cascade to replies. */
  function Delete(f: Forum, userId: string, id: string): (Forum, Option<HttpError>) {
    if id !in f.comments then (f, Some(NotFound))
    else if f.comments[id].userId != userId then (f, Some(Forbidden))
    else
      var comment := f.comments[id];
      var kept := f.comments - Thread(f.comments, id);
      (Forum(Counted(f.posts, comment.postId, -1), Replied(kept, comment.parent, -1), f.clock), None)
  }

  datatype Op =
    | OpenPost(postId: string, allowComments: bool)
    | RemovePost(postId: string)
    | CreateOp(id: string, userId: string, knownUser: bool, postId: string, parentId: string)
    | DeleteOp(userId: string, id: string)

  /** New rows get new ids. */
  predicate FreshId(f: Forum, op: Op) {
    match op
    case OpenPost(postId, _) => postId !in f.posts
    case CreateOp(id, _, _, _, _) => id !in f.comments && id != ""
    case _ => true
  }

  function Step(f: Forum, op: Op): Forum {
    match op
    case OpenPost(postId, allow) => f.(posts := f.posts[postId := Post(allow, 0)])
    case RemovePost(postId) => f.(posts := f.posts - {postId}, comments := f.comments - OfPost(f.comments, postId))
    case CreateOp(id, userId, known, postId, parentId) => Create(f, id, userId, known, postId, parentId).0
    case DeleteOp(userId, id) => Delete(f, userId, id).0
  }

  function Run(f: Forum, ops: seq<Op>): Forum
    decreases |ops|
  {
    if ops == [] then f else Run(Step(f, ops[0]), ops[1..])
  }

  predicate FreshIds(f: Forum, ops: seq<Op>)
    decreases |ops|
  {
    ops == [] || (FreshId(f, ops[0]) && FreshIds(Step(f, ops[0]), ops[1..]))
  }

  // ---------- the invariant ----------

  /** A parent exists, is older and belongs to the same post. */
  predicate LinkOk(comments: Table, id: string)
    requires id in comments
  {
    comments[id].parent.Some? ==>
      var p := comments[id].parent.value;
      p in comments && comments[p].postId == comments[id].postId && comments[p].born < comments[id].born
  }

  predicate RepliesOk(comments: Table, id: string)
    requires id in comments
  {
    comments[id].repliesCount == |Children(comments, id)|
  }

  predicate Placed(f: Forum, id: string)
    requires id in f.comments
  {
    f.comments[id].postId in f.posts && f.comments[id].born < f.clock
  }

  predicate Linked(comments: Table) {
    forall id :: id in comments ==> LinkOk(comments, id)
  }

  predicate Forest(f: Forum) {
    && Linked(f.comments)
    && (forall id :: id in f.comments ==> RepliesOk(f.comments, id))
    && (forall id :: id in f.comments ==> Placed(f, id))
  }

  // ---------- threads stay together ----------

  /** Everything under a comment is in its post and not older. */
  lemma {:induction false} UnderStaysInPost(comments: Table, id: string, root: string)
    requires Linked(comments) && id in comments && root in comments && Under(comments, id, root)
    ensures comments[id].postId == comments[root].postId && comments[root].born <= comments[id].born
    decreases comments[id].born
  {
    assert LinkOk(comments, id);
    if id != root {
      UnderStaysInPost(comments, comments[id].parent.value, root);
    }
  }

  /** A reply is in the thread exactly when it is the root or its parent is in the thread. */
  lemma ThreadIsClosed(comments: Table, id: string, root: string)
    requires Linked(comments) && id in comments
    ensures id in Thread(comments, root) <==>
      id == root || (comments[id].parent.Some? && comments[id].parent.value in Thread(comments, root))
  {
    assert LinkOk(comments, id);
  }

  /** Removing a thread takes one child from the root's parent and none from any other remaining comment. */
  lemma ChildrenAfterCut(comments: Table, root: string, x: string)
    requires Linked(comments) && root in comments && x in comments && x !in Thread(comments, root)
    ensures Children(comments - Thread(comments, root), x)
         == Children(comments, x) - if comments[root].parent == Some(x) then {root} else {}
  {
    forall c | c in Children(comments, x) ensures c in Thread(comments, root) <==> c == root {
      ThreadIsClosed(comments, c, root);
    }
    ThreadIsClosed(comments, root, root);
  }

  lemma ThreadSize(comments: Table, root: string)
    requires Linked(comments) && root in comments
    ensures root in Thread(comments, root) && Thread(comments, root) <= OfPost(comments, comments[root].postId)
    ensures |Thread(comments, root)| == 1 <==> Children(comments, root) == {}
  {
    var thread := Thread(comments, root);
    ThreadIsClosed(comments, root, root);
    forall id | id in thread ensures id in OfPost(comments, comments[root].postId) {
      UnderStaysInPost(comments, id, root);
    }
    if Children(comments, root) == {} {
      forall id | id in thread ensures id == root {
        if id != root {
          ChildTowards(comments, id, root);
          assert false;
        }
      }
      assert thread == {root};
    } else {
      var c :| c in Children(comments, root);
      ThreadIsClosed(comments, c, root);
      assert LinkOk(comments, c);
      assert {root, c} <= thread && root != c;
      SubsetSize({root, c}, thread);
    }
  }

  /** The chain from a reply up to the root passes through a child of the root. */
  lemma {:induction false} ChildTowards(comments: Table, id: string, root: string)
    requires Linked(comments) && id in comments && Under(comments, id, root) && id != root
    ensures Children(comments, root) != {}
    decreases comments[id].born
  {
    assert LinkOk(comments, id);
    var p := comments[id].parent.value;
    if p == root {
      assert id in Children(comments, root);
    } else {
      ChildTowards(comments, p, root);
    }
  }

  // ---------- every step keeps the forest ----------

  /** Changing reply counts changes no link. */
  lemma RepliedKeepsLinks(comments: Table, parent: Option<string>, delta: int)
    ensures var after := Replied(comments, parent, delta);
      && after.Keys == comments.Keys
      && (forall id :: id in comments ==>
            after[id] == comments[id].(repliesCount := comments[id].repliesCount
              + if parent == Some(id) then delta else 0))
      && (forall id :: Children(after, id) == Children(comments, id))
      && (forall p :: OfPost(after, p) == OfPost(comments, p))
      && (Linked(comments) ==> Linked(after))
  {
    var after := Replied(comments, parent, delta);
    if Linked(comments) {
      forall id | id in after ensures LinkOk(after, id) {
        assert LinkOk(comments, id);
      }
    }
  }

  lemma CreateKeepsForest(f: Forum, id: string, userId: string, known: bool, postId: string, parentId: string)
    requires Forest(f) && id !in f.comments
    ensures Forest(Create(f, id, userId, known, postId, parentId).0)
  {
    var (after, error) := Create(f, id, userId, known, postId, parentId);
    if error.None? {
      var parent := if parentId != "" then Some(parentId) else None;
      var base := Replied(f.comments, parent, 1);
      RepliedKeepsLinks(f.comments, parent, 1);
      forall c | c in after.comments ensures LinkOk(after.comments, c) && Placed(after, c) {
        if c != id {
          assert LinkOk(f.comments, c) && Placed(f, c);
        }
        if parent.Some? {
          assert Placed(f, parentId);
        }
      }
      forall c | c in after.comments ensures RepliesOk(after.comments, c) {
        NewChild(f.comments, base, after.comments[id], id, c);
        if c == id {
          NoChildrenYet(f.comments, id);
        } else {
          assert RepliesOk(f.comments, c);
        }
      }
    }
  }

  lemma NewChild(comments: Table, base: Table, comment: Comment, id: string, c: string)
    requires id !in comments && id !in base && forall x :: Children(base, x) == Children(comments, x)
    ensures Children(base[id := comment], c) == Children(comments, c) + if comment.parent == Some(c) then {id} else {}
    ensures id !in Children(comments, c)
  {
    assert Children(base, c) == Children(comments, c);
    forall x ensures x in Children(base[id := comment], c) <==>
      x in Children(base, c) || (x == id && comment.parent == Some(c))
    {
    }
  }

  lemma NoChildrenYet(comments: Table, id: string)
    requires Linked(comments) && id !in comments
    ensures Children(comments, id) == {}
  {
    forall c | c in comments ensures comments[c].parent != Some(id) {
      assert LinkOk(comments, c);
    }
  }

  lemma CutKeepsLinks(comments: Table, gone: set<string>)
    requires Linked(comments)
    requires forall c :: c in comments && c !in gone && comments[c].parent.Some? ==> comments[c].parent.value !in gone
    ensures Linked(comments - gone)
  {
    forall c | c in comments - gone ensures LinkOk(comments - gone, c) {
      assert LinkOk(comments, c);
    }
  }

  lemma ThreadCutKeepsLinks(comments: Table, root: string)
    requires Linked(comments) && root in comments
    ensures Linked(comments - Thread(comments, root))
  {
    forall c | c in comments && c !in Thread(comments, root) && comments[c].parent.Some?
      ensures comments[c].parent.value !in Thread(comments, root)
    {
      ThreadIsClosed(comments, c, root);
    }
    CutKeepsLinks(comments, Thread(comments, root));
  }

  lemma DeleteKeepsForest(f: Forum, userId: string, id: string)
    requires Forest(f)
    ensures Forest(Delete(f, userId, id).0)
  {
    var (after, error) := Delete(f, userId, id);
    if error.None? {
      var kept := f.comments - Thread(f.comments, id);
      ThreadCutKeepsLinks(f.comments, id);
      RepliedKeepsLinks(kept, f.comments[id].parent, -1);
      forall c | c in after.comments ensures RepliesOk(after.comments, c) && Placed(after, c) {
        assert RepliesOk(f.comments, c) && Placed(f, c);
        ChildrenAfterCut(f.comments, id, c);
        assert f.comments[id].parent == Some(c) ==> id in Children(f.comments, c);
      }
    }
  }

  lemma RemovePostKeepsForest(f: Forum, postId: string)
    requires Forest(f)
    ensures Forest(Step(f, RemovePost(postId)))
  {
    var gone := OfPost(f.comments, postId);
    var after := Step(f, RemovePost(postId));
    forall c | c in f.comments && c !in gone && f.comments[c].parent.Some? ensures f.comments[c].parent.value !in gone {
      assert LinkOk(f.comments, c);
    }
    CutKeepsLinks(f.comments, gone);
    forall c | c in after.comments ensures RepliesOk(after.comments, c) && Placed(after, c) {
      assert RepliesOk(f.comments, c) && Placed(f, c);
      forall x | x in Children(f.comments, c) ensures x !in gone {
        assert LinkOk(f.comments, x);
      }
      assert Children(after.comments, c) == Children(f.comments, c);
    }
  }

  lemma StepKeepsForest(f: Forum, op: Op)
    requires Forest(f) && FreshId(f, op)
    ensures Forest(Step(f, op))
  {
    match op
    case OpenPost(postId, allow) =>
      forall c | c in f.comments ensures Placed(Step(f, op), c) {
        assert Placed(f, c);
      }
    case RemovePost(postId) => RemovePostKeepsForest(f, postId);
    case CreateOp(id, userId, known, postId, parentId) => CreateKeepsForest(f, id, userId, known, postId, parentId);
    case DeleteOp(userId, id) => DeleteKeepsForest(f, userId, id);
  }

  /**
   * Over every run: parents exist, are older (so links are acyclic) and stay in one post, and
   * repliesCount is the number of direct replies.
   */
  lemma {:induction false} RunKeepsForest(f: Forum, ops: seq<Op>)
    requires Forest(f) && FreshIds(f, ops)
    ensures Forest(Run(f, ops))
    decreases |ops|
  {
    if ops != [] {
      StepKeepsForest(f, ops[0]);
      RunKeepsForest(Step(f, ops[0]), ops[1..]);
    }
  }

  /** Each comment of the list replies to the next one. */
  predicate Chain(comments: Table, path: seq<string>) {
    forall i :: 0 <= i < |path| - 1 ==> path[i] in comments && comments[path[i]].parent == Some(path[i + 1])
  }

  lemma {:induction false} LinksAreAcyclic(comments: Table, path: seq<string>)
    requires Linked(comments) && |path| > 1 && Chain(comments, path)
    ensures path[0] in comments && path[|path| - 1] in comments
    ensures comments[path[|path| - 1]].born < comments[path[0]].born && path[0] != path[|path| - 1]
    decreases |path|
  {
    assert comments[path[0]].parent == Some(path[0 + 1]);
    assert LinkOk(comments, path[0]);
    if |path| > 2 {
      LinksAreAcyclic(comments, path[1..]);
    }
  }

  // ---------- the comment count ----------

  /** By how much a post's counter exceeds its comments. */
  function Excess(f: Forum, postId: string): int
    requires postId in f.posts
  {
    f.posts[postId].commentsCount - |OfPost(f.comments, postId)|
  }

  /** The replies of this post that a step removes by cascade. */
  function Cascaded(f: Forum, op: Op, postId: string): nat {
    match op
    case DeleteOp(userId, id) =>
      if id in f.comments && f.comments[id].userId == userId && f.comments[id].postId == postId then
        |Thread(f.comments, id) - {id}|
      else 0
    case _ => 0
  }

  function CascadedInRun(f: Forum, ops: seq<Op>, postId: string): nat
    decreases |ops|
  {
    if ops == [] then 0 else Cascaded(f, ops[0], postId) + CascadedInRun(Step(f, ops[0]), ops[1..], postId)
  }

  lemma DeleteCounts(f: Forum, userId: string, id: string, postId: string)
    requires Forest(f) && postId in f.posts
    ensures Excess(Delete(f, userId, id).0, postId) == Excess(f, postId) + Cascaded(f, DeleteOp(userId, id), postId)
  {
    var (after, error) := Delete(f, userId, id);
    if error.None? {
      RepliedOfPost(f.comments - Thread(f.comments, id), f.comments[id].parent, -1, postId);
      CutOfPost(f.comments, id, postId);
      hide Thread, OfPost, Replied;
    }
  }

  lemma CutOfPost(comments: Table, root: string, postId: string)
    requires Linked(comments) && root in comments
    ensures var thread := Thread(comments, root);
      |OfPost(comments - thread, postId)|
        == |OfPost(comments, postId)| - if comments[root].postId == postId then |thread - {root}| + 1 else 0
  {
    var thread := Thread(comments, root);
    ThreadSize(comments, root);
    hide Thread, Linked;
    assert OfPost(comments - thread, postId) == OfPost(comments, postId) - thread;
    if comments[root].postId == postId {
      assert OfPost(comments, postId) * thread == thread;
      assert |thread - {root}| == |thread| - 1;
    } else {
      assert OfPost(comments, postId) - thread == OfPost(comments, postId);
    }
  }

  lemma RepliedOfPost(comments: Table, parent: Option<string>, delta: int, p: string)
    ensures Replied(comments, parent, delta).Keys == comments.Keys
    ensures OfPost(Replied(comments, parent, delta), p) == OfPost(comments, p)
  {
  }

  lemma NewOfPost(base: Table, id: string, comment: Comment, p: string)
    requires id !in base
    ensures |OfPost(base[id := comment], p)| == |OfPost(base, p)| + if comment.postId == p then 1 else 0
  {
    assert OfPost(base[id := comment], p) == OfPost(base, p) + if comment.postId == p then {id} else {};
  }

  lemma CreateCounts(f: Forum, id: string, userId: string, known: bool, postId: string, parentId: string, p: string)
    requires id !in f.comments && p in f.posts
    ensures var after := Create(f, id, userId, known, postId, parentId).0;
      p in after.posts && Excess(after, p) == Excess(f, p)
  {
    var (after, error) := Create(f, id, userId, known, postId, parentId);
    if error.None? {
      var parent := if parentId != "" then Some(parentId) else None;
      RepliedOfPost(f.comments, parent, 1, p);
      NewOfPost(Replied(f.comments, parent, 1), id, Comment(postId, userId, parent, 0, f.clock), p);
    }
  }

  lemma StepCounts(f: Forum, op: Op, postId: string)
    requires Forest(f) && FreshId(f, op) && postId in f.posts && op != RemovePost(postId)
    ensures postId in Step(f, op).posts
    ensures Excess(Step(f, op), postId) == Excess(f, postId) + Cascaded(f, op, postId)
  {
    match op
    case OpenPost(_, _) =>
    case RemovePost(other) =>
      assert OfPost(Step(f, op).comments, postId) == OfPost(f.comments, postId);
    case CreateOp(id, userId, known, p, parentId) => CreateCounts(f, id, userId, known, p, parentId, postId);
    case DeleteOp(userId, id) => DeleteCounts(f, userId, id, postId);
  }

  /** commentsCount is the number of live comments plus the replies removed by cascade so far. */
  lemma {:induction false} CommentsCountOverRun(f: Forum, ops: seq<Op>, postId: string)
    requires Forest(f) && FreshIds(f, ops) && postId in f.posts && RemovePost(postId) !in ops
    ensures postId in Run(f, ops).posts
    ensures Excess(Run(f, ops), postId) == Excess(f, postId) + CascadedInRun(f, ops, postId)
    decreases |ops|
  {
    if ops != [] {
      StepCounts(f, ops[0], postId);
      StepKeepsForest(f, ops[0]);
      CommentsCountOverRun(Step(f, ops[0]), ops[1..], postId);
    }
  }

  /** The step removes a comment of this post that has no replies, or removes none. */
  predicate RemovesLeaf(f: Forum, op: Op, postId: string) {
    op.DeleteOp? && op.id in f.comments && f.comments[op.id].userId == op.userId && f.comments[op.id].postId == postId
    ==> f.comments[op.id].repliesCount == 0
  }

  predicate RemovesLeaves(f: Forum, ops: seq<Op>, postId: string)
    decreases |ops|
  {
    ops == [] || (RemovesLeaf(f, ops[0], postId) && RemovesLeaves(Step(f, ops[0]), ops[1..], postId))
  }

  lemma LeafIff(f: Forum, op: Op, postId: string)
    requires Forest(f)
    ensures Cascaded(f, op, postId) == 0 <==> RemovesLeaf(f, op, postId)
  {
    if op.DeleteOp? && op.id in f.comments {
      assert RepliesOk(f.comments, op.id);
      ThreadSize(f.comments, op.id);
      var thread := Thread(f.comments, op.id);
      assert |thread - {op.id}| == |thread| - 1;
    }
  }

  lemma {:induction false} CascadeIff(f: Forum, ops: seq<Op>, postId: string)
    requires Forest(f) && FreshIds(f, ops)
    ensures CascadedInRun(f, ops, postId) == 0 <==> RemovesLeaves(f, ops, postId)
    decreases |ops|
  {
    if ops != [] {
      LeafIff(f, ops[0], postId);
      StepKeepsForest(f, ops[0]);
      CascadeIff(Step(f, ops[0]), ops[1..], postId);
    }
  }

  /** From an exact counter: it stays exact exactly when only comments without replies are deleted. */
  lemma CountIsExactIff(f: Forum, ops: seq<Op>, postId: string)
    requires Forest(f) && FreshIds(f, ops) && postId in f.posts && RemovePost(postId) !in ops
    requires f.posts[postId].commentsCount == |OfPost(f.comments, postId)|
    ensures var after := Run(f, ops);
      && postId in after.posts
      && (after.posts[postId].commentsCount == |OfPost(after.comments, postId)| <==> RemovesLeaves(f, ops, postId))
  {
    CommentsCountOverRun(f, ops, postId);
    CascadeIff(f, ops, postId);
  }

  // ---------- what creating and deleting achieve ----------

  /** All other rows are as they were. */
  ghost predicate RowsKept(f: Forum, after: Forum, commentIds: set<string>, postIds: set<string>) {
    && (forall c :: c !in commentIds ==>
          (c in after.comments <==> c in f.comments)
          && (c in f.comments ==> after.comments[c] == f.comments[c]))
    && (forall p :: p !in postIds ==>
          (p in after.posts <==> p in f.posts) && (p in f.posts ==> after.posts[p] == f.posts[p]))
  }

  /** A new post has no comments counted; removing a post takes exactly its comments along. */
  lemma PostOperationsTakeEffect(f: Forum, postId: string, allow: bool)
    ensures var added := Step(f, OpenPost(postId, allow));
      && postId in added.posts && added.posts[postId] == Post(allow, 0)
      && RowsKept(f, added, {}, {postId})
    ensures var removed := Step(f, RemovePost(postId));
      && postId !in removed.posts
      && (forall c :: c in removed.comments <==> c in f.comments && f.comments[c].postId != postId)
      && RowsKept(f, removed, OfPost(f.comments, postId), {postId})
  {
  }

  /** A comment is accepted when post, permission, author and parent allow it; the errors come in this order. */
  lemma CreateSucceedsIff(f: Forum, id: string, userId: string, known: bool, postId: string, parentId: string)
    ensures var error := Create(f, id, userId, known, postId, parentId).1;
      var commentable := postId in f.posts && f.posts[postId].allowComments;
      && (error.None? <==>
            && commentable && known
            && (parentId == "" || (parentId in f.comments && f.comments[parentId].postId == postId)))
      && (error == Some(Forbidden) <==> postId in f.posts && !f.posts[postId].allowComments)
      && (error.Some? ==> Step(f, CreateOp(id, userId, known, postId, parentId)) == f)
  {
  }

  /** The row of a new comment, and those of the post and the parent. */
  lemma CreatedRows(f: Forum, id: string, userId: string, known: bool, postId: string, parentId: string)
    requires FreshId(f, CreateOp(id, userId, known, postId, parentId))
    requires Create(f, id, userId, known, postId, parentId).1.None?
    ensures var after := Step(f, CreateOp(id, userId, known, postId, parentId));
      && id in after.comments
      && after.comments[id].postId == postId && after.comments[id].userId == userId
      && (parentId == "" ==> after.comments[id].parent == None)
      && (parentId != "" ==> after.comments[id].parent == Some(parentId))
      && after.comments[id].repliesCount == 0
      && postId in after.posts
      && after.posts[postId] == f.posts[postId].(commentsCount := f.posts[postId].commentsCount + 1)
      && (parentId != "" ==>
            && parentId in f.comments && parentId in after.comments
            && after.comments[parentId] == f.comments[parentId].(repliesCount := f.comments[parentId].repliesCount + 1))
  {
  }

  lemma CreateKeepsRows(f: Forum, id: string, userId: string, known: bool, postId: string, parentId: string)
    requires FreshId(f, CreateOp(id, userId, known, postId, parentId))
    requires Create(f, id, userId, known, postId, parentId).1.None?
    ensures var after := Step(f, CreateOp(id, userId, known, postId, parentId));
      RowsKept(f, after, if parentId == "" then {id} else {id, parentId}, {postId})
  {
  }

  lemma CreateAddsChild(f: Forum, id: string, userId: string, known: bool, postId: string, parentId: string)
    requires FreshId(f, CreateOp(id, userId, known, postId, parentId)) && parentId != ""
    requires Create(f, id, userId, known, postId, parentId).1.None?
    ensures var after := Step(f, CreateOp(id, userId, known, postId, parentId));
      Children(after.comments, parentId) == Children(f.comments, parentId) + {id}
  {
    CreatedRows(f, id, userId, known, postId, parentId);
    CreateKeepsRows(f, id, userId, known, postId, parentId);
    hide Step, Create;
    var after := Step(f, CreateOp(id, userId, known, postId, parentId));
    forall c ensures c in Children(after.comments, parentId) <==> c in Children(f.comments, parentId) || c == id {
    }
  }

  /**
   * A new comment has the given post and author and no replies; it is a reply exactly when a parent
   * was named. The post counts one more, the parent one more reply, and nothing else changes.
   */
  lemma CreateTakesEffect(f: Forum, id: string, userId: string, known: bool, postId: string, parentId: string)
    requires FreshId(f, CreateOp(id, userId, known, postId, parentId))
    requires Create(f, id, userId, known, postId, parentId).1.None?
    ensures var after := Step(f, CreateOp(id, userId, known, postId, parentId));
      && id in after.comments
      && after.comments[id].postId == postId && after.comments[id].userId == userId
      && (parentId == "" ==> after.comments[id].parent == None)
      && (parentId != "" ==> after.comments[id].parent == Some(parentId))
      && after.comments[id].repliesCount == 0
      && postId in after.posts
      && after.posts[postId] == f.posts[postId].(commentsCount := f.posts[postId].commentsCount + 1)
      && (parentId != "" ==>
            && parentId in f.comments && parentId in after.comments
            && after.comments[parentId] == f.comments[parentId].(repliesCount := f.comments[parentId].repliesCount + 1)
            && Children(after.comments, parentId) == Children(f.comments, parentId) + {id})
      && RowsKept(f, after, if parentId == "" then {id} else {id, parentId}, {postId})
  {
    CreatedRows(f, id, userId, known, postId, parentId);
    CreateKeepsRows(f, id, userId, known, postId, parentId);
    if parentId != "" {
      CreateAddsChild(f, id, userId, known, postId, parentId);
    }
    hide Step, Create, RowsKept, Children;
  }

  /** The comment is unchanged, but for one reply less when it is the parent. */
  predicate SameButReplies(f: Forum, after: Forum, c: string, parent: Option<string>)
    requires c in f.comments && c in after.comments
  {
    after.comments[c]
      == f.comments[c].(repliesCount := f.comments[c].repliesCount - if parent == Some(c) then 1 else 0)
  }

  /** A delete succeeds for the author of an existing comment; otherwise nothing changes. */
  lemma DeleteSucceedsIff(f: Forum, userId: string, id: string)
    ensures var error := Delete(f, userId, id).1;
      && (error.None? <==> id in f.comments && f.comments[id].userId == userId)
      && (error == Some(NotFound) <==> id !in f.comments)
      && (error == Some(Forbidden) <==> id in f.comments && f.comments[id].userId != userId)
      && (error.Some? ==> Step(f, DeleteOp(userId, id)) == f)
  {
  }

  /** `path` leads from a comment up to `root`, one parent at a time. */
  predicate LeadsTo(comments: Table, path: seq<string>, root: string) {
    && path != [] && path[|path| - 1] == root
    && (forall i :: 0 <= i < |path| ==> path[i] in comments)
    && Chain(comments, path)
  }

  /** The removed comments are the root and its descendants, described by parent paths. */
  lemma {:induction false} UnderHasPath(comments: Table, id: string, root: string) returns (path: seq<string>)
    requires Linked(comments) && id in comments && Under(comments, id, root)
    ensures LeadsTo(comments, path, root) && path[0] == id
    decreases comments[id].born
  {
    assert LinkOk(comments, id);
    if id == root {
      path := [id];
    } else {
      var rest := UnderHasPath(comments, comments[id].parent.value, root);
      path := [id] + rest;
    }
  }

  lemma {:induction false} PathIsUnder(comments: Table, path: seq<string>, root: string)
    requires Linked(comments) && LeadsTo(comments, path, root)
    ensures Under(comments, path[0], root)
    decreases |path|
  {
    if |path| > 1 {
      assert LinkOk(comments, path[0]);
      assert comments[path[0]].parent == Some(path[0 + 1]);
      assert forall i :: 0 <= i < |path[1..]| ==> path[1..][i] == path[i + 1];
      PathIsUnder(comments, path[1..], root);
    }
  }

  /**
   * Deleting a comment removes it and every reply with a chain of parents up to it; every other
   * comment stays, unchanged but for the reply count of the parent, and the post counts one less.
   */
  lemma DeleteTakesEffect(f: Forum, userId: string, id: string)
    requires Forest(f) && id in f.comments && f.comments[id].userId == userId
    ensures var after := Step(f, DeleteOp(userId, id));
      var gone := f.comments[id];
      && id !in after.comments
      && (forall c :: c in f.comments ==>
            (c !in after.comments <==> exists path :: LeadsTo(f.comments, path, id) && path[0] == c))
      && (forall c :: c in after.comments ==> c in f.comments && SameButReplies(f, after, c, gone.parent))
      && gone.postId in after.posts
      && after.posts[gone.postId] == f.posts[gone.postId].(commentsCount := f.posts[gone.postId].commentsCount - 1)
      && (forall p :: p != gone.postId ==>
            (p in after.posts <==> p in f.posts) && (p in f.posts ==> after.posts[p] == f.posts[p]))
  {
    var after := Step(f, DeleteOp(userId, id));
    assert Placed(f, id);
    RepliedKeepsLinks(f.comments - Thread(f.comments, id), f.comments[id].parent, -1);
    forall c | c in f.comments
      ensures c !in after.comments <==> exists path :: LeadsTo(f.comments, path, id) && path[0] == c
    {
      if Under(f.comments, c, id) {
        var path := UnderHasPath(f.comments, c, id);
      }
      if path :| LeadsTo(f.comments, path, id) && path[0] == c {
        PathIsUnder(f.comments, path, id);
      }
    }
  }

  /** A comment without replies goes alone. */
  lemma LeafGoesAlone(f: Forum, userId: string, id: string)
    requires Forest(f) && id in f.comments && f.comments[id].userId == userId && f.comments[id].repliesCount == 0
    ensures Step(f, DeleteOp(userId, id)).comments.Keys == f.comments.Keys - {id}
  {
    assert RepliesOk(f.comments, id);
    ThreadSize(f.comments, id);
    var thread := Thread(f.comments, id);
    assert |thread - {id}| == 0;
    assert thread == {id};
    RepliedKeepsLinks(f.comments - thread, f.comments[id].parent, -1);
  }
}

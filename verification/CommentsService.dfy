/** The comment operations of the posts service. */
module CommentsService {
  import opened Basics
  import opened Comments
  import opened KeyBuilder
  import CachingService
  import RedisModel
  import RedisService
  import TagIndex
  import UserCache

  /** The cache tags that a change to a comment invalidates. */
  function Tags(commentId: string, postId: string): seq<string> {
    ["comment", "comment:" + commentId, "post:" + postId, "post:" + postId + ":comments"]
  }

  /** After a change nothing stays cached under the tags of the comment or of its post's comments. */
  lemma ChangeEmptiesTags(st: RedisModel.Store, prefix: string, commentId: string, postId: string)
    requires TagIndex.WellTyped(st, prefix)
    ensures var after := TagIndex.Invalidate(st, prefix, Tags(commentId, postId));
      && RedisModel.Smembers(after, TagKey(prefix, "comment")) == {}
      && RedisModel.Smembers(after, TagKey(prefix, "comment:" + commentId)) == {}
      && RedisModel.Smembers(after, TagKey(prefix, "post:" + postId)) == {}
      && RedisModel.Smembers(after, TagKey(prefix, "post:" + postId + ":comments")) == {}
  {
    var tags := Tags(commentId, postId);
    assert tags[0] in tags && tags[1] in tags && tags[2] in tags && tags[3] in tags;
    TagIndex.InvalidateEffect(st, prefix, tags);
  }

  class Posts {
    const caching: CachingService.Caching
    const redis: RedisService.Redis
    var posts: map<string, Post>
    var comments: Table
    var clock: nat

    constructor (caching: CachingService.Caching)
      ensures this.caching == caching && redis == caching.redis && State() == Forum(map[], map[], 0)
      ensures Forest(State())
    {
      this.caching := caching;
      this.redis := caching.redis;
      posts, comments, clock := map[], map[], 0;
    }

    function State(): Forum
      reads this
    {
      Forum(posts, comments, clock)
    }

    /** The database's increment of one column; a missing row is no error. */
    method AddToReplies(id: string, delta: int)
      modifies this`comments
      ensures comments == Replied(old(comments), Some(id), delta)
    {
      if id in comments {
        comments := comments[id := comments[id].(repliesCount := comments[id].repliesCount + delta)];
      }
    }

    method AddToComments(postId: string, delta: int)
      modifies this`posts
      ensures posts == Counted(old(posts), postId, delta)
    {
      if postId in posts {
        posts := posts[postId := posts[postId].(commentsCount := posts[postId].commentsCount + delta)];
      }
    }

    /**
     * `id` is the id the database gives the new row, `fetched` what the database knows of the author.
     * Looking the author up may fill the cache even when a later check fails.
     */
    method CreateComment(id: string, userId: string, fetched: UserCache.Fetch, postId: string, parentCommentId: string)
      returns (result: Result<string, HttpError>)
      requires Forest(State()) && id !in comments && caching.redis == redis
      modifies this, redis
      ensures var (looked, known) := UserCache.Author(old(redis.State()), redis.prefix, userId, fetched);
        var (after, error) := Create(old(State()), id, userId, known, postId, parentCommentId);
        && State() == after
        && result == (match error case Some(e) => Err(e) case None => Ok(id))
        && redis.State() ==
             if postId !in old(posts) || !old(posts)[postId].allowComments then old(redis.State())
             else if result.Ok? then TagIndex.Invalidate(looked, redis.prefix, Tags(id, postId))
             else looked
      ensures Forest(State())
    {
      hide UserCache.Lookup, TagIndex.Invalidate, Tags;
      ghost var known := UserCache.Author(redis.State(), redis.prefix, userId, fetched).1;
      CreateKeepsForest(State(), id, userId, known, postId, parentCommentId);
      if postId !in posts {
        return Err(NotFound);
      }
      if !posts[postId].allowComments {
        return Err(Forbidden);
      }
      var user := caching.GetOrSetUser("id", userId, fetched, 0, None);
      if user.Err? || user.value == RedisModel.Null {
        return Err(NotFound);
      }
      result := AddComment(id, userId, postId, parentCommentId);
      if result.Ok? {
        var _ := redis.InvalidateByTags(Tags(id, postId));
      }
    }

    /** The transaction: parent, row and post are changed together or not at all. */
    method AddComment(id: string, userId: string, postId: string, parentCommentId: string)
      returns (result: Result<string, HttpError>)
      requires id !in comments && postId in posts && posts[postId].allowComments
      modifies this
      ensures var (after, error) := Create(old(State()), id, userId, true, postId, parentCommentId);
        && State() == after
        && result == match error case Some(e) => Err(e) case None => Ok(id)
    {
      var comment := Comment(postId, userId, None, 0, clock);
      if parentCommentId != "" {
        if parentCommentId !in comments || comments[parentCommentId].postId != postId {
          return Err(NotFound);
        }
        comment := comment.(parent := Some(parentCommentId));
        AddToReplies(parentCommentId, 1);
      }
      comments := comments[id := comment];
      clock := clock + 1;
      AddToComments(postId, 1);
      result := Ok(id);
    }

    /** Removing the row cascades to the replies. */
    method DeleteComment(userId: string, commentId: string) returns (error: Option<HttpError>)
      requires Forest(State())
      modifies this, redis
      ensures (State(), error) == Delete(old(State()), userId, commentId)
      ensures Forest(State())
      ensures redis.State() ==
        if error.None? then
          TagIndex.Invalidate(old(redis.State()), redis.prefix, Tags(commentId, old(comments)[commentId].postId))
        else old(redis.State())
    {
      DeleteKeepsForest(State(), userId, commentId);
      if commentId !in comments {
        return Some(NotFound);
      }
      if comments[commentId].userId != userId {
        return Some(Forbidden);
      }
      var postId, parentCommentId := comments[commentId].postId, comments[commentId].parent;
      comments := comments - Thread(comments, commentId);
      if parentCommentId.Some? {
        AddToReplies(parentCommentId.value, -1);
      }
      AddToComments(postId, -1);
      assert (State(), None) == Delete(old(State()), userId, commentId);
      var _ := redis.InvalidateByTags(Tags(commentId, postId));
      error := None;
    }
  }
}

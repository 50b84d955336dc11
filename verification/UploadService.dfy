/** The storage service and the upload saga of the posts service. */
module UploadService {
  import opened Basics
  import opened Storage
  import opened Uploads
  import opened KeyBuilder
  import opened RedisModel
  import CachingService
  import RedisService
  import TagIndex
  import UserCache

  class Bucket {
    var objects: Uploads.Bucket

    constructor (objects: Uploads.Bucket)
      ensures this.objects == objects
    {
      this.objects := objects;
    }

    /** `connected` tells whether the request reaches the storage. */
    method UploadFile(userId: string, job: Job, connected: bool) returns (result: Result<string, HttpError>)
      modifies this
      ensures result.Ok? <==> Acceptable(job) && connected
      ensures result.Ok? ==> result.value == FileKey(userId, job)
      ensures result.Ok? ==> objects == old(objects)[FileKey(userId, job) := job.file.content]
      ensures result.Err? ==> objects == old(objects)
      ensures result.Err? ==> result.error == if Acceptable(job) then InternalError else BadRequest
    {
      var metadata := AllowedMimeTypes(job.kind);
      if job.file.size > MaxFileSize(job.kind) {
        return Err(BadRequest);
      }
      if metadata[0] != "*" && job.file.mimeType !in metadata {
        return Err(BadRequest);
      }
      if job.kind.Profile? && job.subType != "" && job.subType !in PROFILE_SUB_TYPES {
        return Err(BadRequest);
      }
      var fileKey := FileKey(userId, job);
      if !connected {
        return Err(InternalError);
      }
      objects := objects[fileKey := job.file.content];
      result := Ok(fileKey);
    }

    method DeleteFile(fileKey: string, userId: string, connected: bool) returns (error: Option<HttpError>)
      modifies this
      ensures error == if !Owns(userId, fileKey) then Some(BadRequest) else if connected then None else Some(InternalError)
      ensures objects == if error.None? then old(objects) - {fileKey} else old(objects)
    {
      if !Owns(userId, fileKey) {
        return Some(BadRequest);
      }
      if !connected {
        return Some(InternalError);
      }
      objects := objects - {fileKey};
      error := None;
    }
  }

  /** What may go wrong outside the service. */
  datatype Outside = Outside(network: nat -> bool, reachable: string -> bool, saves: bool)

  /** The text functions of the service, and lower-casing. */
  datatype Texts = Texts(sanitize: string -> string, hashtags: string -> seq<string>, mentions: string -> seq<string>,
                         lower: string -> string)

  /** The caller's wishes; an empty parent id stands for none. */
  datatype Request = Request(content: string, files: seq<File>, documentFiles: seq<File>,
                             isPublic: Option<bool>, allowComments: Option<bool>, parentPostId: string)

  function OrTrue(option: Option<bool>): bool {
    if option.Some? then option.value else true
  }

  /** The post as it is saved before the uploads. */
  function Draft(userId: string, request: Request, texts: Texts): Post {
    var content := texts.sanitize(request.content);
    Post(userId, content, texts.hashtags(content), texts.mentions(content),
         OrTrue(request.isPublic), OrTrue(request.allowComments),
         if request.parentPostId != "" then Some(request.parentPostId) else None, None, [], TextPost)
  }

  /** Visibility and comments are on unless switched off; the texts are those of the sanitized content. */
  lemma DraftIs(userId: string, request: Request, texts: Texts)
    ensures var post := Draft(userId, request, texts);
      && post.userId == userId
      && post.content == texts.sanitize(request.content)
      && post.hashtags == texts.hashtags(post.content) && post.mentions == texts.mentions(post.content)
      && (post.isPublic <==> request.isPublic != Some(false))
      && (post.allowComments <==> request.allowComments != Some(false))
      && (post.parentPostId.None? <==> request.parentPostId == "")
      && (post.parentPostId.Some? ==> post.parentPostId.value == request.parentPostId)
      && post.mediaUrl == None && post.mediaUrls == [] && post.postType == TextPost
  {
  }

  /** The cache tags that a new post invalidates. */
  function Tags(postId: string, userId: string): seq<string> {
    ["post", "post:" + postId, "user:" + userId + ":posts"]
  }

  /** After a new post nothing stays cached under the tags of posts, of this post or of its author's posts. */
  lemma NewPostEmptiesTags(st: Store, prefix: string, postId: string, userId: string)
    requires TagIndex.WellTyped(st, prefix)
    ensures var after := TagIndex.Invalidate(st, prefix, Tags(postId, userId));
      && Smembers(after, TagKey(prefix, "post")) == {}
      && Smembers(after, TagKey(prefix, "post:" + postId)) == {}
      && Smembers(after, TagKey(prefix, "user:" + userId + ":posts")) == {}
  {
    var tags := Tags(postId, userId);
    assert tags[0] in tags && tags[1] in tags && tags[2] in tags;
    TagIndex.InvalidateEffect(st, prefix, tags);
  }

  class Posts {
    const storage: Bucket
    const caching: CachingService.Caching
    const redis: RedisService.Redis
    var posts: map<string, Post>

    constructor (storage: Bucket, caching: CachingService.Caching)
      ensures this.storage == storage && this.caching == caching && redis == caching.redis && posts == map[]
    {
      this.storage := storage;
      this.caching := caching;
      this.redis := caching.redis;
      posts := map[];
    }

    /** One round of an upload loop. */
    method UploadOne(userId: string, jobs: seq<Job>, i: nat, network: nat -> bool, ghost start: Uploads.Bucket)
      returns (uploaded: Result<string, HttpError>)
      requires i < |jobs| && storage.objects == Put(start, userId, jobs[..i])
      modifies storage
      ensures uploaded.Ok? <==> Succeeds(jobs, network, i)
      ensures storage.objects == Put(start, userId, jobs[..if uploaded.Ok? then i + 1 else i])
      ensures uploaded.Ok? ==> Keys(userId, jobs[..i + 1]) == Keys(userId, jobs[..i]) + [uploaded.value]
      ensures uploaded.Err? ==> uploaded.error == if Acceptable(jobs[i]) then InternalError else BadRequest
    {
      uploaded := storage.UploadFile(userId, jobs[i], network(i));
      PutOneMore(start, userId, jobs, i);
    }

    /** One of the two upload loops: the jobs from `first` up to `next`, after those before `first`. */
    method UploadAll(userId: string, jobs: seq<Job>, first: nat, next: nat, network: nat -> bool,
                     base: string, ghost start: Uploads.Bucket)
      returns (urls: seq<string>, keys: seq<string>, error: Option<HttpError>, ghost n: nat)
      requires first <= next <= |jobs|
      requires storage.objects == Put(start, userId, jobs[..first])
      modifies storage
      ensures first <= n <= next && storage.objects == Put(start, userId, jobs[..n])
      ensures n == Min(DoneFrom(jobs, network, first), next)
      ensures DoneFrom(jobs, network, first) == DoneFrom(jobs, network, n)
      ensures Keys(userId, jobs[..first]) + keys == Keys(userId, jobs[..n]) && urls == Urls(base, keys)
      ensures error == FailureAt(jobs, n, next) && (error.None? <==> n == next)
      ensures n < next ==> error == FailureAt(jobs, n, |jobs|)
    {
      hide Acceptable, FileKey, Succeeds, Put;
      urls, keys, error, n := [], [], None, first;
      ghost var before := Keys(userId, jobs[..first]);
      for i := first to next
        invariant i == n && error.None?
        invariant storage.objects == Put(start, userId, jobs[..i])
        invariant before + keys == Keys(userId, jobs[..i]) && urls == Urls(base, keys)
        invariant DoneFrom(jobs, network, first) == DoneFrom(jobs, network, i)
      {
        var uploaded := UploadOne(userId, jobs, i, network, start);
        if uploaded.Err? {
          return urls, keys, Some(uploaded.error), n;
        }
        urls := urls + [base + uploaded.value];
        assert before + (keys + [uploaded.value]) == before + keys + [uploaded.value];
        keys := keys + [uploaded.value];
        n := n + 1;
      }
    }

    /** The rollback loop; failing deletes are skipped. */
    method DeleteAll(userId: string, keys: seq<string>, reachable: string -> bool)
      modifies storage
      ensures storage.objects == Rollback(old(storage.objects), userId, keys, reachable)
    {
      ghost var start := storage.objects;
      for i := 0 to |keys|
        invariant storage.objects == Rollback(start, userId, keys[..i], reachable)
      {
        assert keys[..i + 1][..i] == keys[..i];
        var _ := storage.DeleteFile(keys[i], userId, reachable(keys[i]));
      }
      assert keys[..|keys|] == keys;
    }

    /** Both loops: the URLs of each, and the keys of all that succeeded. */
    method UploadFiles(userId: string, files: seq<File>, documentFiles: seq<File>, network: nat -> bool, base: string)
      returns (mediaUrls: seq<string>, documentUrls: seq<string>, keys: seq<string>, error: Option<HttpError>, ghost n: nat)
      modifies storage
      ensures n == DoneFrom(Jobs(files, documentFiles), network, 0)
      ensures storage.objects == Put(old(storage.objects), userId, Jobs(files, documentFiles)[..n])
      ensures keys == Keys(userId, Jobs(files, documentFiles)[..n])
      ensures error == FailureAt(Jobs(files, documentFiles), n, |files| + |documentFiles|)
      ensures error.None? ==> mediaUrls == Urls(base, Keys(userId, MediaJobs(files)))
      ensures error.None? ==> documentUrls == Urls(base, Keys(userId, DocumentJobs(documentFiles)))
    {
      hide Acceptable, FileKey, Succeeds, FailureAt, Put, Keys, DoneFrom, Urls, MediaJobs, DocumentJobs, Jobs;
      var jobs := Jobs(files, documentFiles);
      ghost var start := storage.objects;
      PutNothing(start, userId, jobs);
      KeysOfConcat(userId, MediaJobs(files), DocumentJobs(documentFiles));
      JobCount(files, documentFiles);
      documentUrls := [];
      mediaUrls, keys, error, n := UploadAll(userId, jobs, 0, |files|, network, base, start);
      if error.Some? {
        return;
      }
      var documentKeys;
      documentUrls, documentKeys, error, n := UploadAll(userId, jobs, |files|, |jobs|, network, base, start);
      keys := keys + documentKeys;
      SameSuffix(Keys(userId, MediaJobs(files)), documentKeys, Keys(userId, DocumentJobs(documentFiles)), error.None?);
    }

    static lemma SameSuffix(a: seq<string>, b: seq<string>, c: seq<string>, same: bool)
      requires same ==> a + b == a + c
      ensures same ==> b == c
    {
      if same {
        assert b == (a + b)[|a|..] && c == (a + c)[|a|..];
      }
    }

    /** From the first save to the last one, or to the rollback. */
    method PublishWithFiles(postId: string, draft: Post, request: Request, base: string, lower: string -> string,
                            outside: Outside)
      returns (result: Result<string, HttpError>)
      requires postId !in posts
      modifies this, storage
      ensures Saga(postId, draft, request, base, lower, outside,
                   old(posts), posts, old(storage.objects), storage.objects, result)
    {
      hide Acceptable, FileKey, IsTypeOf, Put, Rollback, DoneFrom, Keys, Urls, MediaJobs, DocumentJobs;
      var userId := draft.userId;
      posts := posts[postId := draft];
      var uploadedMediaUrls, uploadedDocumentUrls, keys, error, n :=
        UploadFiles(userId, request.files, request.documentFiles, outside.network, base);
      ghost var jobs := Jobs(request.files, request.documentFiles);
      JobCount(request.files, request.documentFiles);
      assert error.None? ==> jobs[..n] == jobs;
      if error.None? {
        var allMediaUrls := uploadedMediaUrls + uploadedDocumentUrls;
        var mediaUrl := if |allMediaUrls| > 0 then Some(allMediaUrls[0]) else None;
        var postType := DeterminePostType(mediaUrl, allMediaUrls, lower);
        if outside.saves {
          TypeOfUploads(mediaUrl, allMediaUrls, postType, lower);
          posts := posts[postId := draft.(mediaUrl := mediaUrl, mediaUrls := allMediaUrls, postType := postType)];
          return Ok(postId);
        }
        error := Some(InternalError);
      }
      DeleteAll(userId, keys, outside.reachable);
      posts := posts - {postId};
      assert posts == old(posts);
      result := Err(error.value);
    }

    method CreatePostWithFiles(postId: string, userId: string, fetched: UserCache.Fetch, request: Request, texts: Texts,
                               base: string, outside: Outside)
      returns (result: Result<string, HttpError>)
      requires postId !in posts && caching.redis == redis
      modifies this, storage, redis
      ensures var (looked, known) := UserCache.Author(old(redis.State()), redis.prefix, userId, fetched);
        if !known || (request.parentPostId != "" && request.parentPostId !in old(posts)) then
          && result == Err(NotFound) && redis.State() == looked
          && posts == old(posts) && storage.objects == old(storage.objects)
        else
          && Saga(postId, Draft(userId, request, texts), request, base, texts.lower, outside,
                  old(posts), posts, old(storage.objects), storage.objects, result)
          && redis.State() ==
               if result.Ok? then TagIndex.Invalidate(looked, redis.prefix, Tags(postId, userId)) else looked
    {
      hide UserCache.Lookup, TagIndex.Invalidate, Tags, Saga;
      var user := caching.GetOrSetUser("id", userId, fetched, 0, None);
      if user.Err? || user.value == Null {
        return Err(NotFound);
      }
      if request.parentPostId != "" && request.parentPostId !in posts {
        return Err(NotFound);
      }
      var post := Draft(userId, request, texts);
      result := PublishWithFiles(postId, post, request, base, texts.lower, outside);
      if result.Ok? {
        var _ := redis.InvalidateByTags(Tags(postId, userId));
      }
    }
  }

  lemma PutNothing(bucket: Uploads.Bucket, userId: string, jobs: seq<Job>)
    ensures Put(bucket, userId, jobs[..0]) == bucket && Keys(userId, jobs[..0]) == []
  {
  }

  lemma JobCount(media: seq<File>, documents: seq<File>)
    ensures var jobs := Jobs(media, documents);
      && |jobs| == |media| + |documents|
      && jobs == MediaJobs(media) + DocumentJobs(documents)
      && jobs[..|media|] == MediaJobs(media) && jobs[..|jobs|] == jobs
  {
  }

  /** Passing the first URL separately does not change the type. */
  lemma TypeOfUploads(mediaUrl: Option<string>, urls: seq<string>, t: PostType, lower: string -> string)
    requires mediaUrl == if |urls| > 0 then Some(urls[0]) else None
    requires IsTypeOf(t, (if mediaUrl.Some? && mediaUrl.value != "" then [mediaUrl.value] else []) + urls, lower)
    ensures IsTypeOf(t, urls, lower)
  {
    if mediaUrl.Some? && mediaUrl.value != "" {
      FirstUrlIsRepeated(t, urls, lower);
    } else {
      assert [] + urls == urls;
    }
  }

  /** What the saga promises, from the state before to the state after. */
  ghost predicate Saga(postId: string, draft: Post, request: Request, base: string, lower: string -> string,
                       outside: Outside, before: map<string, Post>, after: map<string, Post>,
                       stored: Uploads.Bucket, left: Uploads.Bucket, result: Result<string, HttpError>)
  {
    var jobs := Jobs(request.files, request.documentFiles);
    var n := DoneFrom(jobs, outside.network, 0);
    if n < |jobs| || !outside.saves then
      && result == Err(if n < |jobs| then FailureAt(jobs, n, |jobs|).value else InternalError)
      && after == before
      && left == Undone(stored, draft.userId, jobs[..n], outside.reachable)
    else
      && result == Ok(postId)
      && left == Put(stored, draft.userId, jobs)
      && postId in after
      && after == before[postId := after[postId]]
      && Published(after[postId], draft,
                   Urls(base, Keys(draft.userId, MediaJobs(request.files)))
                   + Urls(base, Keys(draft.userId, DocumentJobs(request.documentFiles))), lower)
  }

  /** The draft with its URLs, the first of them as main one, and the type they have. */
  ghost predicate Published(post: Post, draft: Post, urls: seq<string>, lower: string -> string) {
    && post == draft.(mediaUrls := urls, mediaUrl := if |urls| > 0 then Some(urls[0]) else None, postType := post.postType)
    && IsTypeOf(post.postType, urls, lower)
  }

  /** Why upload n, the first that did not happen, failed. */
  function FailureAt(jobs: seq<Job>, n: nat, next: nat): Option<HttpError>
    requires n <= next <= |jobs|
  {
    if n == next then None
    else if !Acceptable(jobs[n]) then Some(BadRequest)
    else Some(InternalError)
  }
}

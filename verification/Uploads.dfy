/** Creating a post with files: two upload loops, a final save, and the rollback. */
module Uploads {
  import opened Basics
  import opened Storage

  datatype Post = Post(userId: string, content: string, hashtags: seq<string>, mentions: seq<string>,
                       isPublic: bool, allowComments: bool, parentPostId: Option<string>,
                       mediaUrl: Option<string>, mediaUrls: seq<string>, postType: PostType)

  /** The bucket as a map from keys to contents. */
  type Bucket = map<string, string>

  // ---------- specification of the loops ----------

  function MediaJobs(files: seq<File>): seq<Job> {
    seq(|files|, i requires 0 <= i < |files| => Job(files[i], Media, "post"))
  }

  function DocumentJobs(files: seq<File>): seq<Job> {
    seq(|files|, i requires 0 <= i < |files| => Job(files[i], Documents, ""))
  }

  /** The uploads of both loops, in order. */
  function Jobs(media: seq<File>, documents: seq<File>): seq<Job> {
    MediaJobs(media) + DocumentJobs(documents)
  }

  /** The keys of a list of uploads. */
  function Keys(userId: string, jobs: seq<Job>): (keys: seq<string>)
    ensures |keys| == |jobs|
    ensures forall i :: 0 <= i < |jobs| ==> keys[i] == FileKey(userId, jobs[i])
  {
    seq(|jobs|, i requires 0 <= i < |jobs| => FileKey(userId, jobs[i]))
  }

  /** The public URLs of a list of keys; `base` is the endpoint and bucket name. */
  function Urls(base: string, keys: seq<string>): (urls: seq<string>)
    ensures |urls| == |keys|
    ensures forall i :: 0 <= i < |keys| ==> urls[i] == base + keys[i]
  {
    seq(|keys|, i requires 0 <= i < |keys| => base + keys[i])
  }

  /** The bucket after these uploads. */
  function Put(bucket: Bucket, userId: string, jobs: seq<Job>): Bucket {
    if jobs == [] then bucket
    else
      var last := jobs[|jobs| - 1];
      Put(bucket, userId, jobs[..|jobs| - 1])[FileKey(userId, last) := last.file.content]
  }

  /** `network(i)` tells whether upload number i reaches the storage. */
  predicate Succeeds(jobs: seq<Job>, network: nat -> bool, i: nat)
    requires i < |jobs|
  {
    Acceptable(jobs[i]) && network(i)
  }

  /** The number of uploads before the first failure. */
  function DoneFrom(jobs: seq<Job>, network: nat -> bool, from: nat): (n: nat)
    requires from <= |jobs|
    ensures from <= n <= |jobs|
    decreases |jobs| - from
  {
    if from < |jobs| && Succeeds(jobs, network, from) then DoneFrom(jobs, network, from + 1) else from
  }

  lemma {:induction false} DoneIsFirstFailure(jobs: seq<Job>, network: nat -> bool, from: nat)
    requires from <= |jobs|
    ensures forall i :: from <= i < DoneFrom(jobs, network, from) ==> Succeeds(jobs, network, i)
    ensures var n := DoneFrom(jobs, network, from); n < |jobs| ==> !Succeeds(jobs, network, n)
    decreases |jobs| - from
  {
    hide Succeeds;
    if from < |jobs| && Succeeds(jobs, network, from) {
      DoneIsFirstFailure(jobs, network, from + 1);
    }
  }

  /** One rollback delete; a refused or failing one is logged and skipped. */
  function DeleteOne(bucket: Bucket, userId: string, key: string, reachable: string -> bool): Bucket {
    if Owns(userId, key) && reachable(key) then bucket - {key} else bucket
  }

  function Rollback(bucket: Bucket, userId: string, keys: seq<string>, reachable: string -> bool): Bucket {
    if keys == [] then bucket
    else DeleteOne(Rollback(bucket, userId, keys[..|keys| - 1], reachable), userId, keys[|keys| - 1], reachable)
  }

  // ---------- what the loops do ----------

  lemma {:induction false} PutKeys(bucket: Bucket, userId: string, jobs: seq<Job>)
    ensures Put(bucket, userId, jobs).Keys == bucket.Keys + Elements(Keys(userId, jobs))
    ensures forall k :: k in bucket && k !in Keys(userId, jobs) ==> Put(bucket, userId, jobs)[k] == bucket[k]
  {
    hide FileKey;
    if jobs != [] {
      var n := |jobs| - 1;
      PutKeys(bucket, userId, jobs[..n]);
      var before, keys := Keys(userId, jobs[..n]), Keys(userId, jobs);
      assert keys == before + [FileKey(userId, jobs[n])];
    }
  }

  /** An object holds the content of the last upload to its key. */
  lemma {:induction false} LastUploadStays(bucket: Bucket, userId: string, jobs: seq<Job>, i: nat)
    requires i < |jobs| && forall j :: i < j < |jobs| ==> Keys(userId, jobs)[j] != Keys(userId, jobs)[i]
    ensures var key := Keys(userId, jobs)[i];
      key in Put(bucket, userId, jobs) && Put(bucket, userId, jobs)[key] == jobs[i].file.content
  {
    var n, keys := |jobs| - 1, Keys(userId, jobs);
    var before := Put(bucket, userId, jobs[..n]);
    assert Put(bucket, userId, jobs) == before[keys[n] := jobs[n].file.content];
    if i < n {
      assert Keys(userId, jobs[..n]) == keys[..n];
      LastUploadStays(bucket, userId, jobs[..n], i);
      assert keys[n] != keys[i];
    }
  }

  lemma {:induction false} RollbackRemovesReachable(bucket: Bucket, userId: string, keys: seq<string>, reachable: string -> bool)
    requires forall k :: k in keys ==> Owns(userId, k)
    ensures Rollback(bucket, userId, keys, reachable) == bucket - (set k | k in keys && reachable(k))
  {
    if keys != [] {
      var n := |keys| - 1;
      RollbackRemovesReachable(bucket, userId, keys[..n], reachable);
      assert keys == keys[..n] + [keys[n]];
    }
  }

  /** No delete of the rollback fails the ownership check. */
  lemma UploadedKeysAreOwned(userId: string, jobs: seq<Job>)
    ensures forall k :: k in Keys(userId, jobs) ==> Owns(userId, k)
  {
    forall i | 0 <= i < |jobs| ensures Owns(userId, Keys(userId, jobs)[i]) {
      OwnKeys(userId, jobs[i]);
    }
  }

  /** The bucket after uploading a list and rolling it back. */
  function Undone(bucket: Bucket, userId: string, jobs: seq<Job>, reachable: string -> bool): Bucket {
    Rollback(Put(bucket, userId, jobs), userId, Keys(userId, jobs), reachable)
  }

  /**
   * With every delete reaching the storage, the rollback leaves what was there before, except under
   * the keys that were uploaded.
   */
  lemma RollbackLeaves(bucket: Bucket, userId: string, jobs: seq<Job>, reachable: string -> bool)
    requires forall k :: k in Keys(userId, jobs) ==> reachable(k)
    ensures Undone(bucket, userId, jobs, reachable) == bucket - Elements(Keys(userId, jobs))
  {
    var keys := Keys(userId, jobs);
    UploadedKeysAreOwned(userId, jobs);
    RollbackRemovesReachable(Put(bucket, userId, jobs), userId, keys, reachable);
    PutKeys(bucket, userId, jobs);
    assert (set k | k in keys && reachable(k)) == Elements(keys);
  }

  /**
   * The bucket is restored exactly when no upload went to a key that was in use: file names repeat,
   * and an object that an upload replaced is deleted by the rollback.
   */
  lemma RollbackRestoresIff(bucket: Bucket, userId: string, jobs: seq<Job>, reachable: string -> bool)
    requires forall k :: k in Keys(userId, jobs) ==> reachable(k)
    ensures Undone(bucket, userId, jobs, reachable) == bucket
        <==> forall i :: 0 <= i < |jobs| ==> FileKey(userId, jobs[i]) !in bucket
  {
    var keys := Keys(userId, jobs);
    RollbackLeaves(bucket, userId, jobs, reachable);
    if forall i :: 0 <= i < |jobs| ==> FileKey(userId, jobs[i]) !in bucket {
      forall k | k in keys ensures k !in bucket {
      }
      assert bucket - Elements(keys) == bucket;
    } else {
      var i :| 0 <= i < |jobs| && FileKey(userId, jobs[i]) in bucket;
      assert keys[i] in Elements(keys);
      assert FileKey(userId, jobs[i]) !in bucket - Elements(keys);
    }
  }

  /** Keys of deletes that do not reach the storage keep the uploaded content. */
  lemma UnreachableStays(bucket: Bucket, userId: string, jobs: seq<Job>, reachable: string -> bool, key: string)
    requires key in Keys(userId, jobs) && !reachable(key)
    ensures var after := Undone(bucket, userId, jobs, reachable);
      key in after && key in Put(bucket, userId, jobs) && after[key] == Put(bucket, userId, jobs)[key]
  {
    UploadedKeysAreOwned(userId, jobs);
    RollbackRemovesReachable(Put(bucket, userId, jobs), userId, Keys(userId, jobs), reachable);
    PutKeys(bucket, userId, jobs);
  }

  lemma PutOneMore(bucket: Bucket, userId: string, jobs: seq<Job>, i: nat)
    requires i < |jobs|
    ensures Put(bucket, userId, jobs[..i + 1])
         == Put(bucket, userId, jobs[..i])[FileKey(userId, jobs[i]) := jobs[i].file.content]
    ensures Keys(userId, jobs[..i + 1]) == Keys(userId, jobs[..i]) + [FileKey(userId, jobs[i])]
  {
    hide FileKey, Acceptable;
    assert jobs[..i + 1][..i] == jobs[..i];
  }

  /** The two lists of uploads keep their keys apart. */
  lemma KeysOfConcat(userId: string, a: seq<Job>, b: seq<Job>)
    ensures Keys(userId, a + b) == Keys(userId, a) + Keys(userId, b)
  {
    hide FileKey;
  }

  /** With unused keys and working deletes, the bucket is restored whichever upload fails. */
  lemma FailedSagaRestores(bucket: Bucket, userId: string, jobs: seq<Job>, network: nat -> bool, reachable: string -> bool)
    requires forall i :: 0 <= i < |jobs| ==> FileKey(userId, jobs[i]) !in bucket && reachable(FileKey(userId, jobs[i]))
    ensures Undone(bucket, userId, jobs[..DoneFrom(jobs, network, 0)], reachable) == bucket
  {
    hide FileKey, Acceptable;
    var done := jobs[..DoneFrom(jobs, network, 0)];
    assert forall i :: 0 <= i < |done| ==> Keys(userId, done)[i] == FileKey(userId, jobs[i]);
    RollbackRestoresIff(bucket, userId, done, reachable);
  }

  /** Where the files of a post go. */
  lemma KeysOfFiles(userId: string, files: seq<File>, i: nat)
    requires i < |files|
    ensures |Keys(userId, MediaJobs(files))| == |files| == |Keys(userId, DocumentJobs(files))|
    ensures Keys(userId, MediaJobs(files))[i] == userId + "/media/post/" + StoredName(files[i])
    ensures Keys(userId, DocumentJobs(files))[i] == userId + "/documents/" + StoredName(files[i])
    ensures MediaJobs(files)[i].file == files[i] && DocumentJobs(files)[i].file == files[i]
  {
    PostFileKeys(userId, files[i]);
    hide FileKey, StoredName;
  }
}

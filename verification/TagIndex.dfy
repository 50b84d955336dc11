/** The tag-indexed cache kept by `cacheSet` and `invalidateByTags`. */
module TagIndex {
  import opened Basics
  import opened KeyBuilder
  import opened RedisModel

  // ---------- the two operations ----------

  /** One round of the loop over the tags. */
  function AddTag(st: Store, prefix: string, key: string, ttl: nat, tag: string): Store {
    var added := Sadd(st, TagKey(prefix, tag), key);
    if ttl > 0 then Expire(added, TagKey(prefix, tag), ttl) else added
  }

  function AddTags(st: Store, prefix: string, key: string, ttl: nat, tags: seq<string>): Store {
    if tags == [] then st
    else AddTag(AddTags(st, prefix, key, ttl, tags[..|tags| - 1]), prefix, key, ttl, tags[|tags| - 1])
  }

  function CacheSet(st: Store, prefix: string, key: string, value: Value, ttl: nat, tags: seq<string>): Store {
    var stored := Set(st, key, value, ttl);
    if tags == [] then stored
    else AddTags(Set(stored, MetaKey(prefix, key), Strs(tags), ttl), prefix, key, ttl, tags)
  }

  function MetaKeys(prefix: string, keys: set<string>): set<string> {
    set key | key in keys :: MetaKey(prefix, key)
  }

  /** One round of the loop over the tags. */
  function InvalidateTag(st: Store, prefix: string, tag: string): Store {
    var keys := Smembers(st, TagKey(prefix, tag));
    if keys == {} then st
    else Del(Del(Del(st, keys), MetaKeys(prefix, keys)), {TagKey(prefix, tag)})
  }

  function Invalidate(st: Store, prefix: string, tags: seq<string>): Store {
    if tags == [] then st
    else InvalidateTag(Invalidate(st, prefix, tags[..|tags| - 1]), prefix, tags[|tags| - 1])
  }

  // ---------- what a well-kept store looks like ----------

  /** Tag keys hold sets of data keys. */
  ghost predicate WellTyped(st: Store, prefix: string) {
    forall tag :: Live(st, TagKey(prefix, tag)) ==>
      && st.db[TagKey(prefix, tag)].value.Members?
      && forall key :: key in st.db[TagKey(prefix, tag)].value.elems ==> IsDataKey(prefix, key)
  }

  /** `key` is listed under `tag` for at least as long as it is cached. */
  predicate Indexed(st: Store, prefix: string, key: string, tag: string)
    requires key in st.db
  {
    && Live(st, TagKey(prefix, tag))
    && key in Smembers(st, TagKey(prefix, tag))
    && NoLaterThan(st.db[key].expiry, st.db[TagKey(prefix, tag)].expiry)
  }

  /**
   * Completeness: every live entry is listed under each tag of its latest `cacheSet`.
   * `tagsOf` records those tags.
   */
  ghost predicate Complete(st: Store, prefix: string, tagsOf: map<string, set<string>>) {
    && (forall key :: key in tagsOf ==> IsDataKey(prefix, key))
    && forall key, tag :: key in tagsOf && Live(st, key) && tag in tagsOf[key] ==> Indexed(st, prefix, key, tag)
  }

  /** Soundness: only keys that were once put under a tag are listed there. */
  ghost predicate Sound(st: Store, prefix: string, ever: set<(string, string)>) {
    forall tag, key :: key in Smembers(st, TagKey(prefix, tag)) ==> (key, tag) in ever
  }

  // ---------- the effect of `cacheSet`, key by key ----------

  /** How long a tag's set lives once a key was added to it. */
  function TagExpiry(st: Store, tagKey: string, ttl: nat): Option<int> {
    if ttl > 0 then Some(st.now + ttl)
    else if Live(st, tagKey) then st.db[tagKey].expiry
    else None
  }

  predicate SameEntry(st: Store, after: Store, key: string) {
    && after.now == st.now
    && (key in after.db <==> key in st.db)
    && (key in st.db ==> after.db[key] == st.db[key])
  }

  predicate Added(st: Store, after: Store, tagKey: string, key: string, ttl: nat) {
    && after.now == st.now
    && tagKey in after.db
    && after.db[tagKey] == Entry(Members(Smembers(st, tagKey) + {key}), TagExpiry(st, tagKey, ttl))
  }

  lemma AddTagEffect(st: Store, prefix: string, key: string, ttl: nat, tag: string)
    requires Live(st, TagKey(prefix, tag)) ==> st.db[TagKey(prefix, tag)].value.Members?
    ensures var after := AddTag(st, prefix, key, ttl, tag);
      && after.now == st.now
      && Added(st, after, TagKey(prefix, tag), key, ttl)
      && forall other :: other != TagKey(prefix, tag) ==> SameEntry(st, after, other)
  {
    var tagKey := TagKey(prefix, tag);
    if !Live(st, tagKey) {
      assert Smembers(st, tagKey) + {key} == {key};
    }
  }

  /** What `cacheSet` does to the set of each tag: nothing, or add the key and extend its life. */
  lemma {:induction false} AddTagsEffect(st: Store, prefix: string, key: string, ttl: nat, tags: seq<string>)
    requires WellTyped(st, prefix)
    ensures var after := AddTags(st, prefix, key, ttl, tags);
      && after.now == st.now
      && (forall other {:trigger SameEntry(st, after, other)} ::
            (forall tag :: tag in tags ==> other != TagKey(prefix, tag)) ==> SameEntry(st, after, other))
      && (forall tag :: tag in tags ==> Added(st, after, TagKey(prefix, tag), key, ttl))
  {
    if tags != [] {
      var n := |tags| - 1;
      var before, last := AddTags(st, prefix, key, ttl, tags[..n]), tags[n];
      var after := AddTags(st, prefix, key, ttl, tags);
      AddTagsEffect(st, prefix, key, ttl, tags[..n]);
      assert tags == tags[..n] + [last];
      var lastKey := TagKey(prefix, last);
      if last !in tags[..n] {
        forall tag | tag in tags[..n] ensures lastKey != TagKey(prefix, tag) {
          TagKeysApart(prefix, last, tag);
        }
        assert SameEntry(st, before, lastKey);
      }
      AddTagEffect(before, prefix, key, ttl, last);
      forall tag | tag in tags ensures Added(st, after, TagKey(prefix, tag), key, ttl) {
        if tag == last {
        } else {
          TagKeysApart(prefix, last, tag);
          assert SameEntry(before, after, TagKey(prefix, tag));
        }
      }
      forall other | forall tag :: tag in tags ==> other != TagKey(prefix, tag)
        ensures SameEntry(st, after, other)
      {
        assert forall tag :: tag in tags[..n] ==> tag in tags;
        assert SameEntry(st, before, other);
        assert SameEntry(before, after, other);
      }
    }
  }

  lemma CacheSetEffect(st: Store, prefix: string, key: string, value: Value, ttl: nat, tags: seq<string>)
    requires WellTyped(st, prefix) && IsDataKey(prefix, key)
    ensures var after := CacheSet(st, prefix, key, value, ttl, tags);
      && after.now == st.now
      && key in after.db && after.db[key] == Entry(value, ExpiryFor(st.now, ttl))
      && (forall other {:trigger SameEntry(st, after, other)} ::
            IsDataKey(prefix, other) && other != key ==> SameEntry(st, after, other))
      && (forall tag :: tag in tags ==> Added(st, after, TagKey(prefix, tag), key, ttl))
      && (forall tag :: tag !in tags ==> SameEntry(st, after, TagKey(prefix, tag)))
  {
    NamespacesApart(prefix);
    hide IsDataKey, TagKey, MetaKey;
    if tags != [] {
      var before := Set(Set(st, key, value, ttl), MetaKey(prefix, key), Strs(tags), ttl);
      assert forall tag :: SameEntry(st, before, TagKey(prefix, tag));
      AddTagsEffect(before, prefix, key, ttl, tags);
      var after := CacheSet(st, prefix, key, value, ttl, tags);
      assert after == AddTags(before, prefix, key, ttl, tags);
      assert SameEntry(before, after, key);
      forall other | IsDataKey(prefix, other) && other != key
        ensures SameEntry(st, after, other)
      {
        assert SameEntry(before, after, other);
      }
      forall tag | tag !in tags ensures SameEntry(st, after, TagKey(prefix, tag)) {
        assert SameEntry(before, after, TagKey(prefix, tag));
      }
    }
  }

  /** The tag list stored beside an entry: written by `cacheSet` with the entry's lifetime. */
  lemma CacheSetRecordsTags(st: Store, prefix: string, key: string, value: Value, ttl: nat, tags: seq<string>)
    requires WellTyped(st, prefix) && IsDataKey(prefix, key) && tags != []
    ensures var after := CacheSet(st, prefix, key, value, ttl, tags);
      && Get(after, MetaKey(prefix, key)) == Some(Strs(tags))
      && key in after.db && after.db[MetaKey(prefix, key)].expiry == after.db[key].expiry
  {
    NamespacesApart(prefix);
    var before := Set(Set(st, key, value, ttl), MetaKey(prefix, key), Strs(tags), ttl);
    assert forall tag :: SameEntry(st, before, TagKey(prefix, tag));
    AddTagsEffect(before, prefix, key, ttl, tags);
    var after := CacheSet(st, prefix, key, value, ttl, tags);
    assert after == AddTags(before, prefix, key, ttl, tags);
    assert SameEntry(before, after, key) && SameEntry(before, after, MetaKey(prefix, key));
  }

  lemma CacheSetWellTyped(st: Store, prefix: string, key: string, value: Value, ttl: nat, tags: seq<string>)
    requires WellTyped(st, prefix) && IsDataKey(prefix, key)
    ensures WellTyped(CacheSet(st, prefix, key, value, ttl, tags), prefix)
  {
    var after := CacheSet(st, prefix, key, value, ttl, tags);
    CacheSetEffect(st, prefix, key, value, ttl, tags);
    forall tag | Live(after, TagKey(prefix, tag))
      ensures after.db[TagKey(prefix, tag)].value.Members?
      ensures forall k :: k in after.db[TagKey(prefix, tag)].value.elems ==> IsDataKey(prefix, k)
    {
      if tag in tags {
        assert Added(st, after, TagKey(prefix, tag), key, ttl);
      } else {
        assert SameEntry(st, after, TagKey(prefix, tag));
      }
    }
  }

  // ---------- when `cacheSet` keeps the index complete ----------

  /**
   * What a caller can check before `cacheSet`: the tag sets it shortens (or, without a lifetime,
   * leaves expiring) still outlive the entries that other calls listed in them.
   */
  ghost predicate TtlFits(st: Store, prefix: string, tagsOf: map<string, set<string>>, key: string, ttl: nat, tags: seq<string>) {
    if ttl > 0 then
      forall other, tag :: other != key && other in tagsOf && Live(st, other) && tag in tagsOf[other] && tag in tags ==>
        NoLaterThan(st.db[other].expiry, Some(st.now + ttl))
    else
      forall tag :: tag in tags && Live(st, TagKey(prefix, tag)) ==> st.db[TagKey(prefix, tag)].expiry == None
  }

  /** Exactly then does `cacheSet` keep every live entry reachable from its tags. */
  lemma CacheSetKeepsIndexIff(st: Store, prefix: string, tagsOf: map<string, set<string>>,
                              key: string, value: Value, ttl: nat, tags: seq<string>)
    requires WellTyped(st, prefix) && Complete(st, prefix, tagsOf) && IsDataKey(prefix, key)
    ensures Complete(CacheSet(st, prefix, key, value, ttl, tags), prefix, tagsOf[key := Elements(tags)])
       <==> TtlFits(st, prefix, tagsOf, key, ttl, tags)
  {
    var after := CacheSet(st, prefix, key, value, ttl, tags);
    var tagsOf' := tagsOf[key := Elements(tags)];
    CacheSetEffect(st, prefix, key, value, ttl, tags);
    if TtlFits(st, prefix, tagsOf, key, ttl, tags) {
      forall k, tag | k in tagsOf' && Live(after, k) && tag in tagsOf'[k]
        ensures Indexed(after, prefix, k, tag)
      {
        if k != key {
          assert SameEntry(st, after, k);
          assert Indexed(st, prefix, k, tag);
        }
        if tag in tags {
          assert Added(st, after, TagKey(prefix, tag), key, ttl);
        } else {
          assert SameEntry(st, after, TagKey(prefix, tag));
        }
      }
    } else if ttl > 0 {
      var k, tag :| k != key && k in tagsOf && Live(st, k) && tag in tagsOf[k] && tag in tags
                 && !NoLaterThan(st.db[k].expiry, Some(st.now + ttl));
      assert SameEntry(st, after, k);
      assert Added(st, after, TagKey(prefix, tag), key, ttl);
      assert !Indexed(after, prefix, k, tag);
    } else {
      var tag :| tag in tags && Live(st, TagKey(prefix, tag)) && st.db[TagKey(prefix, tag)].expiry != None;
      assert Added(st, after, TagKey(prefix, tag), key, ttl);
      assert !Indexed(after, prefix, key, tag);
    }
  }

  // ---------- the effect of `invalidateByTags`, key by key ----------

  lemma InvalidateTagEffect(st: Store, prefix: string, tag: string)
    requires WellTyped(st, prefix)
    ensures var after := InvalidateTag(st, prefix, tag);
      && after.now == st.now
      && WellTyped(after, prefix)
      && Smembers(after, TagKey(prefix, tag)) == {}
      && (forall other {:trigger SameEntry(st, after, TagKey(prefix, other))} ::
            other != tag ==> SameEntry(st, after, TagKey(prefix, other)))
      && (forall key {:trigger SameEntry(st, after, key)} ::
            IsDataKey(prefix, key) && key !in Smembers(st, TagKey(prefix, tag)) ==> SameEntry(st, after, key))
      && (forall key :: key in Smembers(st, TagKey(prefix, tag)) ==> key !in after.db)
  {
    NamespacesApart(prefix);
    var keys := Smembers(st, TagKey(prefix, tag));
    var after := InvalidateTag(st, prefix, tag);
    forall other | other != tag ensures SameEntry(st, after, TagKey(prefix, other)) {
      assert TagKey(prefix, other) !in keys;
    }
    forall other | Live(after, TagKey(prefix, other))
      ensures after.db[TagKey(prefix, other)].value.Members?
      ensures forall key :: key in after.db[TagKey(prefix, other)].value.elems ==> IsDataKey(prefix, key)
    {
      assert Live(st, TagKey(prefix, other));
    }
  }

  lemma {:induction false} InvalidateEffect(st: Store, prefix: string, tags: seq<string>)
    requires WellTyped(st, prefix)
    ensures var after := Invalidate(st, prefix, tags);
      && after.now == st.now
      && WellTyped(after, prefix)
      && (forall tag :: tag in tags ==> Smembers(after, TagKey(prefix, tag)) == {})
      && (forall tag {:trigger SameEntry(st, after, TagKey(prefix, tag))} ::
            tag !in tags ==> SameEntry(st, after, TagKey(prefix, tag)))
      && (forall key {:trigger SameEntry(st, after, key)} ::
            IsDataKey(prefix, key) && (forall tag :: tag in tags ==> key !in Smembers(st, TagKey(prefix, tag)))
            ==> SameEntry(st, after, key))
      && (forall key, tag :: tag in tags && key in Smembers(st, TagKey(prefix, tag)) ==> key !in after.db)
  {
    if tags != [] {
      var n := |tags| - 1;
      var before, last := Invalidate(st, prefix, tags[..n]), tags[n];
      var after := Invalidate(st, prefix, tags);
      assert tags == tags[..n] + [last];
      InvalidateEffect(st, prefix, tags[..n]);
      InvalidateTagEffect(before, prefix, last);
      forall tag | tag !in tags ensures SameEntry(st, after, TagKey(prefix, tag)) {
        assert SameEntry(st, before, TagKey(prefix, tag));
        assert SameEntry(before, after, TagKey(prefix, tag));
      }
      assert forall tag :: tag in tags[..n] ==> tag in tags;
      assert last !in tags[..n] ==> SameEntry(st, before, TagKey(prefix, last));
      forall key | IsDataKey(prefix, key) && (forall tag :: tag in tags ==> key !in Smembers(st, TagKey(prefix, tag)))
        ensures SameEntry(st, after, key)
      {
        assert SameEntry(st, before, key);
        assert SameEntry(before, after, key);
      }
      forall key, tag | tag in tags && key in Smembers(st, TagKey(prefix, tag)) ensures key !in after.db {
        assert IsDataKey(prefix, key);
        if key !in before.db {
          if key !in Smembers(before, TagKey(prefix, last)) {
            assert SameEntry(before, after, key);
          }
        } else {
          assert tag == last && last !in tags[..n];
        }
      }
      forall tag | tag in tags ensures Smembers(after, TagKey(prefix, tag)) == {} {
        if tag != last {
          assert SameEntry(before, after, TagKey(prefix, tag));
        }
      }
    }
  }

  /** Exactly the entries listed under one of the tags go; the others keep value and lifetime. */
  lemma InvalidateIsExact(st: Store, prefix: string, tags: seq<string>, key: string)
    requires WellTyped(st, prefix) && IsDataKey(prefix, key)
    ensures var after := Invalidate(st, prefix, tags);
      && (Live(after, key) <==> Live(st, key) && forall tag :: tag in tags ==> key !in Smembers(st, TagKey(prefix, tag)))
      && (Live(after, key) ==> after.db[key] == st.db[key])
  {
    InvalidateEffect(st, prefix, tags);
    if forall tag :: tag in tags ==> key !in Smembers(st, TagKey(prefix, tag)) {
      assert SameEntry(st, Invalidate(st, prefix, tags), key);
    }
  }

  /** ... and removed with every entry that is listed under one of the invalidated tags. */
  lemma {:induction false} InvalidateDropsTagLists(st: Store, prefix: string, tags: seq<string>, tag: string, key: string)
    requires WellTyped(st, prefix) && tag in tags && key in Smembers(st, TagKey(prefix, tag))
    ensures MetaKey(prefix, key) !in Invalidate(st, prefix, tags).db
  {
    NamespacesApart(prefix);
    var n := |tags| - 1;
    var before, last := Invalidate(st, prefix, tags[..n]), tags[n];
    InvalidateEffect(st, prefix, tags[..n]);
    if tag in tags[..n] {
      InvalidateDropsTagLists(st, prefix, tags[..n], tag, key);
    } else {
      assert tag == last;
      assert SameEntry(st, before, TagKey(prefix, last));
      assert MetaKey(prefix, key) in MetaKeys(prefix, Smembers(before, TagKey(prefix, last)));
    }
  }

  lemma InvalidateKeepsIndex(st: Store, prefix: string, tags: seq<string>, tagsOf: map<string, set<string>>,
                             ever: set<(string, string)>)
    requires WellTyped(st, prefix) && Complete(st, prefix, tagsOf) && Sound(st, prefix, ever)
    ensures var after := Invalidate(st, prefix, tags);
      WellTyped(after, prefix) && Complete(after, prefix, tagsOf) && Sound(after, prefix, ever)
  {
    var after := Invalidate(st, prefix, tags);
    InvalidateEffect(st, prefix, tags);
    forall key, tag | key in tagsOf && Live(after, key) && tag in tagsOf[key]
      ensures Indexed(after, prefix, key, tag)
    {
      InvalidateIsExact(st, prefix, tags, key);
      assert Indexed(st, prefix, key, tag);
      assert SameEntry(st, after, TagKey(prefix, tag));
    }
    forall tag, key | key in Smembers(after, TagKey(prefix, tag)) ensures (key, tag) in ever {
      assert SameEntry(st, after, TagKey(prefix, tag));
    }
  }

  // ---------- the number `invalidateByTags` returns ----------

  function Deleted(st: Store, prefix: string, tags: seq<string>): nat {
    if tags == [] then 0
    else
      var before := Invalidate(st, prefix, tags[..|tags| - 1]);
      Deleted(st, prefix, tags[..|tags| - 1]) + DelCount(before, Smembers(before, TagKey(prefix, tags[|tags| - 1])))
  }

  /** The live entries that a change removed. */
  function Removed(st: Store, after: Store, prefix: string): set<string> {
    set key | key in st.db && IsDataKey(prefix, key) && Live(st, key) && !Live(after, key)
  }

  /** It counts each removed entry once, however many of the tags it carried. */
  lemma {:induction false} DeletedCountsRemovedEntries(st: Store, prefix: string, tags: seq<string>)
    requires WellTyped(st, prefix)
    ensures Deleted(st, prefix, tags) == |Removed(st, Invalidate(st, prefix, tags), prefix)|
  {
    if tags == [] {
      assert Removed(st, st, prefix) == {};
    } else {
      var n := |tags| - 1;
      var before, last := Invalidate(st, prefix, tags[..n]), tags[n];
      var after := Invalidate(st, prefix, tags);
      var keys := Smembers(before, TagKey(prefix, last));
      DeletedCountsRemovedEntries(st, prefix, tags[..n]);
      InvalidateEffect(st, prefix, tags[..n]);
      InvalidateTagEffect(before, prefix, last);
      var gone := set key | key in keys && Live(before, key);
      forall key | key in before.db && IsDataKey(prefix, key) ensures SameEntry(st, before, key) {
        assert forall tag :: tag in tags[..n] ==> key !in Smembers(st, TagKey(prefix, tag));
      }
      forall key | IsDataKey(prefix, key)
        ensures key in Removed(st, after, prefix) <==> key in Removed(st, before, prefix) || key in gone
      {
        if key !in keys {
          assert SameEntry(before, after, key);
        }
      }
      assert Removed(st, after, prefix) == Removed(st, before, prefix) + gone;
      assert Removed(st, before, prefix) !! gone;
    }
  }

  // ---------- whole runs ----------

  datatype Op =
    | Put(key: string, value: Value, ttl: nat, tags: seq<string>)
    | Drop(tags: seq<string>)
    | Remove(key: string)
    | Wait(delay: nat)

  /** The store with the history the theorems speak about. */
  datatype World = World(store: Store, tagsOf: map<string, set<string>>, ever: set<(string, string)>)

  function Step(w: World, prefix: string, op: Op): World {
    match op
    case Put(key, value, ttl, tags) =>
      World(CacheSet(w.store, prefix, key, value, ttl, tags), w.tagsOf[key := Elements(tags)],
            w.ever + set tag | tag in tags :: (key, tag))
    case Drop(tags) => w.(store := Invalidate(w.store, prefix, tags))
    case Remove(key) => w.(store := Del(w.store, {key}))
    case Wait(delay) => w.(store := Tick(w.store, delay))
  }

  function Run(w: World, prefix: string, ops: seq<Op>): World {
    if ops == [] then w else Step(Run(w, prefix, ops[..|ops| - 1]), prefix, ops[|ops| - 1])
  }

  /** Callers name data keys and all use the same positive lifetime. */
  predicate OneTtl(prefix: string, ttl: nat, op: Op) {
    match op
    case Put(key, _, t, _) => IsDataKey(prefix, key) && t == ttl
    case Remove(key) => IsDataKey(prefix, key)
    case _ => true
  }

  ghost predicate Kept(w: World, prefix: string, ttl: nat) {
    && WellTyped(w.store, prefix)
    && Complete(w.store, prefix, w.tagsOf)
    && Sound(w.store, prefix, w.ever)
    && forall key :: key in w.tagsOf && Live(w.store, key) ==>
         NoLaterThan(w.store.db[key].expiry, Some(w.store.now + ttl))
  }

  lemma StepKeeps(w: World, prefix: string, ttl: nat, op: Op)
    requires ttl > 0 && OneTtl(prefix, ttl, op) && Kept(w, prefix, ttl)
    ensures Kept(Step(w, prefix, op), prefix, ttl)
  {
    var st, after := w.store, Step(w, prefix, op).store;
    match op {
      case Put(key, value, t, tags) =>
        CacheSetEffect(st, prefix, key, value, t, tags);
        CacheSetWellTyped(st, prefix, key, value, t, tags);
        CacheSetKeepsIndexIff(st, prefix, w.tagsOf, key, value, t, tags);
        forall tag, k | k in Smembers(after, TagKey(prefix, tag))
          ensures (k, tag) in Step(w, prefix, op).ever
        {
          if tag in tags {
            assert Added(st, after, TagKey(prefix, tag), key, t);
          } else {
            assert SameEntry(st, after, TagKey(prefix, tag));
          }
        }
        forall k | k in w.tagsOf[key := Elements(tags)] && Live(after, k)
          ensures NoLaterThan(after.db[k].expiry, Some(after.now + ttl))
        {
          if k != key { assert SameEntry(st, after, k); }
        }
      case Drop(tags) =>
        InvalidateKeepsIndex(st, prefix, tags, w.tagsOf, w.ever);
        InvalidateEffect(st, prefix, tags);
        forall k | k in w.tagsOf && Live(after, k)
          ensures NoLaterThan(after.db[k].expiry, Some(after.now + ttl))
        {
          InvalidateIsExact(st, prefix, tags, k);
        }
      case Remove(key) =>
        NamespacesApart(prefix);
        assert forall tag :: SameEntry(st, after, TagKey(prefix, tag));
        forall k, tag | k in w.tagsOf && Live(after, k) && tag in w.tagsOf[k] ensures Indexed(after, prefix, k, tag) {
          assert Indexed(st, prefix, k, tag);
        }
      case Wait(delay) =>
        forall k, tag | k in w.tagsOf && Live(after, k) && tag in w.tagsOf[k] ensures Indexed(after, prefix, k, tag) {
          assert Indexed(st, prefix, k, tag);
        }
    }
  }

  lemma {:induction false} RunKeeps(w: World, prefix: string, ttl: nat, ops: seq<Op>)
    requires ttl > 0 && Kept(w, prefix, ttl)
    requires forall i :: 0 <= i < |ops| ==> OneTtl(prefix, ttl, ops[i])
    ensures Kept(Run(w, prefix, ops), prefix, ttl)
  {
    if ops != [] {
      RunKeeps(w, prefix, ttl, ops[..|ops| - 1]);
      StepKeeps(Run(w, prefix, ops[..|ops| - 1]), prefix, ttl, ops[|ops| - 1]);
    }
  }

  function Fresh(now: int): World {
    World(Store(map[], now), map[], {})
  }

  /**
   * After any run with one lifetime, invalidating some tags leaves no live entry whose latest
   * `cacheSet` named one of them, and does not touch an entry that was never put under them.
   */
  lemma InvalidationAfterAnyRun(prefix: string, ttl: nat, now: int, ops: seq<Op>, tags: seq<string>, key: string)
    requires ttl > 0 && IsDataKey(prefix, key)
    requires forall i :: 0 <= i < |ops| ==> OneTtl(prefix, ttl, ops[i])
    ensures var w := Run(Fresh(now), prefix, ops);
      var after := Invalidate(w.store, prefix, tags);
      && (key in w.tagsOf && w.tagsOf[key] * Elements(tags) != {} ==> !Live(after, key))
      && ((forall tag :: tag in tags ==> (key, tag) !in w.ever) ==> SameEntry(w.store, after, key))
  {
    RunKeeps(Fresh(now), prefix, ttl, ops);
    var w := Run(Fresh(now), prefix, ops);
    InvalidateIsExact(w.store, prefix, tags, key);
    InvalidateEffect(w.store, prefix, tags);
    if key in w.tagsOf && w.tagsOf[key] * Elements(tags) != {} && Live(w.store, key) {
      var tag :| tag in w.tagsOf[key] * Elements(tags);
      assert Indexed(w.store, prefix, key, tag);
    }
  }

  /** With two lifetimes the index can forget an entry: the shorter one takes the tag's set along. */
  lemma MixedLifetimesLoseEntries(prefix: string, a: string, b: string, v: Value, long: nat, short: nat, delay: nat)
    requires IsDataKey(prefix, a) && IsDataKey(prefix, b) && a != b && 0 < short <= delay < long
    ensures var w2 := Step(Step(Fresh(0), prefix, Put(a, v, long, ["t"])), prefix, Put(b, v, short, ["t"]));
      var w := Step(w2, prefix, Wait(delay));
      && a in w.tagsOf && w.tagsOf[a] == {"t"}
      && Live(Step(w, prefix, Drop(["t"])).store, a)
  {
    var w0 := Fresh(0);
    var w1 := Step(w0, prefix, Put(a, v, long, ["t"]));
    var w2 := Step(w1, prefix, Put(b, v, short, ["t"]));
    var w := Step(w2, prefix, Wait(delay));
    CacheSetEffect(w0.store, prefix, a, v, long, ["t"]);
    CacheSetWellTyped(w0.store, prefix, a, v, long, ["t"]);
    CacheSetEffect(w1.store, prefix, b, v, short, ["t"]);
    CacheSetWellTyped(w1.store, prefix, b, v, short, ["t"]);
    assert SameEntry(w1.store, w2.store, a);
    assert Added(w1.store, w2.store, TagKey(prefix, "t"), b, short);
    assert !Live(w.store, TagKey(prefix, "t"));
    assert Invalidate(w.store, prefix, ["t"]) == w.store by {
      assert ["t"][..0] == [];
      assert Invalidate(w.store, prefix, []) == w.store;
    }
  }
}

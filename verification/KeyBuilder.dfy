/** The names under which the services store data in Redis. */
module KeyBuilder {
  import opened Basics

  /** JavaScript's `parts.join(':')`. */
  function Join(parts: seq<string>): string {
    if |parts| == 0 then ""
    else if |parts| == 1 then parts[0]
    else parts[0] + ":" + Join(parts[1..])
  }

  function Defined(parts: seq<Option<string>>): seq<string> {
    if parts == [] then []
    else (if parts[0].Some? then [parts[0].value] else []) + Defined(parts[1..])
  }

  /** Missing parts are dropped before joining. */
  function Build(prefix: string, parts: seq<Option<string>>): string {
    prefix + ":" + Join(Defined(parts))
  }

  function TagKey(prefix: string, tag: string): string {
    prefix + ":tag:" + tag
  }

  function MetaKey(prefix: string, key: string): string {
    prefix + ":cache:tags:" + key
  }

  function LockKey(prefix: string, resource: string): string {
    prefix + ":lock:" + resource
  }

  function RateLimitKey(prefix: string, identifier: string, action: string): string {
    prefix + ":ratelimit:" + identifier + ":" + action
  }

  function UserCacheKey(prefix: string, lookup: string, identifier: string): string {
    prefix + ":cache:user:" + lookup + ":" + identifier
  }

  /** A name outside the two namespaces that the tag index keeps for itself. */
  predicate IsDataKey(prefix: string, key: string) {
    !(prefix + ":tag:" <= key) && !(prefix + ":cache:tags:" <= key)
  }

  predicate ColonFree(s: string) {
    ':' !in s
  }

  // ---------- `build` produces the short forms above ----------

  lemma BuildCons(prefix: string, part: string, rest: seq<Option<string>>)
    ensures Defined([Some(part)] + rest) == [part] + Defined(rest)
    ensures Build(prefix, [Some(part)] + rest)
         == if Defined(rest) == [] then prefix + ":" + part else prefix + ":" + part + ":" + Join(Defined(rest))
  {
    assert ([Some(part)] + rest)[1..] == rest;
    assert ([part] + Defined(rest))[1..] == Defined(rest);
    if Defined(rest) != [] {
      assert prefix + ":" + (part + ":" + Join(Defined(rest))) == prefix + ":" + part + ":" + Join(Defined(rest));
    }
  }

  lemma BuildOne(prefix: string, namespace: string, a: string, missing: seq<Option<string>>)
    requires Defined(missing) == []
    ensures Build(prefix, [Some(namespace)] + ([Some(a)] + missing)) == prefix + ":" + namespace + ":" + a
  {
    BuildCons(prefix, a, missing);
    BuildCons(prefix, namespace, [Some(a)] + missing);
  }

  lemma BuildTwo(prefix: string, namespace: string, a: string, b: string)
    ensures Build(prefix, [Some(namespace)] + ([Some(a)] + [Some(b)])) == prefix + ":" + namespace + ":" + a + ":" + b
  {
    BuildCons(prefix, b, []);
    BuildCons(prefix, a, [Some(b)]);
    BuildCons(prefix, namespace, [Some(a)] + [Some(b)]);
    assert [Some(b)] + [] == [Some(b)];
    assert ([a] + [b])[1..] == [b];
    assert prefix + ":" + namespace + ":" + (a + ":" + b) == prefix + ":" + namespace + ":" + a + ":" + b;
  }

  lemma BuildThree(prefix: string, namespace: string, a: string, b: string, c: string)
    ensures Build(prefix, [Some(namespace)] + ([Some(a)] + ([Some(b)] + [Some(c)])))
         == prefix + ":" + namespace + ":" + a + ":" + b + ":" + c
  {
    BuildTwo(prefix, a, b, c);
    BuildCons(prefix, namespace, [Some(a)] + ([Some(b)] + [Some(c)]));
    var inner := Join(Defined([Some(a)] + ([Some(b)] + [Some(c)])));
    assert prefix + ":" + inner == prefix + ":" + a + ":" + b + ":" + c;
    assert inner == (prefix + ":" + inner)[|prefix| + 1..] == a + ":" + b + ":" + c;
    assert prefix + ":" + namespace + ":" + (a + ":" + b + ":" + c) == prefix + ":" + namespace + ":" + a + ":" + b + ":" + c;
  }

  /** So the cache keys of users have the short form used here. */
  lemma UserCacheKeyIsBuilt(prefix: string, lookup: string, identifier: string)
    ensures UserCacheKey(prefix, lookup, identifier)
         == Build(prefix, [Some("cache")] + ([Some("user")] + ([Some(lookup)] + [Some(identifier)])))
  {
    BuildThree(prefix, "cache", "user", lookup, identifier);
    assert prefix + ":cache:user:" == prefix + ":" + "cache" + ":" + "user" + ":";
  }

  /** ... and so have the keys of tags, tag lists, locks and counters. */
  lemma ShortKeysAreBuilt(prefix: string, tag: string, key: string, resource: string, identifier: string, action: string)
    ensures TagKey(prefix, tag) == Build(prefix, [Some("tag")] + ([Some(tag)] + []))
    ensures MetaKey(prefix, key) == Build(prefix, [Some("cache:tags")] + ([Some(key)] + []))
    ensures LockKey(prefix, resource) == Build(prefix, [Some("lock")] + ([Some(resource)] + [None]))
    ensures RateLimitKey(prefix, identifier, action)
         == Build(prefix, [Some("ratelimit")] + ([Some(identifier)] + [Some(action)]))
  {
    BuildOne(prefix, "tag", tag, []);
    BuildOne(prefix, "cache:tags", key, []);
    var missing: seq<Option<string>> := [None];
    assert missing[1..] == [];
    BuildOne(prefix, "lock", resource, missing);
    BuildTwo(prefix, "ratelimit", identifier, action);
    assert prefix + ":tag:" == prefix + ":" + "tag" + ":";
    assert prefix + ":cache:tags:" == prefix + ":" + "cache:tags" + ":";
    assert prefix + ":lock:" == prefix + ":" + "lock" + ":";
    assert prefix + ":ratelimit:" == prefix + ":" + "ratelimit" + ":";
  }

  // ---------- the namespaces do not meet ----------

  lemma TagKeysApart(prefix: string, a: string, b: string)
    ensures TagKey(prefix, a) == TagKey(prefix, b) <==> a == b
    ensures TagKey(prefix, a) != MetaKey(prefix, b)
    ensures MetaKey(prefix, a) == MetaKey(prefix, b) <==> a == b
    ensures IsDataKey(prefix, a) ==> a != TagKey(prefix, b) && a != MetaKey(prefix, b)
  {
    var n := |prefix|;
    assert TagKey(prefix, a)[n + 5..] == a && TagKey(prefix, b)[n + 5..] == b;
    assert MetaKey(prefix, a)[n + 12..] == a && MetaKey(prefix, b)[n + 12..] == b;
    assert TagKey(prefix, a)[n + 1] == 't' && MetaKey(prefix, b)[n + 1] == 'c';
    assert prefix + ":tag:" <= TagKey(prefix, b) && prefix + ":cache:tags:" <= MetaKey(prefix, b);
  }

  /** The lemma above for all names at once. */
  lemma NamespacesApart(prefix: string)
    ensures forall a, b :: TagKey(prefix, a) == TagKey(prefix, b) <==> a == b
    ensures forall a, b :: TagKey(prefix, a) != MetaKey(prefix, b)
    ensures forall a, b :: MetaKey(prefix, a) == MetaKey(prefix, b) <==> a == b
    ensures forall a, b {:trigger IsDataKey(prefix, a), TagKey(prefix, b)} :: IsDataKey(prefix, a) ==> a != TagKey(prefix, b)
    ensures forall a, b {:trigger IsDataKey(prefix, a), MetaKey(prefix, b)} :: IsDataKey(prefix, a) ==> a != MetaKey(prefix, b)
  {
    forall a, b
      ensures TagKey(prefix, a) == TagKey(prefix, b) <==> a == b
      ensures TagKey(prefix, a) != MetaKey(prefix, b)
      ensures MetaKey(prefix, a) == MetaKey(prefix, b) <==> a == b
      ensures IsDataKey(prefix, a) ==> a != TagKey(prefix, b) && a != MetaKey(prefix, b)
    {
      TagKeysApart(prefix, a, b);
    }
  }

  /** Locks, rate-limit counters and cached users are stored outside the index's namespaces. */
  lemma BuiltKeysAreDataKeys(prefix: string, a: string, b: string)
    ensures IsDataKey(prefix, LockKey(prefix, a))
    ensures IsDataKey(prefix, RateLimitKey(prefix, a, b))
    ensures IsDataKey(prefix, UserCacheKey(prefix, a, b))
  {
    var n := |prefix|;
    assert (prefix + ":tag:")[n + 1] == 't' && (prefix + ":cache:tags:")[n + 7] == 't';
    assert LockKey(prefix, a)[n + 1] == 'l';
    assert RateLimitKey(prefix, a, b)[n + 1] == 'r';
    assert UserCacheKey(prefix, a, b)[n + 1] == 'c' && UserCacheKey(prefix, a, b)[n + 7] == 'u';
  }

  /** A name whose first segment is not the configured prefix, or whose second one is neither namespace. */
  lemma ForeignKeyIsDataKey(prefix: string, first: string, second: string, rest: string)
    requires ColonFree(prefix) && ColonFree(first) && ColonFree(second)
    requires second != "tag" && second != "cache"
    ensures IsDataKey(prefix, first + ":" + second + ":" + rest)
  {
    var key := first + ":" + second + ":" + rest;
    if prefix + ":tag:" <= key {
      SegmentsAgree(prefix, "tag", first, second, rest);
    }
    if prefix + ":cache:tags:" <= key {
      assert prefix + ":" + "cache" + ":" <= prefix + ":cache:tags:";
      SegmentsAgree(prefix, "cache", first, second, rest);
    }
  }

  lemma SegmentsAgree(p: string, q: string, first: string, second: string, rest: string)
    requires ColonFree(p) && ColonFree(q) && ColonFree(first) && ColonFree(second)
    requires p + ":" + q + ":" <= first + ":" + second + ":" + rest
    ensures p == first && q == second
  {
    var s, t := p + ":" + q + ":", first + ":" + second + ":" + rest;
    assert forall i :: 0 <= i < |s| ==> s[i] == t[i];
    assert s[|p|] == ':' && t[|first|] == ':';
    assert forall i :: 0 <= i < |p| ==> s[i] == p[i];
    assert forall i :: 0 <= i < |first| ==> t[i] == first[i];
    assert |p| == |first|;
    assert p == s[..|p|] == t[..|p|] == first;
    var m := |p| + 1;
    assert forall i :: 0 <= i < |q| ==> s[m + i] == q[i];
    assert forall i :: 0 <= i < |second| ==> t[m + i] == second[i];
    assert s[m + |q|] == ':' && t[m + |second|] == ':';
    assert |q| == |second|;
    assert q == s[m..m + |q|] == t[m..m + |q|] == second;
  }
}

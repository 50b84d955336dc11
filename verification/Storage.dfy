/** File keys, upload rules and post types. */
module Storage {
  import opened Basics

  datatype StorageType = Profile | Media | Documents | Temp | Backups

  function Name(t: StorageType): string {
    match t
    case Profile => "profile"
    case Media => "media"
    case Documents => "documents"
    case Temp => "temp"
    case Backups => "backups"
  }

  const MB := 1024 * 1024

  function MaxFileSize(t: StorageType): int {
    match t
    case Profile => 5 * MB
    case Media => 100 * MB
    case Documents => 50 * MB
    case Temp => 10 * MB
    case Backups => 500 * MB
  }

  /** `["*"]` allows every type. */
  function AllowedMimeTypes(t: StorageType): seq<string> {
    match t
    case Profile => ["image/jpeg", "image/jpg", "image/png", "image/gif", "image/webp", "image/svg+xml"]
    case Media => ["image/jpeg", "image/jpg", "image/png", "image/gif", "image/webp", "video/mp4", "video/webm",
                   "video/quicktime", "audio/mpeg", "audio/mp3", "audio/wav", "audio/ogg"]
    case Documents => ["application/pdf", "application/msword",
                       "application/vnd.openxmlformats-officedocument.wordprocessingml.document",
                       "application/vnd.ms-excel",
                       "application/vnd.openxmlformats-officedocument.spreadsheetml.sheet", "text/plain", "text/csv"]
    case Temp => ["*"]
    case Backups => ["application/zip", "application/x-tar", "application/gzip", "application/x-gzip"]
  }

  const PROFILE_SUB_TYPES := ["avatar", "cover", "offline", "chat"]

  /** `base` and `ext` are the two parts of the original name; `random` replaces an empty base. */
  datatype File = File(base: string, ext: string, random: string, size: int, mimeType: string, content: string)

  /** One call of `uploadFile`; an empty sub-type stands for a missing one. */
  datatype Job = Job(file: File, kind: StorageType, subType: string)

  predicate Acceptable(job: Job) {
    && job.file.size <= MaxFileSize(job.kind)
    && (AllowedMimeTypes(job.kind)[0] == "*" || job.file.mimeType in AllowedMimeTypes(job.kind))
    && (job.kind.Profile? && job.subType != "" ==> job.subType in PROFILE_SUB_TYPES)
  }

  // ---------- file keys ----------

  predicate KeyChar(c: char) {
    'a' <= c <= 'z' || 'A' <= c <= 'Z' || '0' <= c <= '9' || c == '-' || c == '_'
  }

  function Masked(s: string): (r: string)
    ensures |r| == |s|
    ensures forall i :: 0 <= i < |r| ==> KeyChar(r[i])
  {
    if s == "" then "" else [if KeyChar(s[0]) then s[0] else '_'] + Masked(s[1..])
  }

  function StoredName(file: File): string {
    var base := if file.base != "" then file.base else file.random;
    Masked(base)[..Min(|base|, 100)] + file.ext
  }

  /** generateFileKey: user, type, sub-type if any, and name, joined by slashes. */
  function FileKey(userId: string, job: Job): string {
    userId + "/" + Name(job.kind) + "/" + (if job.subType != "" then job.subType + "/" else "") + StoredName(job.file)
  }

  /** A stored name: at most 100 characters of the base, with every other character masked, then the extension. */
  lemma StoredNameIs(file: File)
    ensures var base := if file.base != "" then file.base else file.random;
      var n := Min(|base|, 100);
      && |StoredName(file)| == n + |file.ext|
      && StoredName(file)[n..] == file.ext
      && forall i :: 0 <= i < n ==>
           StoredName(file)[i] ==
             (if 'a' <= base[i] <= 'z' || 'A' <= base[i] <= 'Z' || '0' <= base[i] <= '9' || base[i] == '-' || base[i] == '_'
              then base[i] else '_')
  {
    var base := if file.base != "" then file.base else file.random;
    forall i | 0 <= i < |base| ensures Masked(base)[i] == if KeyChar(base[i]) then base[i] else '_' {
      MaskedAt(base, i);
    }
  }

  lemma {:induction false} MaskedAt(s: string, i: nat)
    requires i < |s|
    ensures Masked(s)[i] == if KeyChar(s[i]) then s[i] else '_'
  {
    if i > 0 {
      MaskedAt(s[1..], i - 1);
    }
  }

  /** The places of post media and documents. */
  lemma PostFileKeys(userId: string, file: File)
    ensures FileKey(userId, Job(file, Media, "post")) == userId + "/media/post/" + StoredName(file)
    ensures FileKey(userId, Job(file, Documents, "")) == userId + "/documents/" + StoredName(file)
  {
    hide StoredName;
    assert userId + "/" + "media" + "/" + ("post" + "/") == userId + "/media/post/";
    assert userId + "/" + "documents" + "/" + "" == userId + "/documents/";
  }

  /** Two uploads of one kind share a key exactly when they share the stored name. */
  lemma SameKeyIffSameName(userId: string, a: File, b: File)
    ensures FileKey(userId, Job(a, Media, "post")) == FileKey(userId, Job(b, Media, "post")) <==> StoredName(a) == StoredName(b)
    ensures FileKey(userId, Job(a, Documents, "")) == FileKey(userId, Job(b, Documents, "")) <==> StoredName(a) == StoredName(b)
  {
    PostFileKeys(userId, a);
    PostFileKeys(userId, b);
    SameTail(userId + "/media/post/", StoredName(a), StoredName(b));
    SameTail(userId + "/documents/", StoredName(a), StoredName(b));
    hide FileKey, StoredName;
  }

  lemma SameTail(head: string, a: string, b: string)
    ensures head + a == head + b <==> a == b
  {
    assert (head + a)[|head|..] == a && (head + b)[|head|..] == b;
  }

  /** The places of the other kinds. */
  lemma OtherFileKeys(userId: string, file: File, subType: string)
    requires subType != ""
    ensures FileKey(userId, Job(file, Profile, subType)) == userId + "/profile/" + (subType + "/" + StoredName(file))
    ensures FileKey(userId, Job(file, Temp, "")) == userId + "/temp/" + StoredName(file)
    ensures FileKey(userId, Job(file, Backups, "")) == userId + "/backups/" + StoredName(file)
  {
    hide StoredName;
    assert userId + "/" + "profile" + "/" + (subType + "/") == userId + "/profile/" + (subType + "/");
    assert userId + "/" + "temp" + "/" + "" == userId + "/temp/";
    assert userId + "/" + "backups" + "/" + "" == userId + "/backups/";
  }

  /** What may be attached to a post. */
  lemma AttachableIff(file: File)
    ensures Acceptable(Job(file, Media, "post")) <==>
      && file.size <= 104857600
      && file.mimeType in {"image/jpeg", "image/jpg", "image/png", "image/gif", "image/webp", "video/mp4", "video/webm",
                           "video/quicktime", "audio/mpeg", "audio/mp3", "audio/wav", "audio/ogg"}
    ensures Acceptable(Job(file, Documents, "")) <==>
      && file.size <= 52428800
      && file.mimeType in {"application/pdf", "application/msword",
                           "application/vnd.openxmlformats-officedocument.wordprocessingml.document",
                           "application/vnd.ms-excel",
                           "application/vnd.openxmlformats-officedocument.spreadsheetml.sheet", "text/plain", "text/csv"}
  {
    assert "image/jpeg"[0] == 'i' && "application/pdf"[0] == 'a';
  }

  /** What the other kinds accept. */
  lemma ProfileAcceptableIff(file: File, subType: string)
    ensures Acceptable(Job(file, Profile, subType)) <==>
      && file.size <= 5242880
      && file.mimeType in {"image/jpeg", "image/jpg", "image/png", "image/gif", "image/webp", "image/svg+xml"}
      && subType in {"", "avatar", "cover", "offline", "chat"}
  {
    assert "image/jpeg"[0] == 'i';
  }

  lemma OthersAcceptableIff(file: File, subType: string)
    ensures Acceptable(Job(file, Temp, subType)) <==> file.size <= 10485760
    ensures Acceptable(Job(file, Backups, subType)) <==>
      && file.size <= 524288000
      && file.mimeType in {"application/zip", "application/x-tar", "application/gzip", "application/x-gzip"}
  {
    assert "application/zip"[0] == 'a';
  }

  /** The ownership check of `deleteFile`. */
  predicate Owns(userId: string, key: string) {
    userId + "/" <= key
  }

  /** A user owns what lies under the user's own directory. */
  lemma OwnsIff(userId: string, key: string)
    ensures Owns(userId, key) <==> exists rest :: key == userId + "/" + rest
  {
    if Owns(userId, key) {
      var n := |userId + "/"|;
      assert key == userId + "/" + key[n..];
    }
  }

  lemma KeyHead(userId: string, job: Job) returns (rest: string)
    ensures FileKey(userId, job) == userId + "/" + Name(job.kind) + "/" + rest
  {
    rest := (if job.subType != "" then job.subType + "/" else "") + StoredName(job.file);
  }

  /** A user owns the keys generated for that user and no others. */
  lemma OwnsOwnKeysOnly(owner: string, userId: string, job: Job)
    requires '/' !in owner && '/' !in userId
    ensures Owns(userId, FileKey(owner, job)) <==> userId == owner
  {
    var rest := KeyHead(owner, job);
    var key := FileKey(owner, job);
    assert key[|owner|] == '/';
    assert forall i :: 0 <= i < |owner| ==> key[i] == owner[i];
    if Owns(userId, key) {
      var prefix := userId + "/";
      assert prefix[|userId|] == '/' && key[|userId|] == prefix[|userId|];
      assert forall i :: 0 <= i < |userId| ==> key[i] == prefix[i] == userId[i];
      assert |userId| == |owner|;
    }
  }

  lemma OwnKeys(userId: string, job: Job)
    ensures Owns(userId, FileKey(userId, job))
  {
    var rest := KeyHead(userId, job);
  }

  /** Media and documents of one user never share a key. */
  lemma KindsApart(userId: string, a: Job, b: Job)
    requires a.kind == Media && b.kind == Documents
    ensures FileKey(userId, a) != FileKey(userId, b)
  {
    var restA := KeyHead(userId, a);
    var restB := KeyHead(userId, b);
    var n := |userId| + 1;
    assert FileKey(userId, a)[n] == 'm';
    assert FileKey(userId, b)[n] == 'd';
  }

  // ---------- post types ----------

  datatype PostType = TextPost | ImagePost | VideoPost | DocumentPost | MixedPost

  datatype Kind = Image | Video | Document | Other

  const IMAGE_EXTENSIONS := [".jpg", ".jpeg", ".png", ".gif", ".webp", ".svg"]
  const VIDEO_EXTENSIONS := [".mp4", ".webm", ".mov", ".quicktime"]
  const DOCUMENT_EXTENSIONS := [".pdf", ".doc", ".docx", ".xls", ".xlsx", ".txt", ".csv"]

  predicate Includes(s: string, t: string) {
    exists i :: 0 <= i <= |s| && t <= s[i..]
  }

  predicate IncludesAny(s: string, ts: seq<string>) {
    exists k :: 0 <= k < |ts| && Includes(s, ts[k])
  }

  lemma IncludesIff(s: string, t: string)
    ensures Includes(s, t) <==> exists a, b :: s == a + (t + b)
  {
    if i: nat :| i <= |s| && t <= s[i..] {
      assert s[i..] == t + s[i..][|t|..];
      assert s == s[..i] + (t + s[i..][|t|..]);
    }
    if a, b :| s == a + (t + b) {
      assert s[|a|..] == t + b;
    }
  }

  /** The first list with an extension that occurs in the URL decides. */
  function KindOf(lowerUrl: string): Kind {
    if IncludesAny(lowerUrl, IMAGE_EXTENSIONS) then Image
    else if IncludesAny(lowerUrl, VIDEO_EXTENSIONS) then Video
    else if IncludesAny(lowerUrl, DOCUMENT_EXTENSIONS) then Document
    else Other
  }

  /** Which extensions make which kind; images are looked for first, documents last. */
  lemma KindByExtension(lowerUrl: string)
    ensures var image := IncludesAny(lowerUrl, [".jpg", ".jpeg", ".png", ".gif", ".webp", ".svg"]);
      var video := IncludesAny(lowerUrl, [".mp4", ".webm", ".mov", ".quicktime"]);
      var document := IncludesAny(lowerUrl, [".pdf", ".doc", ".docx", ".xls", ".xlsx", ".txt", ".csv"]);
      && (KindOf(lowerUrl) == Image <==> image)
      && (KindOf(lowerUrl) == Video <==> video && !image)
      && (KindOf(lowerUrl) == Document <==> document && !image && !video)
  {
    hide IncludesAny;
  }

  /** Some URL is of this kind. */
  predicate Has(urls: seq<string>, kind: Kind, lower: string -> string) {
    exists i :: 0 <= i < |urls| && KindOf(lower(urls[i])) == kind
  }

  /** Mixed when two kinds occur, otherwise the one kind that does. */
  ghost predicate IsTypeOf(t: PostType, urls: seq<string>, lower: string -> string) {
    && (t == MixedPost <==> exists a, b :: a != b && a != Other && b != Other && Has(urls, a, lower) && Has(urls, b, lower))
    && (t == ImagePost <==> Has(urls, Image, lower) && !Has(urls, Video, lower) && !Has(urls, Document, lower))
    && (t == VideoPost <==> Has(urls, Video, lower) && !Has(urls, Image, lower) && !Has(urls, Document, lower))
    && (t == DocumentPost <==> Has(urls, Document, lower) && !Has(urls, Image, lower) && !Has(urls, Video, lower))
    && (t == TextPost <==> !Has(urls, Image, lower) && !Has(urls, Video, lower) && !Has(urls, Document, lower))
  }

  /** There is one type for a list of URLs. */
  lemma TypeIsUnique(t: PostType, u: PostType, urls: seq<string>, lower: string -> string)
    requires IsTypeOf(t, urls, lower) && IsTypeOf(u, urls, lower)
    ensures t == u
  {
  }

  method DeterminePostType(mediaUrl: Option<string>, mediaUrls: seq<string>, lower: string -> string)
    returns (t: PostType)
    ensures IsTypeOf(t, (if mediaUrl.Some? && mediaUrl.value != "" then [mediaUrl.value] else []) + mediaUrls, lower)
  {
    hide Includes, IncludesAny;
    var given := mediaUrl.Some? && mediaUrl.value != "";
    if !given && |mediaUrls| == 0 {
      return TextPost;
    }
    var allUrls := (if given then [mediaUrl.value] else []) + mediaUrls;
    var hasImage, hasVideo, hasDocument := false, false, false;
    for i := 0 to |allUrls|
      invariant hasImage <==> Has(allUrls[..i], Image, lower)
      invariant hasVideo <==> Has(allUrls[..i], Video, lower)
      invariant hasDocument <==> Has(allUrls[..i], Document, lower)
    {
      HasOneMore(allUrls, i, lower);
      var lowerUrl := lower(allUrls[i]);
      if IncludesAny(lowerUrl, IMAGE_EXTENSIONS) {
        hasImage := true;
      } else if IncludesAny(lowerUrl, VIDEO_EXTENSIONS) {
        hasVideo := true;
      } else if IncludesAny(lowerUrl, DOCUMENT_EXTENSIONS) {
        hasDocument := true;
      }
    }
    assert allUrls[..|allUrls|] == allUrls;
    var typeCount := (if hasImage then 1 else 0) + (if hasVideo then 1 else 0) + (if hasDocument then 1 else 0);
    if typeCount > 1 {
      return MixedPost;
    }
    if hasImage {
      return ImagePost;
    }
    if hasVideo {
      return VideoPost;
    }
    if hasDocument {
      return DocumentPost;
    }
    t := TextPost;
  }

  lemma HasOneMore(urls: seq<string>, i: nat, lower: string -> string)
    requires i < |urls|
    ensures forall kind :: Has(urls[..i + 1], kind, lower) <==>
      Has(urls[..i], kind, lower) || KindOf(lower(urls[i])) == kind
  {
    forall kind
      ensures Has(urls[..i + 1], kind, lower) <==> Has(urls[..i], kind, lower) || KindOf(lower(urls[i])) == kind
    {
      if Has(urls[..i], kind, lower) {
        var j :| 0 <= j < i && KindOf(lower(urls[..i][j])) == kind;
        assert urls[..i + 1][j] == urls[j];
      }
      assert urls[..i + 1][i] == urls[i];
      if Has(urls[..i + 1], kind, lower) {
        var j :| 0 <= j < i + 1 && KindOf(lower(urls[..i + 1][j])) == kind;
        if j < i {
          assert urls[..i][j] == urls[j];
        }
      }
    }
  }

  /** Repeating the first URL as `mediaUrl` does not change the type. */
  lemma FirstUrlIsRepeated(t: PostType, urls: seq<string>, lower: string -> string)
    requires urls != []
    ensures IsTypeOf(t, [urls[0]] + urls, lower) <==> IsTypeOf(t, urls, lower)
  {
    var twice := [urls[0]] + urls;
    forall kind ensures Has(twice, kind, lower) <==> Has(urls, kind, lower) {
      if Has(urls, kind, lower) {
        var i :| 0 <= i < |urls| && KindOf(lower(urls[i])) == kind;
        assert twice[i + 1] == urls[i];
      }
      if Has(twice, kind, lower) {
        var i :| 0 <= i < |twice| && KindOf(lower(twice[i])) == kind;
        assert i == 0 ==> twice[i] == urls[0];
        assert i > 0 ==> twice[i] == urls[i - 1];
      }
    }
  }
}

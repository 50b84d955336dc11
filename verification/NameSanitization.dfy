/** The sanitizers of usernames and display names. */
module NameSanitization {
  import opened Basics
  import Csv
  import opened Cutting
  import opened Sanitization

  // ---------- removing characters ----------

  /** `s.replace(/[...]/g, '')` for the class of characters that `keep` rejects. */
  function Filter(s: string, keep: char -> bool): string {
    if s == "" then "" else (if keep(s[0]) then [s[0]] else "") + Filter(s[1..], keep)
  }

  ghost predicate All(s: string, p: char -> bool) {
    forall i :: 0 <= i < |s| ==> p(s[i])
  }

  lemma {:induction false} FilterKeeps(s: string, keep: char -> bool)
    ensures All(Filter(s, keep), keep)
    ensures All(s, keep) <==> Filter(s, keep) == s
    ensures |Filter(s, keep)| <= |s|
  {
    if s != "" {
      FilterKeeps(s[1..], keep);
      if keep(s[0]) {
        assert Filter(s, keep)[1..] == Filter(s[1..], keep);
      }
    }
  }

  /** Characters are judged one by one and keep their order. */
  lemma {:induction false} FilterIsCharacterwise(a: string, c: char, b: string, keep: char -> bool)
    ensures Filter(a + b, keep) == Filter(a, keep) + Filter(b, keep)
    ensures Filter([c], keep) == if keep(c) then [c] else ""
  {
    assert [c][1..] == "";
    if a == "" {
      assert a + b == b;
    } else {
      assert (a + b)[1..] == a[1..] + b;
      FilterIsCharacterwise(a[1..], c, b, keep);
    }
  }

  // ---------- sanitizeUsername ----------

  predicate NameChar(c: char) {
    'a' <= c <= 'z' || 'A' <= c <= 'Z' || '0' <= c <= '9' || c == '_' || c == '-'
  }

  function SanitizeUsername(s: string): string {
    Trim(Filter(s, NameChar))
  }

  lemma TrimKeepsUnspaced(s: string)
    requires s != "" ==> !IsSpace(s[0]) && !IsSpace(s[|s| - 1])
    ensures Trim(s) == s
  {
  }

  /** Usernames hold letters, digits, _ and - only; those that do are left as they are. */
  lemma UsernameIsClean(s: string)
    ensures All(SanitizeUsername(s), NameChar)
    ensures SanitizeUsername(s) == s <==> All(s, NameChar)
    ensures SanitizeUsername(SanitizeUsername(s)) == SanitizeUsername(s)
    ensures Csv.QuoteFree(SanitizeUsername(s))
  {
    FilterKeeps(s, NameChar);
    TrimKeepsUnspaced(Filter(s, NameChar));
    FilterKeeps(SanitizeUsername(s), NameChar);
  }

  /** The username is what `Filter` keeps: its characters in order, nothing else dropped. */
  lemma UsernameIsFiltered(s: string)
    ensures SanitizeUsername(s) == Filter(s, NameChar)
  {
    FilterKeeps(s, NameChar);
    TrimKeepsUnspaced(Filter(s, NameChar));
  }

  // ---------- sanitizeDisplayName ----------

  /** The characters a display name may not hold: < > { } [ ] \ | ` ~ */
  predicate Allowed(c: char) {
    c !in {'<', '>', '{', '}', '[', ']', '\\', '|', '`', '~'}
  }

  const NAME_SPECIAL := "&\"'"

  /** `s.replace(/\s+/g, ' ')` */
  function Collapse(s: string): string
    decreases |s|
  {
    if s == "" then ""
    else if IsSpace(s[0]) then " " + Collapse(s[SpaceEnd(s, 1)..])
    else [s[0]] + Collapse(s[1..])
  }

  /** The text before white space is normalised. */
  function Filtered(s: string): string {
    RemoveTokens(EscapePasses(Filter(StripTags(s), Allowed), NAME_SPECIAL), false)
  }

  function SanitizeDisplayName(s: string): string {
    if s == "" then ""
    else Collapse(Trim(Filtered(s)))
  }

  // ---------- no step brings a removed character back ----------

  lemma {:induction false} EscapeMapStaysAllowed(s: string)
    requires All(s, Allowed)
    ensures All(EscapeMap(s, NAME_SPECIAL), Allowed)
  {
    if s != "" {
      EscapeMapStaysAllowed(s[1..]);
      EntityIsAllowed(s[0]);
    }
  }

  lemma EntityIsAllowed(c: char)
    requires Allowed(c)
    ensures All(EscapeChar(c), Allowed)
  {
  }

  lemma {:induction false} RemoveTokensStaysAllowed(s: string)
    requires All(s, Allowed)
    ensures All(RemoveTokens(s, false), Allowed)
    decreases |s|
  {
    if s != "" {
      if TokenLength(s, false) > 0 {
        RemoveTokensStaysAllowed(s[TokenLength(s, false)..]);
      } else {
        RemoveTokensStaysAllowed(s[1..]);
      }
    }
  }

  lemma {:induction false} TrimStaysAllowed(s: string)
    requires All(s, Allowed)
    ensures All(Trim(s), Allowed)
  {
    TrimLeftStaysAllowed(s);
    TrimRightEnd(TrimLeft(s));
  }

  lemma {:induction false} TrimLeftStaysAllowed(s: string)
    requires All(s, Allowed)
    ensures All(TrimLeft(s), Allowed)
  {
    if s != "" && IsSpace(s[0]) {
      TrimLeftStaysAllowed(s[1..]);
    }
  }

  lemma {:induction false} CollapseStaysAllowed(s: string)
    requires All(s, Allowed)
    ensures All(Collapse(s), Allowed)
    decreases |s|
  {
    if s != "" {
      if IsSpace(s[0]) {
        CollapseStaysAllowed(s[SpaceEnd(s, 1)..]);
      } else {
        CollapseStaysAllowed(s[1..]);
      }
    }
  }

  // ---------- collapsing ----------

  /** How many characters of the text the next character of the collapsed text stands for. */
  function Chunk(s: string): (n: nat)
    requires s != ""
    ensures 1 <= n <= |s|
  {
    if IsSpace(s[0]) then SpaceEnd(s, 1) else 1
  }

  lemma CollapseCons(s: string)
    requires s != ""
    ensures Collapse(s) == [if IsSpace(s[0]) then ' ' else s[0]] + Collapse(s[Chunk(s)..])
    ensures Chunk(s) < |s| && IsSpace(s[0]) ==> !IsSpace(s[Chunk(s)])
  {
    if IsSpace(s[0]) {
      SpaceEndStops(s, 1);
    }
  }

  /** Single spaces only, and none at either end. */
  predicate Normalised(s: string) {
    && SpacesAreSingle(s)
    && (s != "" ==> !IsSpace(s[0]) && !IsSpace(s[|s| - 1]))
  }

  predicate SpacesAreSingle(s: string) {
    && (forall i :: 0 <= i < |s| && IsSpace(s[i]) ==> s[i] == ' ')
    && (forall i :: 0 <= i < |s| - 1 ==> !IsSpace(s[i]) || !IsSpace(s[i + 1]))
  }

  lemma SingleCons(c: char, t: string)
    requires SpacesAreSingle(t) && (IsSpace(c) ==> c == ' ') && (t != "" ==> !IsSpace(c) || !IsSpace(t[0]))
    ensures SpacesAreSingle([c] + t)
  {
    var s := [c] + t;
    assert forall i :: 0 < i < |s| ==> s[i] == t[i - 1];
  }

  /** White space becomes single spaces; the ends are spaces only where they were. */
  lemma {:induction false} CollapseNormalises(s: string)
    requires s != ""
    ensures Collapse(s) != "" && Collapse(s)[0] == if IsSpace(s[0]) then ' ' else s[0]
    ensures IsSpace(Collapse(s)[|Collapse(s)| - 1]) <==> IsSpace(s[|s| - 1])
    ensures SpacesAreSingle(Collapse(s))
    decreases |s|
  {
    var n := Chunk(s);
    CollapseCons(s);
    var c, t := if IsSpace(s[0]) then ' ' else s[0], Collapse(s[n..]);
    hide Collapse;
    if n < |s| {
      CollapseNormalises(s[n..]);
      assert ([c] + t)[|t|] == t[|t| - 1];
      assert s[n..][|s[n..]| - 1] == s[|s| - 1];
    } else {
      CollapseNone(s[n..]);
      assert n > 1 ==> IsSpace(s[|s| - 1]);
    }
    SingleCons(c, t);
  }

  lemma CollapseNone(s: string)
    requires s == ""
    ensures Collapse(s) == ""
  {
  }

  /** Texts that do not meet in the middle of a run of spaces are collapsed one by one. */
  lemma {:induction false} CollapseConcat(a: string, b: string)
    requires a != "" && b != "" ==> !IsSpace(a[|a| - 1]) || !IsSpace(b[0])
    ensures Collapse(a + b) == Collapse(a) + Collapse(b)
    decreases |a|
  {
    if a == "" {
      assert a + b == b;
      CollapseNone(a);
    } else {
      var head, rest := CollapseStep(a, b);
      hide Collapse, IsSpace;
      CollapseConcat(rest, b);
      assert head + (Collapse(rest) + Collapse(b)) == head + Collapse(rest) + Collapse(b);
    }
  }

  /** The first chunk of a text does not depend on what follows the text. */
  lemma CollapseStep(a: string, b: string) returns (head: string, rest: string)
    requires a != "" && (b != "" ==> !IsSpace(a[|a| - 1]) || !IsSpace(b[0]))
    ensures |rest| < |a| && (rest != "" ==> rest[|rest| - 1] == a[|a| - 1])
    ensures Collapse(a) == head + Collapse(rest) && Collapse(a + b) == head + Collapse(rest + b)
  {
    var n := Chunk(a);
    ChunkOfConcat(a, b);
    CollapseCons(a);
    CollapseCons(a + b);
    hide Collapse, Chunk, IsSpace;
    assert (a + b)[n..] == a[n..] + b;
    head, rest := [if IsSpace(a[0]) then ' ' else a[0]], a[n..];
  }

  lemma ChunkOfConcat(a: string, b: string)
    requires a != "" && (b != "" ==> !IsSpace(a[|a| - 1]) || !IsSpace(b[0]))
    ensures Chunk(a + b) == Chunk(a)
  {
    if IsSpace(a[0]) {
      var n := SpaceEnd(a, 1);
      SpaceEndStops(a, 1);
      assert forall k :: 1 <= k < n ==> (a + b)[k] == a[k];
      if n < |a + b| {
        SpaceEndIs(a + b, 1, n);
      } else {
        assert b == "" && a + b == a;
      }
    }
  }

  lemma {:induction false} CollapseSpaces(s: string)
    requires s != "" && AllSpaces(s)
    ensures Collapse(s) == " "
  {
    SpaceEndStops(s, 1);
    assert s[|s|..] == "";
  }

  /** Words stay as they are, in order; each run of spaces becomes one. */
  lemma CollapseIsWordwise(before: string, spaces: string, after: string)
    requires spaces != "" && AllSpaces(spaces)
    requires (before != "" ==> !IsSpace(before[|before| - 1])) && (after != "" ==> !IsSpace(after[0]))
    ensures Collapse(before + (spaces + after)) == Collapse(before) + (" " + Collapse(after))
    ensures (forall k :: 0 <= k < |before| ==> !IsSpace(before[k])) ==> Collapse(before) == before
  {
    CollapseConcat(before, spaces + after);
    CollapseConcat(spaces, after);
    CollapseSpaces(spaces);
    if forall k :: 0 <= k < |before| ==> !IsSpace(before[k]) {
      CollapseKeepsPrefix(before, |before|);
      assert before[..|before|] == before && before[|before|..] == "";
      CollapseNone("");
    }
  }

  /** Collapsing keeps a prefix without spaces. */
  lemma {:induction false} CollapseKeepsPrefix(s: string, n: nat)
    requires n <= |s| && forall k :: 0 <= k < n ==> !IsSpace(s[k])
    ensures Collapse(s) == s[..n] + Collapse(s[n..])
    decreases n
  {
    if n == 0 {
      assert s[0..] == s;
    } else {
      CollapseCons(s);
      hide Collapse, IsSpace;
      CollapseKeepsPrefix(s[1..], n - 1);
      assert s[1..][n - 1..] == s[n..] && s[1..][..n - 1] == s[1..n];
      assert s[..n] == [s[0]] + s[1..n];
    }
  }

  lemma {:induction false} CollapseKeepsEscaping(s: string)
    requires WellEscaped(s, NAME_SPECIAL)
    ensures WellEscaped(Collapse(s), NAME_SPECIAL)
    decreases |s|
  {
    if s != "" {
      if EntityLength(s) > 0 {
        var m := EntityLength(s);
        EntityHasNoSpace(s);
        CollapseKeepsPrefix(s, m);
        CollapseKeepsEscaping(s[m..]);
        EntityCons(s, Collapse(s[m..]), NAME_SPECIAL);
        assert s[0..] == s && s[0..m] == s[..m];
      } else if IsSpace(s[0]) {
        var n := SpaceEnd(s, 1);
        DropPlain(s, n, NAME_SPECIAL);
        CollapseKeepsEscaping(s[n..]);
        assert Collapse(s)[1..] == Collapse(s[n..]);
      } else {
        CollapseKeepsEscaping(s[1..]);
        assert Collapse(s)[1..] == Collapse(s[1..]);
      }
    }
  }

  // ---------- the steps together ----------

  lemma FilteredStaysAllowed(s: string)
    ensures All(Filtered(s), Allowed)
  {
    var kept := Filter(StripTags(s), Allowed);
    FilterKeeps(StripTags(s), Allowed);
    PassesAreOneMap(kept, NAME_SPECIAL);
    EscapeMapStaysAllowed(kept);
    RemoveTokensStaysAllowed(EscapePasses(kept, NAME_SPECIAL));
  }

  lemma DisplayNameIsAllowed(s: string)
    ensures All(SanitizeDisplayName(s), Allowed)
  {
    FilteredStaysAllowed(s);
    TrimStaysAllowed(Filtered(s));
    CollapseStaysAllowed(Trim(Filtered(s)));
  }

  lemma DisplayNameIsWellEscaped(s: string)
    ensures WellEscaped(SanitizeDisplayName(s), NAME_SPECIAL)
  {
    FilteredIsWellEscaped(Filter(StripTags(s), Allowed), false, NAME_SPECIAL);
    CollapseKeepsEscaping(Trim(Filtered(s)));
  }

  lemma DisplayNameIsNormalised(s: string)
    ensures Normalised(SanitizeDisplayName(s))
  {
    var trimmed := Trim(Filtered(s));
    TrimEnds(Filtered(s));
    hide Trim, Filtered, Collapse;
    if trimmed != "" {
      CollapseNormalises(trimmed);
    } else {
      CollapseNone(trimmed);
    }
  }

  lemma EscapedIsQuoteFree(t: string)
    requires WellEscaped(t, NAME_SPECIAL)
    ensures Csv.QuoteFree(t)
  {
    hide WellEscaped, EntityLength;
    assert NAME_SPECIAL[1] == '"';
    forall i | 0 <= i < |t| ensures t[i] != '"' {
      WellEscapedCharacters(t, i, NAME_SPECIAL);
    }
  }

  /**
   * Display names hold none of the removed characters, no quote and no apostrophe, an ampersand only
   * at the start of an entity, and single inner spaces.
   */
  lemma DisplayNameIsClean(s: string)
    ensures All(SanitizeDisplayName(s), Allowed)
    ensures WellEscaped(SanitizeDisplayName(s), NAME_SPECIAL)
    ensures Normalised(SanitizeDisplayName(s))
    ensures Csv.QuoteFree(SanitizeDisplayName(s))
  {
    DisplayNameIsAllowed(s);
    DisplayNameIsWellEscaped(s);
    DisplayNameIsNormalised(s);
    EscapedIsQuoteFree(SanitizeDisplayName(s));
  }

  /**
   * `sanitizeDisplayName` from end to end: strip the tags, drop the forbidden characters, escape
   * & " ', drop the leftmost tokens, keep the rest in order, trim and collapse.
   */
  lemma DisplayNamePieces(s: string) returns (pieces: seq<Piece>, tail: string)
    ensures Whole(pieces, tail) == EscapeMap(Filter(StripTags(s), Allowed), "&\"'")
    ensures SanitizeDisplayName(s) == Collapse(Trim(Kept(pieces, tail)))
    ensures Leftmost(pieces, tail, Tokens(false))
    ensures forall i :: 0 <= i < |pieces| ==> IsToken(pieces[i].dropped, false)
  {
    var text := Filter(StripTags(s), Allowed);
    PassesAreOneMap(text, NAME_SPECIAL);
    pieces, tail := RemoveTokensKeepsRest(EscapeMap(text, NAME_SPECIAL), false);
    if s == "" {
      assert StripTags(s) == "" && text == "";
      assert Trim(RemoveTokens("", false)) == "";
    }
  }

  // ---------- the export of sanitized names ----------

  /** Exports read back when usernames and display names come from the sanitizers; bios may hold anything. */
  lemma SanitizedNamesReadBack(people: seq<Csv.Person>, rawUsernames: seq<string>, rawDisplayNames: seq<string>)
    requires |rawUsernames| == |rawDisplayNames| == |people|
    requires forall i :: 0 <= i < |people| ==> people[i].username == SanitizeUsername(rawUsernames[i])
    requires forall i :: 0 <= i < |people| ==> people[i].displayName == SanitizeDisplayName(rawDisplayNames[i])
    requires forall i :: 0 <= i < |people| ==>
      && Csv.QuoteFree(people[i].id) && Csv.QuoteFree(people[i].email)
      && Csv.QuoteFree(people[i].followedAt) && Csv.QuoteFree(people[i].avatar)
    ensures Csv.Read(Csv.Export(people)) == Some(Csv.Table(people))
  {
    forall i | 0 <= i < |people| ensures Csv.QuoteFreePerson(people[i]) {
      UsernameIsClean(rawUsernames[i]);
      DisplayNameIsClean(rawDisplayNames[i]);
    }
    Csv.ExportReadsBackIff(people);
  }
}

/** The string sanitizers: tag stripping, entity escaping, token removal and trimming. */
module Sanitization {
  import opened Cutting

  // ---------- characters ----------

  /** JavaScript's `\s` */
  predicate IsSpace(c: char) {
    var n := c as int;
    9 <= n <= 13 || n == 32 || n == 0xA0 || n == 0x1680 || 0x2000 <= n <= 0x200A
    || n == 0x2028 || n == 0x2029 || n == 0x202F || n == 0x205F || n == 0x3000 || n == 0xFEFF
  }

  /** JavaScript's `\w` */
  predicate IsWord(c: char) {
    'a' <= c <= 'z' || 'A' <= c <= 'Z' || '0' <= c <= '9' || c == '_'
  }

  function Lower(c: char): char {
    if 'A' <= c <= 'Z' then c - 'A' + 'a' else c
  }

  /** The white space of ECMAScript: its space and line-terminator characters. */
  lemma SpaceCharacters(c: char)
    ensures IsSpace(c) <==> c as int in {
      0x9, 0xA, 0xB, 0xC, 0xD, 0x20, 0xA0, 0x1680, 0x2000, 0x2001, 0x2002, 0x2003, 0x2004, 0x2005, 0x2006, 0x2007,
      0x2008, 0x2009, 0x200A, 0x2028, 0x2029, 0x202F, 0x205F, 0x3000, 0xFEFF}
  {
  }

  const LOWER_CASE := "abcdefghijklmnopqrstuvwxyz"
  const UPPER_CASE := "ABCDEFGHIJKLMNOPQRSTUVWXYZ"

  lemma Alphabet(i: nat)
    requires i < 26
    ensures |LOWER_CASE| == |UPPER_CASE| == 26
    ensures LOWER_CASE[i] as int == 'a' as int + i && UPPER_CASE[i] as int == 'A' as int + i
  {
  }

  lemma LetterIn(c: char)
    ensures 'a' <= c <= 'z' <==> c in LOWER_CASE
    ensures 'A' <= c <= 'Z' <==> c in UPPER_CASE
  {
    forall i | 0 <= i < 26
      ensures LOWER_CASE[i] as int == 'a' as int + i && UPPER_CASE[i] as int == 'A' as int + i
    {
      Alphabet(i);
    }
    assert 'a' <= c <= 'z' ==> LOWER_CASE[c as int - 'a' as int] == c;
    assert 'A' <= c <= 'Z' ==> UPPER_CASE[c as int - 'A' as int] == c;
  }

  lemma DigitIn(c: char)
    ensures '0' <= c <= '9' || c == '_' <==> c in "0123456789_"
  {
    assert '0' <= c <= '9' ==> "0123456789_"[c as int - '0' as int] == c;
    assert "0123456789_"[10] == '_';
  }

  /** Word characters are the letters, the digits and the underscore. */
  lemma WordCharacters(c: char)
    ensures IsWord(c) <==> c in LOWER_CASE || c in UPPER_CASE || c in "0123456789_"
  {
    LetterIn(c);
    DigitIn(c);
  }

  /** Case is ignored for these letters only. */
  lemma CaseIsIgnored(c: char, i: nat)
    requires i < 26
    ensures |LOWER_CASE| == |UPPER_CASE| == 26 && Lower(UPPER_CASE[i]) == LOWER_CASE[i]
    ensures c !in UPPER_CASE ==> Lower(c) == c
  {
    Alphabet(i);
    LetterIn(c);
  }

  // ---------- tags: replace(/<[^>]*>/g, '') ----------

  /** The first position of `c` at or after `from`, or the length. */
  function Find(s: string, c: char, from: nat): (i: nat)
    requires from <= |s|
    ensures from <= i <= |s|
    ensures forall k :: from <= k < i ==> s[k] != c
    ensures i < |s| ==> s[i] == c
    decreases |s| - from
  {
    if from == |s| || s[from] == c then from else Find(s, c, from + 1)
  }

  function StripTags(s: string): string
    decreases |s|
  {
    var open := Find(s, '<', 0);
    var close := Find(s, '>', open);
    if close == |s| then s else s[..open] + StripTags(s[close + 1..])
  }

  /** No `<` has a `>` after it. */
  predicate Tagless(s: string) {
    forall i, j :: 0 <= i < j < |s| && s[i] == '<' ==> s[j] != '>'
  }

  lemma {:induction false} StripTagsIsTagless(s: string)
    ensures Tagless(StripTags(s))
    decreases |s|
  {
    var open := Find(s, '<', 0);
    var close := Find(s, '>', open);
    if close < |s| {
      StripTagsIsTagless(s[close + 1..]);
      var rest := StripTags(s[close + 1..]);
      var out := s[..open] + rest;
      forall i, j | 0 <= i < j < |out| && out[i] == '<' ensures out[j] != '>' {
        assert i >= open;
        assert out[i] == rest[i - open] && out[j] == rest[j - open];
      }
    }
  }

  /** Exactly the texts without a tag are left as they are; so stripping twice is stripping once. */
  lemma StripTagsFixpoint(s: string)
    ensures StripTags(s) == s <==> Tagless(s)
    ensures StripTags(StripTags(s)) == StripTags(s)
  {
    StripTagsIsTagless(s);
    if Tagless(s) {
      TaglessIsKept(s);
    }
    TaglessIsKept(StripTags(s));
  }

  lemma TaglessIsKept(s: string)
    requires Tagless(s)
    ensures StripTags(s) == s
  {
  }

  /** A tag: `<`, then anything but `>`, then `>`. */
  ghost predicate IsTag(t: string) {
    && |t| > 1 && t[0] == '<' && t[|t| - 1] == '>'
    && forall k :: 0 < k < |t| - 1 ==> t[k] != '>'
  }

  /** The length of the tag at the start of a text, 0 without one. */
  function TagLength(s: string): (n: nat)
    ensures n <= |s|
  {
    if s != "" && s[0] == '<' && Find(s, '>', 0) < |s| then Find(s, '>', 0) + 1 else 0
  }

  /** A text starts with at most one tag, and this is its length. */
  lemma TagLengthIff(s: string, n: nat)
    requires 0 < n <= |s|
    ensures TagLength(s) == n <==> IsTag(s[..n])
  {
    if IsTag(s[..n]) {
      assert s[n - 1] == s[..n][n - 1] == '>';
      assert forall k :: 0 < k < n - 1 ==> s[..n][k] != '>' && s[..n][k] == s[k];
      assert s[0] == s[..n][0];
      assert Find(s, '>', 0) == n - 1;
    }
  }

  /** A tag starts at a `<` that has a `>` after it. */
  lemma TagLengthAt(s: string, k: nat)
    requires k < |s|
    ensures TagLength(s[k..]) > 0 <==> s[k] == '<' && Find(s, '>', k) < |s|
    ensures TagLength(s[k..]) > 0 ==> TagLength(s[k..]) == Find(s, '>', k) + 1 - k
  {
    var t := s[k..];
    assert forall c :: 0 <= c < |t| ==> t[c] == s[k + c];
    assert forall c :: k <= c < |s| ==> s[c] == t[c - k];
    var c, d := Find(t, '>', 0), Find(s, '>', k);
    hide Find;
    assert c == d - k;
  }

  lemma NoTagBefore(s: string, n: nat)
    requires n <= |s| && forall k :: 0 <= k < n ==> s[k] != '<' || Find(s, '>', k) == |s|
    ensures Lengths(TagLength) && NoMatchBefore(s, n, TagLength)
  {
    forall k | 0 <= k < n ensures TagLength(s[k..]) == 0 {
      TagLengthAt(s, k);
    }
  }

  lemma LaterFind(s: string, c: char, from: nat, k: nat)
    requires from <= k <= |s| && Find(s, c, from) == |s|
    ensures Find(s, c, k) == |s|
  {
  }

  lemma NoTags(s: string)
    requires Find(s, '>', Find(s, '<', 0)) == |s|
    ensures Lengths(TagLength) && Cut(s, TagLength) == s
  {
    hide TagLength, Cut, NoMatchBefore;
    forall k | 0 <= k < |s| ensures s[k] != '<' || Find(s, '>', k) == |s| {
      if s[k] == '<' {
        LaterFind(s, '>', Find(s, '<', 0), k);
      }
    }
    NoTagBefore(s, |s|);
    CutsNothingIff(s, TagLength);
  }

  /** Stripping cuts the leftmost tags, one after the other. */
  lemma {:induction false} StripTagsIsCut(s: string)
    ensures Lengths(TagLength) && StripTags(s) == Cut(s, TagLength)
    decreases |s|
  {
    hide TagLength, Cut, NoMatchBefore;
    var open := Find(s, '<', 0);
    var close := Find(s, '>', open);
    if close == |s| {
      NoTags(s);
    } else {
      StripTagsIsCut(s[close + 1..]);
      NoTagBefore(s, open);
      TagLengthAt(s, open);
      CutsTag(s, open, close);
    }
  }

  lemma CutsTag(s: string, open: nat, close: nat)
    requires open < close < |s| && Lengths(TagLength) && NoMatchBefore(s, open, TagLength)
    requires TagLength(s[open..]) == close + 1 - open
    ensures Cut(s, TagLength) == s[..open] + Cut(s[close + 1..], TagLength)
  {
    hide TagLength, Cut, NoMatchBefore;
    var before, rest := s[..open], s[open..];
    assert before + rest == s;
    CutsFirstMatch(before, rest, TagLength);
    assert rest[close + 1 - open..] == s[close + 1..];
  }

  /** The text outside the tags is kept, in order; every dropped piece is a tag. */
  lemma StripTagsKeepsRest(s: string) returns (pieces: seq<Piece>, tail: string)
    ensures Lengths(TagLength)
    ensures Whole(pieces, tail) == s && Kept(pieces, tail) == StripTags(s) && Leftmost(pieces, tail, TagLength)
    ensures forall i :: 0 <= i < |pieces| ==> IsTag(pieces[i].dropped)
  {
    StripTagsIsCut(s);
    pieces, tail := CutLeavesKeptPieces(s, TagLength);
    DroppedAreTags(pieces, tail);
  }

  lemma {:induction false} DroppedAreTags(pieces: seq<Piece>, tail: string)
    requires Lengths(TagLength) && Leftmost(pieces, tail, TagLength)
    ensures forall i :: 0 <= i < |pieces| ==> IsTag(pieces[i].dropped)
    decreases |pieces|
  {
    if pieces != [] {
      var rest := pieces[0].dropped + Whole(pieces[1..], tail);
      TagLengthIff(rest, |pieces[0].dropped|);
      assert rest[..|pieces[0].dropped|] == pieces[0].dropped;
      DroppedAreTags(pieces[1..], tail);
    }
  }

  // ---------- entities: replace passes ----------

  /** `s.replace(/c/g, t)` */
  function ReplaceAll(s: string, c: char, t: string): string {
    if s == "" then "" else (if s[0] == c then t else [s[0]]) + ReplaceAll(s[1..], c, t)
  }

  const AMP := "&amp;"
  const LT := "&lt;"
  const GT := "&gt;"
  const QUOT := "&quot;"
  const APOS := "&#x27;"
  const SLASH := "&#x2F;"

  predicate Special(c: char) {
    c == '&' || c == '<' || c == '>' || c == '"' || c == '\'' || c == '/'
  }

  /** The entity of a special character. */
  function EscapeChar(c: char): string {
    if c == '&' then AMP
    else if c == '<' then LT
    else if c == '>' then GT
    else if c == '"' then QUOT
    else if c == '\'' then APOS
    else if c == '/' then SLASH
    else [c]
  }

  /** One pass over the text for each character of `chars`, in that order. */
  function EscapePasses(s: string, chars: string): string
    decreases |chars|
  {
    if chars == "" then s else EscapePasses(ReplaceAll(s, chars[0], EscapeChar(chars[0])), chars[1..])
  }

  /** The passes of `sanitizeString` */
  const ALL_SPECIAL := "&<>\"'/"

  /** Later passes leave the ampersand alone. */
  predicate AmpersandOnlyFirst(chars: string) {
    (forall i :: 0 <= i < |chars| ==> Special(chars[i])) && forall i :: 0 < i < |chars| ==> chars[i] != '&'
  }

  /** All characters at once. */
  function EscapeMap(s: string, chars: string): string {
    if s == "" then "" else (if s[0] in chars then EscapeChar(s[0]) else [s[0]]) + EscapeMap(s[1..], chars)
  }

  lemma {:induction false} ReplaceConcat(a: string, b: string, c: char, t: string)
    ensures ReplaceAll(a + b, c, t) == ReplaceAll(a, c, t) + ReplaceAll(b, c, t)
  {
    if a == "" {
      assert a + b == b;
    } else {
      assert (a + b)[1..] == a[1..] + b;
      ReplaceConcat(a[1..], b, c, t);
    }
  }

  lemma {:induction false} ReplaceAbsent(s: string, c: char, t: string)
    requires c !in s
    ensures ReplaceAll(s, c, t) == s
  {
    if s != "" {
      ReplaceAbsent(s[1..], c, t);
    }
  }

  lemma {:induction false} PassesConcat(a: string, b: string, chars: string)
    ensures EscapePasses(a + b, chars) == EscapePasses(a, chars) + EscapePasses(b, chars)
    decreases |chars|
  {
    if chars != "" {
      var c, t := chars[0], EscapeChar(chars[0]);
      ReplaceConcat(a, b, c, t);
      PassesConcat(ReplaceAll(a, c, t), ReplaceAll(b, c, t), chars[1..]);
    }
  }

  lemma {:induction false} PassesKeep(s: string, chars: string)
    requires forall i :: 0 <= i < |chars| ==> chars[i] !in s
    ensures EscapePasses(s, chars) == s
    decreases |chars|
  {
    if chars != "" {
      ReplaceAbsent(s, chars[0], EscapeChar(chars[0]));
      PassesKeep(s, chars[1..]);
    }
  }

  lemma ReplaceOne(c: char, d: char, t: string)
    ensures ReplaceAll([c], d, t) == if c == d then t else [c]
  {
    assert [c][1..] == "";
    assert t + "" == t && [c] + "" == [c];
  }

  /** An entity contains no special character other than its ampersand. */
  lemma EntityIsKept(c: char, d: char)
    requires Special(c) && Special(d) && d != '&'
    ensures d !in EscapeChar(c)
  {
  }

  /** No pass changes what an earlier pass produced. */
  lemma {:induction false} PassesOnChar(c: char, chars: string)
    requires AmpersandOnlyFirst(chars)
    ensures EscapePasses([c], chars) == if c in chars then EscapeChar(c) else [c]
    decreases |chars|
  {
    if chars != "" {
      ReplaceOne(c, chars[0], EscapeChar(chars[0]));
      if c == chars[0] {
        forall i | 0 <= i < |chars[1..]| ensures chars[1..][i] !in EscapeChar(c) {
          EntityIsKept(c, chars[i + 1]);
        }
        PassesKeep(EscapeChar(c), chars[1..]);
      } else {
        PassesOnChar(c, chars[1..]);
      }
    }
  }

  /** With the ampersand first, the passes in sequence are one character-wise map. */
  lemma {:induction false} PassesAreOneMap(s: string, chars: string)
    requires AmpersandOnlyFirst(chars)
    ensures EscapePasses(s, chars) == EscapeMap(s, chars)
    decreases |s|
  {
    if s != "" {
      assert s == [s[0]] + s[1..];
      PassesConcat([s[0]], s[1..], chars);
      PassesOnChar(s[0], chars);
      PassesAreOneMap(s[1..], chars);
    } else {
      PassesKeep("", chars);
    }
  }

  predicate AllSpecial(chars: string) {
    forall i :: 0 <= i < |chars| ==> Special(chars[i])
  }

  /** A pass replaces characters by longer text, and never removes an ampersand. */
  lemma {:induction false} PassGrows(s: string, c: char)
    requires Special(c)
    ensures |ReplaceAll(s, c, EscapeChar(c))| >= |s|
    ensures '&' in s ==> '&' in ReplaceAll(s, c, EscapeChar(c))
    ensures c in s ==> |ReplaceAll(s, c, EscapeChar(c))| > |s| && '&' in ReplaceAll(s, c, EscapeChar(c))
  {
    if s != "" {
      PassGrows(s[1..], c);
      assert s == [s[0]] + s[1..];
      assert EscapeChar(c)[0] == '&' && |EscapeChar(c)| > 1;
      var r := ReplaceAll(s, c, EscapeChar(c));
      if s[0] == c || s[0] == '&' {
        assert r[0] == '&';
      }
    }
  }

  /** An ampersand pass that finds an ampersand makes the text longer. */
  lemma {:induction false} PassesGrow(s: string, chars: string)
    requires AllSpecial(chars)
    ensures |EscapePasses(s, chars)| >= |s|
    ensures '&' in s && '&' in chars ==> |EscapePasses(s, chars)| > |s|
    decreases |chars|
  {
    if chars != "" {
      PassGrows(s, chars[0]);
      PassesGrow(ReplaceAll(s, chars[0], EscapeChar(chars[0])), chars[1..]);
      assert chars == [chars[0]] + chars[1..];
    }
  }

  /** With the ampersand later as well, the text made of the first character alone is escaped twice. */
  lemma LateAmpersandEscapesTwice(chars: string, i: nat)
    requires AllSpecial(chars) && 0 < i < |chars| && chars[i] == '&'
    ensures EscapePasses([chars[0]], chars) != EscapeMap([chars[0]], chars)
  {
    hide EscapeChar, EscapeMap, ReplaceAll, Special;
    var c := chars[0];
    ReplaceOne(c, c, EscapeChar(c));
    EntityStarts(c);
    MapOne(c, chars);
    assert EscapePasses([c], chars) == EscapePasses(EscapeChar(c), chars[1..]);
    assert chars[1..][i - 1] == '&';
    PassesGrow(EscapeChar(c), chars[1..]);
  }

  lemma EntityStarts(c: char)
    requires Special(c)
    ensures '&' in EscapeChar(c)
  {
    assert EscapeChar(c)[0] == '&';
  }

  lemma MapOne(c: char, chars: string)
    requires c in chars
    ensures EscapeMap([c], chars) == EscapeChar(c)
  {
    hide EscapeChar;
    assert [c][1..] == "" && EscapeChar(c) + "" == EscapeChar(c);
  }

  /** The passes equal the character-wise map on every text if and only if no later pass is the ampersand's. */
  lemma AmpersandMustComeFirst(chars: string)
    requires AllSpecial(chars)
    ensures (forall s :: EscapePasses(s, chars) == EscapeMap(s, chars)) <==> AmpersandOnlyFirst(chars)
  {
    if AmpersandOnlyFirst(chars) {
      forall s ensures EscapePasses(s, chars) == EscapeMap(s, chars) {
        PassesAreOneMap(s, chars);
      }
    } else {
      var i :| 0 < i < |chars| && chars[i] == '&';
      LateAmpersandEscapesTwice(chars, i);
    }
  }

  // ---------- decoding ----------

  /** The length of the entity at the start of a text, 0 without one. */
  function EntityLength(s: string): nat {
    if AMP <= s then 5
    else if LT <= s || GT <= s then 4
    else if QUOT <= s || APOS <= s || SLASH <= s then 6
    else 0
  }

  function EntityChar(s: string): char
    requires EntityLength(s) > 0
  {
    if AMP <= s then '&'
    else if LT <= s then '<'
    else if GT <= s then '>'
    else if QUOT <= s then '"'
    else if APOS <= s then '\''
    else '/'
  }

  function Decode(s: string): string {
    if s == "" then ""
    else if EntityLength(s) > 0 then [EntityChar(s)] + Decode(s[EntityLength(s)..])
    else [s[0]] + Decode(s[1..])
  }

  /** The passes escape the ampersand, and escape it first. */
  predicate Proper(chars: string) {
    chars != "" && chars[0] == '&' && AmpersandOnlyFirst(chars)
  }

  lemma EntityHead(s: string)
    requires EntityLength(s) > 0
    ensures s[0] == '&'
  {
    assert AMP <= s ==> s[0] == AMP[0];
    assert LT <= s ==> s[0] == LT[0];
    assert GT <= s ==> s[0] == GT[0];
    assert QUOT <= s ==> s[0] == QUOT[0];
    assert APOS <= s ==> s[0] == APOS[0];
    assert SLASH <= s ==> s[0] == SLASH[0];
  }

  lemma PlainHead(c: char, rest: string)
    requires c != '&'
    ensures EntityLength([c] + rest) == 0 && ([c] + rest)[1..] == rest
  {
    if EntityLength([c] + rest) > 0 {
      EntityHead([c] + rest);
      assert false;
    }
  }

  lemma EscapedHead(c: char, rest: string)
    requires Special(c)
    ensures var s := EscapeChar(c) + rest;
      EntityLength(s) == |EscapeChar(c)| && EntityChar(s) == c && s[EntityLength(s)..] == rest
  {
    var s := EscapeChar(c) + rest;
    assert forall i :: 0 <= i < |EscapeChar(c)| ==> s[i] == EscapeChar(c)[i];
    if c == '&' || c == '<' || c == '>' {
      assert s[1] == EscapeChar(c)[1];
    } else {
      assert s[1] == EscapeChar(c)[1] && s[3] == EscapeChar(c)[3] && s[4] == EscapeChar(c)[4];
    }
  }

  lemma DecodePlain(c: char, rest: string)
    requires c != '&'
    ensures Decode([c] + rest) == [c] + Decode(rest)
  {
    PlainHead(c, rest);
    hide EntityLength, EntityChar;
  }

  lemma DecodeEntity(c: char, rest: string)
    requires Special(c)
    ensures Decode(EscapeChar(c) + rest) == [c] + Decode(rest)
  {
    EscapedHead(c, rest);
    assert EscapeChar(c) != "";
    hide EntityLength, EntityChar, EscapeChar;
  }

  lemma {:induction false} DecodeUndoesMap(s: string, chars: string)
    requires Proper(chars)
    ensures Decode(EscapeMap(s, chars)) == s
  {
    if s != "" {
      var c, rest := s[0], EscapeMap(s[1..], chars);
      DecodeUndoesMap(s[1..], chars);
      if c in chars {
        DecodeEntity(c, rest);
      } else {
        DecodePlain(c, rest);
      }
      hide Decode, EscapeChar;
      assert s == [c] + s[1..];
    }
  }

  /** Decoding recovers the text that was escaped. */
  lemma DecodeUndoesEscape(s: string, chars: string)
    requires Proper(chars)
    ensures Decode(EscapePasses(s, chars)) == s
  {
    PassesAreOneMap(s, chars);
    DecodeUndoesMap(s, chars);
  }

  // ---------- tokens: replace(/javascript:|on\w+\s*=|script:|eval\(|expression\(/gi, '') ----------

  predicate StartsWith(s: string, literal: string) {
    |literal| <= |s| && forall i :: 0 <= i < |literal| ==> Lower(s[i]) == literal[i]
  }

  /** The end of the run of word characters from `from` on. */
  function WordEnd(s: string, from: nat): (i: nat)
    requires from <= |s|
    ensures from <= i <= |s| && forall k :: from <= k < i ==> IsWord(s[k])
    decreases |s| - from
  {
    if from < |s| && IsWord(s[from]) then WordEnd(s, from + 1) else from
  }

  function SpaceEnd(s: string, from: nat): (i: nat)
    requires from <= |s|
    ensures from <= i <= |s| && forall k :: from <= k < i ==> IsSpace(s[k])
    decreases |s| - from
  {
    if from < |s| && IsSpace(s[from]) then SpaceEnd(s, from + 1) else from
  }

  /** The length of a match of `on\w+\s*=` at the start; the greedy runs leave nothing to backtrack to. */
  function HandlerLength(s: string): nat {
    if !StartsWith(s, "on") then 0
    else
      var word := WordEnd(s, 2);
      var space := SpaceEnd(s, word);
      if word > 2 && space < |s| && s[space] == '=' then space + 1 else 0
  }

  /** The length of the match at the start of a text, 0 without one. */
  function TokenLength(s: string, withExpression: bool): (n: nat)
    ensures n <= |s|
  {
    if StartsWith(s, "javascript:") then 11
    else if HandlerLength(s) > 0 then HandlerLength(s)
    else if StartsWith(s, "script:") then 7
    else if StartsWith(s, "eval(") then 5
    else if withExpression && StartsWith(s, "expression(") then 11
    else 0
  }

  function RemoveTokens(s: string, withExpression: bool): string
    decreases |s|
  {
    if s == "" then ""
    else if TokenLength(s, withExpression) > 0 then RemoveTokens(s[TokenLength(s, withExpression)..], withExpression)
    else [s[0]] + RemoveTokens(s[1..], withExpression)
  }

  /** The run of spaces ends at a character that is not one. */
  lemma {:induction false} SpaceEndStops(s: string, from: nat)
    requires from <= |s|
    ensures SpaceEnd(s, from) < |s| ==> !IsSpace(s[SpaceEnd(s, from)])
    decreases |s| - from
  {
    if from < |s| && IsSpace(s[from]) {
      SpaceEndStops(s, from + 1);
    }
  }

  lemma {:induction false} WordEndStops(s: string, from: nat)
    requires from <= |s|
    ensures WordEnd(s, from) < |s| ==> !IsWord(s[WordEnd(s, from)])
    decreases |s| - from
  {
    if from < |s| && IsWord(s[from]) {
      WordEndStops(s, from + 1);
    }
  }

  // ---------- what a token is ----------

  /** The literal in any mixture of cases. */
  ghost predicate Spells(t: string, literal: string) {
    |t| == |literal| && forall i :: 0 <= i < |t| ==> Lower(t[i]) == literal[i]
  }

  /** "on", one or more word characters up to i, spaces, and a final "=". */
  ghost predicate HandlerWith(t: string, i: nat) {
    && 2 < i < |t|
    && Lower(t[0]) == 'o' && Lower(t[1]) == 'n'
    && (forall k :: 2 <= k < i ==> IsWord(t[k]))
    && (forall k :: i <= k < |t| - 1 ==> IsSpace(t[k]))
    && t[|t| - 1] == '='
  }

  ghost predicate IsHandler(t: string) {
    exists i :: HandlerWith(t, i)
  }

  ghost predicate IsToken(t: string, withExpression: bool) {
    || Spells(t, "javascript:")
    || IsHandler(t)
    || Spells(t, "script:")
    || Spells(t, "eval(")
    || (withExpression && Spells(t, "expression("))
  }

  lemma HandlerLengthIff(s: string, n: nat)
    requires 0 < n <= |s|
    ensures HandlerLength(s) == n <==> IsHandler(s[..n])
  {
    var t := s[..n];
    assert forall k :: 0 <= k < n ==> t[k] == s[k];
    if i: nat :| HandlerWith(t, i) {
      assert StartsWith(s, "on");
      WordEndIs(s, 2, i);
      SpaceEndIs(s, i, n - 1);
    }
    if HandlerLength(s) == n {
      assert Lower(s[0]) == "on"[0] && Lower(s[1]) == "on"[1];
      assert HandlerWith(t, WordEnd(s, 2));
    }
  }

  lemma {:induction false} WordEndIs(s: string, from: nat, end: nat)
    requires from <= end < |s| && !IsWord(s[end]) && forall k :: from <= k < end ==> IsWord(s[k])
    ensures WordEnd(s, from) == end
    decreases end - from
  {
    if from < end {
      WordEndIs(s, from + 1, end);
    }
  }

  lemma {:induction false} SpaceEndIs(s: string, from: nat, end: nat)
    requires from <= end < |s| && !IsSpace(s[end]) && forall k :: from <= k < end ==> IsSpace(s[k])
    ensures SpaceEnd(s, from) == end
    decreases end - from
  {
    if from < end {
      SpaceEndIs(s, from + 1, end);
    }
  }

  lemma StartsIff(s: string, literal: string)
    ensures StartsWith(s, literal) <==> |literal| <= |s| && Spells(s[..|literal|], literal)
  {
    if |literal| <= |s| {
      assert forall i :: 0 <= i < |literal| ==> s[..|literal|][i] == s[i];
    }
  }

  /** The first letters keep the alternatives apart. */
  lemma OneAlternative(s: string)
    ensures StartsWith(s, "javascript:") ==> Lower(s[0]) == 'j'
    ensures StartsWith(s, "script:") ==> Lower(s[0]) == 's'
    ensures StartsWith(s, "eval(") ==> Lower(s[0]) == 'e' && Lower(s[1]) == 'v'
    ensures StartsWith(s, "expression(") ==> Lower(s[0]) == 'e' && Lower(s[1]) == 'x'
    ensures HandlerLength(s) > 0 ==> s != "" && Lower(s[0]) == 'o'
  {
    assert StartsWith(s, "javascript:") ==> Lower(s[0]) == "javascript:"[0];
    assert StartsWith(s, "script:") ==> Lower(s[0]) == "script:"[0];
    assert StartsWith(s, "eval(") ==> Lower(s[0]) == "eval("[0] && Lower(s[1]) == "eval("[1];
    assert StartsWith(s, "expression(") ==> Lower(s[0]) == "expression("[0] && Lower(s[1]) == "expression("[1];
    assert HandlerLength(s) > 0 ==> Lower(s[0]) == "on"[0];
  }

  lemma SpellsPrefix(s: string, n: nat, literal: string)
    requires n <= |s|
    ensures Spells(s[..n], literal) <==> n == |literal| && StartsWith(s, literal)
  {
    StartsIff(s, literal);
  }

  /** A text starts with at most one token, and this is its length. */
  lemma TokenLengthIff(s: string, n: nat, withExpression: bool)
    requires 0 < n <= |s|
    ensures TokenLength(s, withExpression) == n <==> IsToken(s[..n], withExpression)
  {
    OneAlternative(s);
    HandlerLengthIff(s, n);
    SpellsPrefix(s, n, "javascript:");
    SpellsPrefix(s, n, "script:");
    SpellsPrefix(s, n, "eval(");
    SpellsPrefix(s, n, "expression(");
    hide StartsWith, Spells, IsHandler, HandlerLength;
  }

  ghost function Tokens(withExpression: bool): (f: string -> nat)
    ensures Lengths(f)
  {
    t => TokenLength(t, withExpression)
  }

  lemma {:induction false} RemoveTokensIsCut(s: string, withExpression: bool)
    ensures RemoveTokens(s, withExpression) == Cut(s, Tokens(withExpression))
    decreases |s|
  {
    hide TokenLength;
    if s != "" {
      if TokenLength(s, withExpression) > 0 {
        RemoveTokensIsCut(s[TokenLength(s, withExpression)..], withExpression);
      } else {
        RemoveTokensIsCut(s[1..], withExpression);
      }
    }
  }

  /** A token starts at position k. */
  ghost predicate TokenAt(s: string, k: nat, withExpression: bool)
    requires k <= |s|
  {
    exists n :: 0 < n <= |s[k..]| && IsToken(s[k..][..n], withExpression)
  }

  lemma TokenAtIff(s: string, k: nat, withExpression: bool)
    requires k <= |s|
    ensures TokenAt(s, k, withExpression) <==> TokenLength(s[k..], withExpression) > 0
  {
    hide TokenLength, IsToken;
    if n :| 0 < n <= |s[k..]| && IsToken(s[k..][..n], withExpression) {
      TokenLengthIff(s[k..], n, withExpression);
    }
    var m := TokenLength(s[k..], withExpression);
    if m > 0 {
      TokenLengthIff(s[k..], m, withExpression);
    }
  }

  /** A text without tokens is left alone, and no other text is. */
  lemma RemovesNothingIff(s: string, withExpression: bool)
    ensures RemoveTokens(s, withExpression) == s <==> forall k :: 0 <= k < |s| ==> !TokenAt(s, k, withExpression)
  {
    hide TokenLength, IsToken, TokenAt;
    RemoveTokensIsCut(s, withExpression);
    CutsNothingIff(s, Tokens(withExpression));
    forall k | 0 <= k < |s| ensures TokenAt(s, k, withExpression) <==> TokenLength(s[k..], withExpression) > 0 {
      TokenAtIff(s, k, withExpression);
    }
  }

  /** Otherwise the text before the first token is kept, the token goes, and the rest is treated likewise. */
  lemma RemovesFirstToken(before: string, token: string, rest: string, withExpression: bool)
    requires IsToken(token, withExpression)
    requires forall k :: 0 <= k < |before| ==> !TokenAt(before + (token + rest), k, withExpression)
    ensures RemoveTokens(before + (token + rest), withExpression) == before + RemoveTokens(rest, withExpression)
  {
    TokenIsNotEmpty(token, withExpression);
    hide TokenLength, IsToken, TokenAt;
    var s := before + (token + rest);
    assert (token + rest)[..|token|] == token && (token + rest)[|token|..] == rest;
    TokenLengthIff(token + rest, |token|, withExpression);
    forall k | 0 <= k < |before| ensures TokenLength(s[k..], withExpression) == 0 {
      TokenAtIff(s, k, withExpression);
    }
    CutsFirstMatch(before, token + rest, Tokens(withExpression));
    RemoveTokensIsCut(s, withExpression);
    RemoveTokensIsCut(rest, withExpression);
  }

  lemma TokenIsNotEmpty(token: string, withExpression: bool)
    requires IsToken(token, withExpression)
    ensures token != ""
  {
  }

  /** The text outside the leftmost tokens is kept, in order; every dropped piece is a token. */
  lemma RemoveTokensKeepsRest(s: string, withExpression: bool) returns (pieces: seq<Piece>, tail: string)
    ensures Whole(pieces, tail) == s && Kept(pieces, tail) == RemoveTokens(s, withExpression)
    ensures Leftmost(pieces, tail, Tokens(withExpression))
    ensures forall i :: 0 <= i < |pieces| ==> IsToken(pieces[i].dropped, withExpression)
  {
    RemoveTokensIsCut(s, withExpression);
    pieces, tail := CutLeavesKeptPieces(s, Tokens(withExpression));
    DroppedAreTokens(pieces, tail, withExpression);
  }

  lemma {:induction false} DroppedAreTokens(pieces: seq<Piece>, tail: string, withExpression: bool)
    requires Leftmost(pieces, tail, Tokens(withExpression))
    ensures forall i :: 0 <= i < |pieces| ==> IsToken(pieces[i].dropped, withExpression)
    decreases |pieces|
  {
    hide TokenLength, IsToken;
    if pieces != [] {
      var rest := pieces[0].dropped + Whole(pieces[1..], tail);
      TokenLengthIff(rest, |pieces[0].dropped|, withExpression);
      assert rest[..|pieces[0].dropped|] == pieces[0].dropped;
      DroppedAreTokens(pieces[1..], tail, withExpression);
    }
  }

  // ---------- trimming ----------

  function TrimLeft(s: string): string {
    if s != "" && IsSpace(s[0]) then TrimLeft(s[1..]) else s
  }

  function TrimRight(s: string): string {
    if s != "" && IsSpace(s[|s| - 1]) then TrimRight(s[..|s| - 1]) else s
  }

  function Trim(s: string): string {
    TrimRight(TrimLeft(s))
  }

  ghost predicate AllSpaces(s: string) {
    forall i :: 0 <= i < |s| ==> IsSpace(s[i])
  }

  /** Neither end is a space. */
  predicate Trimmed(s: string) {
    s != "" ==> !IsSpace(s[0]) && !IsSpace(s[|s| - 1])
  }

  lemma {:induction false} TrimLeftParts(s: string) returns (left: string)
    ensures s == left + TrimLeft(s) && AllSpaces(left)
  {
    if s != "" && IsSpace(s[0]) {
      var more := TrimLeftParts(s[1..]);
      left := [s[0]] + more;
    } else {
      left := "";
    }
  }

  lemma {:induction false} TrimRightParts(s: string) returns (right: string)
    ensures s == TrimRight(s) + right && AllSpaces(right)
  {
    if s != "" && IsSpace(s[|s| - 1]) {
      var more := TrimRightParts(s[..|s| - 1]);
      right := more + [s[|s| - 1]];
    } else {
      right := "";
    }
  }

  /** Trimming takes spaces from both ends, and nothing else. */
  lemma TrimParts(s: string) returns (left: string, right: string)
    ensures s == left + Trim(s) + right && AllSpaces(left) && AllSpaces(right) && Trimmed(Trim(s))
  {
    left := TrimLeftParts(s);
    right := TrimRightParts(TrimLeft(s));
    TrimEnds(s);
    hide TrimLeft, TrimRight;
    assert left + (Trim(s) + right) == left + Trim(s) + right;
  }

  lemma {:induction false} TrimLeftOf(left: string, rest: string)
    requires AllSpaces(left) && (rest != "" ==> !IsSpace(rest[0]))
    ensures TrimLeft(left + rest) == rest
  {
    if left == "" {
      assert left + rest == rest;
    } else {
      assert (left + rest)[1..] == left[1..] + rest;
      TrimLeftOf(left[1..], rest);
    }
  }

  lemma {:induction false} TrimRightOf(rest: string, right: string)
    requires AllSpaces(right) && (rest != "" ==> !IsSpace(rest[|rest| - 1]))
    ensures TrimRight(rest + right) == rest
  {
    if right == "" {
      assert rest + right == rest;
    } else {
      var n := |right| - 1;
      assert (rest + right)[..|rest| + n] == rest + right[..n];
      TrimRightOf(rest, right[..n]);
    }
  }

  /** Whatever lies between the spaces at the ends is what trimming returns. */
  lemma TrimOf(left: string, middle: string, right: string)
    requires AllSpaces(left) && AllSpaces(right) && Trimmed(middle)
    ensures Trim(left + middle + right) == middle
  {
    if middle == "" {
      assert left + middle + right == left + right + "";
      TrimLeftOf(left + right, "");
    } else {
      assert left + middle + right == left + (middle + right);
      TrimLeftOf(left, middle + right);
      TrimRightOf(middle, right);
    }
  }

  // ---------- sanitizeString ----------

  function SanitizeString(s: string): string {
    if s == "" then "" else Trim(RemoveTokens(EscapePasses(StripTags(s), ALL_SPECIAL), true))
  }

  /** The replacement texts. */
  lemma EntityTexts()
    ensures EscapeMap("&", ALL_SPECIAL) == "&amp;" && EscapeMap("<", ALL_SPECIAL) == "&lt;"
    ensures EscapeMap(">", ALL_SPECIAL) == "&gt;" && EscapeMap("\"", ALL_SPECIAL) == "&quot;"
    ensures EscapeMap("'", ALL_SPECIAL) == "&#x27;" && EscapeMap("/", ALL_SPECIAL) == "&#x2F;"
  {
    assert ALL_SPECIAL[0] == '&' && ALL_SPECIAL[1] == '<' && ALL_SPECIAL[2] == '>';
    assert ALL_SPECIAL[3] == '"' && ALL_SPECIAL[4] == '\'' && ALL_SPECIAL[5] == '/';
    hide EscapeMap;
    MapOne('&', ALL_SPECIAL);
    MapOne('<', ALL_SPECIAL);
    MapOne('>', ALL_SPECIAL);
    MapOne('"', ALL_SPECIAL);
    MapOne('\'', ALL_SPECIAL);
    MapOne('/', ALL_SPECIAL);
  }

  /**
   * `sanitizeString` from end to end: strip the tags, escape every special character, drop the leftmost
   * tokens, keep the rest in order, and trim.
   */
  lemma SanitizedPieces(s: string) returns (pieces: seq<Piece>, tail: string)
    ensures Whole(pieces, tail) == EscapeMap(StripTags(s), ALL_SPECIAL)
    ensures SanitizeString(s) == Trim(Kept(pieces, tail))
    ensures Leftmost(pieces, tail, Tokens(true))
    ensures forall i :: 0 <= i < |pieces| ==> IsToken(pieces[i].dropped, true)
  {
    PassesAreOneMap(StripTags(s), ALL_SPECIAL);
    pieces, tail := RemoveTokensKeepsRest(EscapeMap(StripTags(s), ALL_SPECIAL), true);
    if s == "" {
      assert StripTags(s) == "";
      assert Trim(RemoveTokens("", true)) == "";
    }
  }

  lemma {:induction false} MapConcat(a: string, b: string, chars: string)
    ensures EscapeMap(a + b, chars) == EscapeMap(a, chars) + EscapeMap(b, chars)
  {
    if a == "" {
      assert a + b == b;
    } else {
      assert (a + b)[1..] == a[1..] + b;
      MapConcat(a[1..], b, chars);
    }
  }

  lemma {:induction false} MapKeepsSpaces(s: string)
    requires AllSpaces(s)
    ensures EscapeMap(s, ALL_SPECIAL) == s
  {
    if s != "" {
      SpaceIsPlain(s[0]);
      MapKeepsSpaces(s[1..]);
    }
  }

  lemma SpaceIsPlain(c: char)
    requires IsSpace(c)
    ensures c !in ALL_SPECIAL
  {
  }

  /** The escaped form of a character begins and ends with something other than a space, unless it is one. */
  lemma EscapedEnds(c: char)
    requires !IsSpace(c)
    ensures var e := EscapeMap([c], ALL_SPECIAL);
      e != "" && !IsSpace(e[0]) && !IsSpace(e[|e| - 1])
  {
    if c in ALL_SPECIAL {
      MapOne(c, ALL_SPECIAL);
      SpecialEnds(c);
    } else {
      assert [c][1..] == "" && [c] + "" == [c];
    }
  }

  lemma SpecialEnds(c: char)
    requires c in ALL_SPECIAL
    ensures EscapeChar(c) != "" && EscapeChar(c)[0] == '&' && EscapeChar(c)[|EscapeChar(c)| - 1] == ';'
  {
  }

  lemma MapKeepsTrimmed(s: string)
    requires Trimmed(s)
    ensures Trimmed(EscapeMap(s, ALL_SPECIAL))
  {
    if s != "" {
      var n := |s| - 1;
      EscapedEnds(s[0]);
      EscapedEnds(s[n]);
      assert s == [s[0]] + s[1..] && s == s[..n] + [s[n]];
      MapConcat([s[0]], s[1..], ALL_SPECIAL);
      MapConcat(s[..n], [s[n]], ALL_SPECIAL);
    }
  }

  /** A text whose escaped form holds no token comes back, stripped and trimmed, by decoding. */
  lemma SanitizedDecodes(s: string)
    requires var escaped := EscapeMap(StripTags(s), ALL_SPECIAL);
      forall k :: 0 <= k < |escaped| ==> !TokenAt(escaped, k, true)
    ensures Decode(SanitizeString(s)) == Trim(StripTags(s))
  {
    var text := StripTags(s);
    var left, right := TrimParts(text);
    var middle := Trim(text);
    PassesAreOneMap(text, ALL_SPECIAL);
    RemovesNothingIff(EscapeMap(text, ALL_SPECIAL), true);
    MapConcat(left + middle, right, ALL_SPECIAL);
    MapConcat(left, middle, ALL_SPECIAL);
    MapKeepsSpaces(left);
    MapKeepsSpaces(right);
    MapKeepsTrimmed(middle);
    TrimOf(left, EscapeMap(middle, ALL_SPECIAL), right);
    DecodeUndoesMap(middle, ALL_SPECIAL);
    EmptyIsSanitized(s);
    hide Trim, TrimLeft, TrimRight, EscapeMap, EscapePasses, RemoveTokens, Decode, StripTags, TokenAt, IsSpace;
  }

  lemma EmptyIsSanitized(s: string)
    ensures SanitizeString(s) == Trim(RemoveTokens(EscapePasses(StripTags(s), ALL_SPECIAL), true))
  {
    if s == "" {
      PassesKeep("", ALL_SPECIAL);
    }
  }

  /** A text made of entities and of characters outside `chars`. */
  predicate WellEscaped(s: string, chars: string) {
    s == ""
    || (EntityLength(s) > 0 && WellEscaped(s[EntityLength(s)..], chars))
    || (s[0] !in chars && WellEscaped(s[1..], chars))
  }

  lemma {:induction false} EscapeMapIsWellEscaped(s: string, chars: string)
    requires Proper(chars)
    ensures WellEscaped(EscapeMap(s, chars), chars)
  {
    if s != "" {
      var rest := EscapeMap(s[1..], chars);
      EscapeMapIsWellEscaped(s[1..], chars);
      if s[0] in chars {
        EscapedHead(s[0], rest);
      } else {
        PlainHead(s[0], rest);
      }
    }
  }

  lemma {:induction false} DropPlain(s: string, n: nat, chars: string)
    requires Proper(chars) && WellEscaped(s, chars) && n <= |s| && forall i :: 0 <= i < n ==> !Special(s[i])
    ensures WellEscaped(s[n..], chars)
  {
    if n > 0 {
      if EntityLength(s) > 0 {
        EntityHead(s);
        assert false;
      }
      assert s[1..][n - 1..] == s[n..];
      DropPlain(s[1..], n - 1, chars);
    } else {
      assert s[0..] == s;
    }
  }

  lemma TokenIsPlain(s: string, withExpression: bool)
    ensures forall i :: 0 <= i < TokenLength(s, withExpression) ==> !Special(s[i])
  {
    LiteralsArePlain();
    HandlerIsPlain(s);
    hide Special, HandlerLength;
    if StartsWith(s, "javascript:") {
      LiteralIsPlain(s, "javascript:");
    } else if HandlerLength(s) == 0 && TokenLength(s, withExpression) > 0 {
      if StartsWith(s, "script:") {
        LiteralIsPlain(s, "script:");
      } else if StartsWith(s, "eval(") {
        LiteralIsPlain(s, "eval(");
      } else {
        LiteralIsPlain(s, "expression(");
      }
    }
  }

  predicate PlainLiteral(literal: string) {
    forall i :: 0 <= i < |literal| ==> literal[i] == ':' || literal[i] == '(' || 'a' <= literal[i] <= 'z'
  }

  lemma LiteralsArePlain()
    ensures PlainLiteral("javascript:") && PlainLiteral("script:") && PlainLiteral("eval(") && PlainLiteral("expression(")
  {
  }

  lemma LiteralIsPlain(s: string, literal: string)
    requires StartsWith(s, literal) && PlainLiteral(literal)
    ensures forall i :: 0 <= i < |literal| ==> !Special(s[i])
  {
  }

  lemma HandlerIsPlain(s: string)
    ensures HandlerLength(s) <= |s| && forall i :: 0 <= i < HandlerLength(s) ==> !Special(s[i])
  {
    if HandlerLength(s) > 0 {
      assert Lower(s[0]) == "on"[0] && Lower(s[1]) == "on"[1];
    }
  }

  /** A token begins with j, s, e, or with o followed by n. */
  lemma TokenHead(s: string, withExpression: bool)
    requires TokenLength(s, withExpression) > 0
    ensures Lower(s[0]) in {'j', 's', 'e', 'o'}
    ensures Lower(s[0]) == 'o' ==> |s| > 1 && Lower(s[1]) == 'n'
  {
    if StartsWith(s, "javascript:") {
      assert Lower(s[0]) == "javascript:"[0];
    } else if HandlerLength(s) > 0 {
      assert Lower(s[0]) == "on"[0] && Lower(s[1]) == "on"[1];
    } else if StartsWith(s, "script:") {
      assert Lower(s[0]) == "script:"[0];
    } else if StartsWith(s, "eval(") {
      assert Lower(s[0]) == "eval("[0];
    } else {
      assert Lower(s[0]) == "expression("[0];
    }
  }

  /** No token starts inside an entity. */
  lemma NoTokenInEntity(s: string, k: nat, withExpression: bool)
    requires k < EntityLength(s)
    ensures EntityLength(s) <= |s| && TokenLength(s[k..], withExpression) == 0
  {
    var e := if AMP <= s then AMP else if LT <= s then LT else if GT <= s then GT
      else if QUOT <= s then QUOT else if APOS <= s then APOS else SLASH;
    assert e <= s && |e| == EntityLength(s);
    assert forall i :: 0 <= i < |e| ==> s[i] == e[i];
    assert s[k..][0] == e[k];
    assert k + 1 < |e| ==> s[k..][1] == e[k + 1];
    EntityLetters(e, k);
    if TokenLength(s[k..], withExpression) > 0 {
      TokenHead(s[k..], withExpression);
      assert false;
    }
  }

  lemma EntityLetters(e: string, k: nat)
    requires e in {AMP, LT, GT, QUOT, APOS, SLASH} && k < |e|
    ensures Lower(e[k]) !in {'j', 's', 'e'}
    ensures Lower(e[k]) == 'o' ==> k + 1 < |e| && Lower(e[k + 1]) == 't'
  {
  }

  lemma RemovePlain(s: string, withExpression: bool)
    requires s != "" && TokenLength(s, withExpression) == 0
    ensures RemoveTokens(s, withExpression) == [s[0]] + RemoveTokens(s[1..], withExpression)
  {
    hide TokenLength;
  }

  /** Removal keeps a prefix in which no token starts. */
  lemma {:induction false} RemoveTokensKeepsPrefix(s: string, n: nat, withExpression: bool)
    requires n <= |s| && forall k :: 0 <= k < n ==> TokenLength(s[k..], withExpression) == 0
    ensures RemoveTokens(s, withExpression) == s[..n] + RemoveTokens(s[n..], withExpression)
    decreases n
  {
    hide TokenLength, RemoveTokens;
    if n == 0 {
      assert s[0..] == s;
    } else {
      assert s[0..] == s;
      RemovePlain(s, withExpression);
      forall k | 0 <= k < n - 1 ensures TokenLength(s[1..][k..], withExpression) == 0 {
        assert s[1..][k..] == s[k + 1..];
      }
      RemoveTokensKeepsPrefix(s[1..], n - 1, withExpression);
      assert s[1..][n - 1..] == s[n..] && s[1..][..n - 1] == s[1..n];
      assert s[..n] == [s[0]] + s[1..n];
    }
  }

  /** So removal passes over an entity as a whole. */
  lemma RemoveTokensKeepsEntity(s: string, withExpression: bool)
    ensures EntityLength(s) <= |s|
    ensures RemoveTokens(s, withExpression)
         == s[..EntityLength(s)] + RemoveTokens(s[EntityLength(s)..], withExpression)
  {
    EntityHasNoSpace(s);
    forall k | 0 <= k < EntityLength(s) ensures TokenLength(s[k..], withExpression) == 0 {
      NoTokenInEntity(s, k, withExpression);
    }
    RemoveTokensKeepsPrefix(s, EntityLength(s), withExpression);
  }

  lemma EntityPrefixStays(s: string, rest: string)
    requires EntityLength(s) > 0
    ensures EntityLength(s) <= |s|
    ensures var t := s[..EntityLength(s)] + rest;
      EntityLength(t) == EntityLength(s) && t[EntityLength(t)..] == rest
  {
    assert s[..EntityLength(s)] == EscapeChar(EntityChar(s));
    EscapedHead(EntityChar(s), rest);
  }

  lemma EntityCons(s: string, rest: string, chars: string)
    requires EntityLength(s) > 0 && WellEscaped(rest, chars)
    ensures EntityLength(s) <= |s| && WellEscaped(s[..EntityLength(s)] + rest, chars)
  {
    EntityPrefixStays(s, rest);
    hide EntityLength;
  }

  lemma EntityTail(s: string, chars: string)
    requires Proper(chars) && EntityLength(s) > 0 && WellEscaped(s, chars)
    ensures WellEscaped(s[EntityLength(s)..], chars)
  {
    EntityHead(s);
    hide EntityLength;
  }

  lemma EntityHasNoSpace(s: string)
    ensures EntityLength(s) <= |s| && forall i :: 0 <= i < EntityLength(s) ==> !IsSpace(s[i])
  {
    if EntityLength(s) > 0 {
      var e := EscapeChar(EntityChar(s));
      assert s[..EntityLength(s)] == e;
      assert forall i :: 0 <= i < |e| ==> s[i] == e[i];
      EntityTextHasNoSpace(EntityChar(s));
    }
  }

  lemma EntityTextHasNoSpace(c: char)
    requires Special(c)
    ensures forall i :: 0 <= i < |EscapeChar(c)| ==> !IsSpace(EscapeChar(c)[i])
  {
  }

  lemma {:induction false} RemoveTokensKeepsEscaping(s: string, withExpression: bool, chars: string)
    requires Proper(chars) && WellEscaped(s, chars)
    ensures WellEscaped(RemoveTokens(s, withExpression), chars)
    decreases |s|
  {
    if s != "" {
      var n := TokenLength(s, withExpression);
      if n > 0 {
        TokenIsPlain(s, withExpression);
        DropPlain(s, n, chars);
        RemoveTokensKeepsEscaping(s[n..], withExpression, chars);
      } else if EntityLength(s) > 0 {
        var m := EntityLength(s);
        RemoveTokensKeepsEntity(s, withExpression);
        RemoveTokensKeepsEscaping(s[m..], withExpression, chars);
        EntityCons(s, RemoveTokens(s[m..], withExpression), chars);
        assert s[0..] == s && s[0..m] == s[..m];
      } else {
        RemoveTokensKeepsEscaping(s[1..], withExpression, chars);
        assert RemoveTokens(s, withExpression)[1..] == RemoveTokens(s[1..], withExpression);
      }
    }
  }

  lemma {:induction false} TrimLeftKeepsEscaping(s: string, chars: string)
    requires Proper(chars) && WellEscaped(s, chars)
    ensures WellEscaped(TrimLeft(s), chars)
  {
    if s != "" && IsSpace(s[0]) {
      DropPlain(s, 1, chars);
      TrimLeftKeepsEscaping(s[1..], chars);
    }
  }

  lemma PlainCons(c: char, rest: string, chars: string)
    requires c !in chars && WellEscaped(rest, chars)
    ensures WellEscaped([c] + rest, chars)
  {
    assert ([c] + rest)[1..] == rest;
    hide EntityLength;
  }

  lemma PlainTail(s: string, chars: string)
    requires s != "" && EntityLength(s) == 0 && WellEscaped(s, chars)
    ensures s[0] !in chars && WellEscaped(s[1..], chars)
  {
    hide EntityLength;
  }

  /** The first entity or plain character of a well-escaped text, as a length. */
  lemma WellEscapedHead(s: string, chars: string) returns (m: nat)
    requires Proper(chars) && WellEscaped(s, chars) && s != "" && IsSpace(s[|s| - 1])
    ensures 0 < m <= |s| && WellEscaped(s[m..], chars)
    ensures forall kept :: WellEscaped(kept, chars) ==> |s| > 1 ==> WellEscaped(s[..m] + kept, chars)
    ensures |s| > 1 ==> m < |s|
  {
    EntityHasNoSpace(s);
    hide WellEscaped, EntityLength, IsSpace, Proper;
    if EntityLength(s) > 0 {
      m := EntityLength(s);
      EntityTail(s, chars);
      forall kept | WellEscaped(kept, chars) ensures WellEscaped(s[..m] + kept, chars) {
        EntityCons(s, kept, chars);
      }
    } else {
      m := 1;
      PlainTail(s, chars);
      assert s[..1] == [s[0]];
      forall kept | WellEscaped(kept, chars) ensures WellEscaped(s[..m] + kept, chars) {
        PlainCons(s[0], kept, chars);
      }
    }
  }

  lemma NothingIsWellEscaped(chars: string)
    ensures WellEscaped("", chars)
  {
  }

  lemma {:induction false} DropLastSpace(s: string, chars: string)
    requires Proper(chars) && WellEscaped(s, chars) && s != "" && IsSpace(s[|s| - 1])
    ensures WellEscaped(s[..|s| - 1], chars)
    decreases |s|
  {
    hide WellEscaped, EntityLength, IsSpace, Proper;
    var n := |s| - 1;
    if n == 0 {
      assert s[..0] == "";
      NothingIsWellEscaped(chars);
    } else {
      var m := WellEscapedHead(s, chars);
      var rest := s[m..];
      assert rest[|rest| - 1] == s[n];
      DropLastSpace(rest, chars);
      assert s[..n] == s[..m] + rest[..|rest| - 1];
    }
  }

  lemma {:induction false} TrimRightKeepsEscaping(s: string, chars: string)
    requires Proper(chars) && WellEscaped(s, chars)
    ensures WellEscaped(TrimRight(s), chars)
  {
    if s != "" && IsSpace(s[|s| - 1]) {
      DropLastSpace(s, chars);
      TrimRightKeepsEscaping(s[..|s| - 1], chars);
    }
  }

  lemma FilteredIsWellEscaped(s: string, withExpression: bool, chars: string)
    requires Proper(chars)
    ensures WellEscaped(Trim(RemoveTokens(EscapePasses(s, chars), withExpression)), chars)
  {
    PassesAreOneMap(s, chars);
    EscapeMapIsWellEscaped(s, chars);
    RemoveTokensKeepsEscaping(EscapePasses(s, chars), withExpression, chars);
    var t := RemoveTokens(EscapePasses(s, chars), withExpression);
    TrimLeftKeepsEscaping(t, chars);
    TrimRightKeepsEscaping(TrimLeft(t), chars);
  }

  /** The output of `sanitizeString` is well escaped and has no space at either end. */
  lemma SanitizedIsWellEscaped(s: string)
    ensures WellEscaped(SanitizeString(s), ALL_SPECIAL)
    ensures SanitizeString(s) != "" ==>
      !IsSpace(SanitizeString(s)[0]) && !IsSpace(SanitizeString(s)[|SanitizeString(s)| - 1])
  {
    FilteredIsWellEscaped(StripTags(s), true, ALL_SPECIAL);
    TrimEnds(RemoveTokens(EscapePasses(StripTags(s), ALL_SPECIAL), true));
  }

  lemma TrimEnds(s: string)
    ensures Trim(s) != "" ==> !IsSpace(Trim(s)[0]) && !IsSpace(Trim(s)[|Trim(s)| - 1])
  {
    TrimLeftEnd(s);
    TrimRightEnd(TrimLeft(s));
  }

  lemma {:induction false} TrimLeftEnd(s: string)
    ensures TrimLeft(s) != "" ==> !IsSpace(TrimLeft(s)[0])
  {
    if s != "" && IsSpace(s[0]) {
      TrimLeftEnd(s[1..]);
    }
  }

  lemma {:induction false} TrimRightEnd(s: string)
    ensures TrimRight(s) <= s
    ensures TrimRight(s) != "" ==> !IsSpace(TrimRight(s)[|TrimRight(s)| - 1])
  {
    if s != "" && IsSpace(s[|s| - 1]) {
      TrimRightEnd(s[..|s| - 1]);
    }
  }

  /** Well-escaped text holds no escaped character, except that every & begins an entity. */
  lemma {:induction false} WellEscapedCharacters(s: string, i: nat, chars: string)
    requires Proper(chars) && WellEscaped(s, chars) && i < |s|
    ensures s[i] !in chars || (s[i] == '&' && EntityLength(s[i..]) > 0)
    decreases |s|
  {
    if EntityLength(s) > 0 {
      var m := EntityLength(s);
      EntityPrefixStays(s, "");
      if i >= m {
        WellEscapedCharacters(s[m..], i - m, chars);
        assert s[m..][i - m..] == s[i..];
      } else if i > 0 {
        EntityInside(s, i);
      } else {
        assert s[0..] == s;
      }
    } else if i > 0 {
      WellEscapedCharacters(s[1..], i - 1, chars);
      assert s[1..][i - 1..] == s[i..];
    }
  }

  lemma EntityInside(s: string, i: nat)
    requires 0 < i < EntityLength(s)
    ensures EntityLength(s) <= |s| && !Special(s[i])
  {
    var e := if AMP <= s then AMP else if LT <= s then LT else if GT <= s then GT
      else if QUOT <= s then QUOT else if APOS <= s then APOS else SLASH;
    assert e <= s && |e| == EntityLength(s);
    assert s[i] == e[i];
  }
}

/** Code verifiers and challenges: base64url without padding (RFC 4648, section 5; RFC 7636, section 4). */
module Pkce {
  import opened Basics
  import opened Sanitization

  type Sextet = n: int | 0 <= n < 64

  // ---------- Buffer.toString('base64') ----------

  /** The six-bit groups of a byte string; the last one is filled up with zeros. */
  function Sextets(b: seq<Byte>): seq<Sextet>
    decreases |b|
  {
    if |b| == 0 then []
    else if |b| == 1 then [b[0] / 4, b[0] % 4 * 16]
    else if |b| == 2 then [b[0] / 4, b[0] % 4 * 16 + b[1] / 16, b[1] % 16 * 4]
    else [b[0] / 4, b[0] % 4 * 16 + b[1] / 16, b[1] % 16 * 4 + b[2] / 64, b[2] % 64] + Sextets(b[3..])
  }

  /** The base64 alphabet, with the last two characters as parameters. */
  function Letter(n: Sextet, c62: char, c63: char): char {
    if n < 26 then ('A' as int + n) as char
    else if n < 52 then ('a' as int + (n - 26)) as char
    else if n < 62 then ('0' as int + (n - 52)) as char
    else if n == 62 then c62
    else c63
  }

  function Letters(s: seq<Sextet>, c62: char, c63: char): (r: string)
    ensures |r| == |s|
    ensures forall i :: 0 <= i < |s| ==> r[i] == Letter(s[i], c62, c63)
  {
    if s == [] then "" else [Letter(s[0], c62, c63)] + Letters(s[1..], c62, c63)
  }

  function Padding(n: nat): string {
    if n % 3 == 1 then "==" else if n % 3 == 2 then "=" else ""
  }

  function ToBase64(b: seq<Byte>): string {
    Letters(Sextets(b), '+', '/') + Padding(|b|)
  }

  // ---------- the service ----------

  function Base64UrlEncode(b: seq<Byte>): string {
    ReplaceAll(ReplaceAll(ReplaceAll(ToBase64(b), '+', "-"), '/', "_"), '=', "")
  }

  /** `random` is the byte source. */
  function GenerateCodeVerifier(length: int, random: nat -> seq<Byte>): Result<string, HttpError>
    requires length >= 0 ==> |random(length)| == length
  {
    if length < 43 || length > 128 then Err(InternalError)
    else
      var s := Base64UrlEncode(random(length));
      Ok(s[..Min(length, |s|)])
  }

  function GenerateCodeChallenge(codeVerifier: string, sha256: string -> seq<Byte>): string {
    Base64UrlEncode(sha256(codeVerifier))
  }

  predicate VerifyCodeChallenge(codeVerifier: string, codeChallenge: string, sha256: string -> seq<Byte>) {
    GenerateCodeChallenge(codeVerifier, sha256) == codeChallenge
  }

  // ---------- an independent decoder ----------

  function LetterValue(c: char): Option<Sextet> {
    if 'A' <= c <= 'Z' then Some(c as int - 'A' as int)
    else if 'a' <= c <= 'z' then Some(c as int - 'a' as int + 26)
    else if '0' <= c <= '9' then Some(c as int - '0' as int + 52)
    else if c == '-' then Some(62)
    else if c == '_' then Some(63)
    else None
  }

  /** Three bytes from the bits of four groups. */
  function Byte0(s0: Sextet, s1: Sextet): Byte { s0 * 4 + s1 / 16 }

  function Byte1(s1: Sextet, s2: Sextet): Byte { s1 % 16 * 16 + s2 / 4 }

  function Byte2(s2: Sextet, s3: Sextet): Byte { s2 % 4 * 64 + s3 }

  /** The bytes of a list of groups; the fill bits must be zero. */
  function Bytes(s: seq<Sextet>): Option<seq<Byte>>
    decreases |s|
  {
    if |s| == 0 then Some([])
    else if |s| == 1 then None
    else if |s| == 2 then
      if s[1] % 16 == 0 then Some([Byte0(s[0], s[1])]) else None
    else if |s| == 3 then
      if s[2] % 4 == 0 then Some([Byte0(s[0], s[1]), Byte1(s[1], s[2])]) else None
    else
      match Bytes(s[4..])
      case None => None
      case Some(rest) => Some([Byte0(s[0], s[1]), Byte1(s[1], s[2]), Byte2(s[2], s[3])] + rest)
  }

  predicate UrlSafe(t: string) {
    forall i :: 0 <= i < |t| ==> LetterValue(t[i]).Some?
  }

  function Values(t: string): seq<Sextet>
    requires UrlSafe(t)
  {
    seq(|t|, i requires 0 <= i < |t| => LetterValue(t[i]).value)
  }

  function Decode(t: string): Option<seq<Byte>> {
    if UrlSafe(t) then Bytes(Values(t)) else None
  }

  // ---------- the three replacements give the URL-safe alphabet ----------

  lemma {:induction false} ReplacementsMapLetters(s: seq<Sextet>)
    ensures ReplaceAll(ReplaceAll(ReplaceAll(Letters(s, '+', '/'), '+', "-"), '/', "_"), '=', "") == Letters(s, '-', '_')
  {
    if s != [] {
      var t := Letters(s[1..], '+', '/');
      var c := Letter(s[0], '+', '/');
      assert Letters(s, '+', '/') == [c] + t;
      ReplaceConcat([c], t, '+', "-");
      ReplaceOne(c, '+', "-");
      var c1 := if c == '+' then '-' else c;
      var t1 := ReplaceAll(t, '+', "-");
      ReplaceConcat([c1], t1, '/', "_");
      ReplaceOne(c1, '/', "_");
      var c2 := if c1 == '/' then '_' else c1;
      ReplaceConcat([c2], ReplaceAll(t1, '/', "_"), '=', "");
      ReplaceOne(c2, '=', "");
      ReplacementsMapLetters(s[1..]);
    }
  }

  lemma PaddingVanishes(n: nat)
    ensures ReplaceAll(ReplaceAll(ReplaceAll(Padding(n), '+', "-"), '/', "_"), '=', "") == ""
  {
    ReplaceAbsent(Padding(n), '+', "-");
    ReplaceAbsent(Padding(n), '/', "_");
    ReplaceOne('=', '=', "");
    ReplaceConcat("=", "=", '=', "");
    assert "==" == "=" + "=";
  }

  lemma EncodingIsUrlSafe(b: seq<Byte>)
    ensures Base64UrlEncode(b) == Letters(Sextets(b), '-', '_')
  {
    var letters, padding := Letters(Sextets(b), '+', '/'), Padding(|b|);
    ReplaceConcat(letters, padding, '+', "-");
    var l1, p1 := ReplaceAll(letters, '+', "-"), ReplaceAll(padding, '+', "-");
    ReplaceConcat(l1, p1, '/', "_");
    ReplaceConcat(ReplaceAll(l1, '/', "_"), ReplaceAll(p1, '/', "_"), '=', "");
    ReplacementsMapLetters(Sextets(b));
    PaddingVanishes(|b|);
  }

  // ---------- round trips ----------

  lemma LetterRoundTrip(n: Sextet)
    ensures LetterValue(Letter(n, '-', '_')) == Some(n)
  {
  }

  lemma ValueRoundTrip(c: char)
    requires LetterValue(c).Some?
    ensures Letter(LetterValue(c).value, '-', '_') == c
  {
  }

  lemma LettersRoundTrip(s: seq<Sextet>)
    ensures UrlSafe(Letters(s, '-', '_')) && Values(Letters(s, '-', '_')) == s
  {
    forall i | 0 <= i < |s| ensures LetterValue(Letters(s, '-', '_')[i]) == Some(s[i]) {
      LetterRoundTrip(s[i]);
    }
  }

  lemma ValuesRoundTrip(t: string)
    requires UrlSafe(t)
    ensures Letters(Values(t), '-', '_') == t
  {
    forall i | 0 <= i < |t| ensures Letters(Values(t), '-', '_')[i] == t[i] {
      ValueRoundTrip(t[i]);
    }
  }

  lemma GroupRoundTrip(x: Byte, y: Byte, z: Byte)
    ensures Byte0(x / 4, x % 4 * 16 + y / 16) == x
    ensures Byte1(x % 4 * 16 + y / 16, y % 16 * 4 + z / 64) == y
    ensures Byte2(y % 16 * 4 + z / 64, z % 64) == z
  {
  }

  lemma PairRoundTrip(x: Byte, y: Byte)
    ensures Bytes(Sextets([x, y])) == Some([x, y])
  {
    GroupRoundTrip(x, y, 0);
    FillIsZero(y);
    var s0: Sextet, s1: Sextet, s2: Sextet := x / 4, x % 4 * 16 + y / 16, y % 16 * 4;
    assert Sextets([x, y]) == [s0, s1, s2];
    assert Byte1(s1, s2) == y;
  }

  lemma FillIsZero(y: Byte)
    ensures y % 16 * 4 % 4 == 0
  {
  }

  lemma SingleRoundTrip(x: Byte)
    ensures Bytes(Sextets([x])) == Some([x])
  {
    GroupRoundTrip(x, 0, 0);
    var s0: Sextet, s1: Sextet := x / 4, x % 4 * 16;
    assert Sextets([x]) == [s0, s1];
  }

  lemma TripleRoundTrip(x: Byte, y: Byte, z: Byte, rest: seq<Byte>)
    requires Bytes(Sextets(rest)) == Some(rest)
    ensures Bytes(Sextets([x, y, z] + rest)) == Some([x, y, z] + rest)
  {
    GroupRoundTrip(x, y, z);
    var s0: Sextet, s1: Sextet, s2: Sextet, s3: Sextet := x / 4, x % 4 * 16 + y / 16, y % 16 * 4 + z / 64, z % 64;
    var s := Sextets([x, y, z] + rest);
    assert ([x, y, z] + rest)[3..] == rest;
    assert s == [s0, s1, s2, s3] + Sextets(rest);
    assert s[4..] == Sextets(rest);
  }

  lemma {:induction false} BytesOfSextets(b: seq<Byte>)
    ensures Bytes(Sextets(b)) == Some(b)
    decreases |b|
  {
    if |b| == 1 {
      SingleRoundTrip(b[0]);
      assert b == [b[0]];
    } else if |b| == 2 {
      PairRoundTrip(b[0], b[1]);
      assert b == [b[0], b[1]];
    } else if |b| > 2 {
      BytesOfSextets(b[3..]);
      TripleRoundTrip(b[0], b[1], b[2], b[3..]);
      assert b == [b[0], b[1], b[2]] + b[3..];
    }
  }

  lemma GroupsBack(s0: Sextet, s1: Sextet, s2: Sextet, s3: Sextet)
    ensures var x, y, z := Byte0(s0, s1), Byte1(s1, s2), Byte2(s2, s3);
      x / 4 == s0 && x % 4 * 16 + y / 16 == s1 && y % 16 * 4 + z / 64 == s2 && z % 64 == s3
  {
  }

  lemma TwoGroups(s0: Sextet, s1: Sextet)
    requires s1 % 16 == 0
    ensures Sextets([Byte0(s0, s1)]) == [s0, s1]
  {
    GroupsBack(s0, s1, 0, 0);
  }

  lemma ThreeGroups(s0: Sextet, s1: Sextet, s2: Sextet)
    requires s2 % 4 == 0
    ensures Sextets([Byte0(s0, s1), Byte1(s1, s2)]) == [s0, s1, s2]
  {
    GroupsBack(s0, s1, s2, 0);
  }

  lemma FourGroups(s0: Sextet, s1: Sextet, s2: Sextet, s3: Sextet, rest: seq<Sextet>)
    requires Bytes(rest).Some? && Sextets(Bytes(rest).value) == rest
    ensures Bytes([s0, s1, s2, s3] + rest).Some?
    ensures Sextets(Bytes([s0, s1, s2, s3] + rest).value) == [s0, s1, s2, s3] + rest
  {
    GroupsBack(s0, s1, s2, s3);
    assert ([s0, s1, s2, s3] + rest)[4..] == rest;
    var b := Bytes([s0, s1, s2, s3] + rest).value;
    assert b[3..] == Bytes(rest).value;
  }

  lemma {:induction false} SextetsOfBytes(s: seq<Sextet>)
    requires Bytes(s).Some?
    ensures Sextets(Bytes(s).value) == s
    decreases |s|
  {
    if |s| == 2 {
      TwoGroups(s[0], s[1]);
      assert s == [s[0], s[1]];
    } else if |s| == 3 {
      ThreeGroups(s[0], s[1], s[2]);
      assert s == [s[0], s[1], s[2]];
    } else if |s| > 3 {
      SextetsOfBytes(s[4..]);
      FourGroups(s[0], s[1], s[2], s[3], s[4..]);
      assert s == [s[0], s[1], s[2], s[3]] + s[4..];
    }
  }

  /** Decoding inverts encoding, and a text decodes to `b` only when it is the encoding of `b`. */
  lemma DecodeInvertsEncode(b: seq<Byte>, t: string)
    ensures Decode(Base64UrlEncode(b)) == Some(b)
    ensures Decode(t) == Some(b) <==> t == Base64UrlEncode(b)
  {
    EncodingIsUrlSafe(b);
    LettersRoundTrip(Sextets(b));
    BytesOfSextets(b);
    if Decode(t) == Some(b) {
      SextetsOfBytes(Values(t));
      ValuesRoundTrip(t);
    }
  }

  // ---------- length and alphabet ----------

  lemma {:induction false} SextetCount(b: seq<Byte>)
    ensures |Sextets(b)| == (4 * |b| + 2) / 3
    decreases |b|
  {
    if |b| > 2 {
      SextetCount(b[3..]);
    }
  }

  /** The encoding of n bytes has ceil(4n/3) characters, all of them letters, digits, - or _. */
  lemma EncodingLength(b: seq<Byte>)
    ensures |Base64UrlEncode(b)| == (4 * |b| + 2) / 3
    ensures UrlSafe(Base64UrlEncode(b))
  {
    EncodingIsUrlSafe(b);
    SextetCount(b);
    LettersRoundTrip(Sextets(b));
  }

  /** RFC 7636, section 4.1: unreserved = ALPHA / DIGIT / "-" / "." / "_" / "~" */
  predicate Unreserved(c: char) {
    'A' <= c <= 'Z' || 'a' <= c <= 'z' || '0' <= c <= '9' || c in {'-', '.', '_', '~'}
  }

  /** A verifier is made for exactly the lengths 43 to 128, with that many unreserved characters. */
  lemma VerifierIsWellFormed(length: int, random: nat -> seq<Byte>)
    requires length >= 0 ==> |random(length)| == length
    ensures var r := GenerateCodeVerifier(length, random);
      && (r.Ok? <==> 43 <= length <= 128)
      && (r.Ok? ==> |r.value| == length && forall i :: 0 <= i < length ==> Unreserved(r.value[i]))
      && (r.Ok? ==> r.value <= Base64UrlEncode(random(length)))
  {
    if 43 <= length <= 128 {
      EncodingLength(random(length));
      var t := Base64UrlEncode(random(length));
      assert forall i :: 0 <= i < |t| && LetterValue(t[i]).Some? ==> Unreserved(t[i]);
    }
  }

  /** A challenge accepts a verifier exactly when it decodes to the verifier's hash. */
  lemma ChallengeDecodesToHash(codeVerifier: string, codeChallenge: string, sha256: string -> seq<Byte>)
    ensures VerifyCodeChallenge(codeVerifier, codeChallenge, sha256) <==> Decode(codeChallenge) == Some(sha256(codeVerifier))
  {
    DecodeInvertsEncode(sha256(codeVerifier), codeChallenge);
  }

  /** So the challenge of one verifier accepts another exactly when the two hashes agree. */
  lemma ChallengeAcceptsIffHashesAgree(v: string, w: string, sha256: string -> seq<Byte>)
    ensures VerifyCodeChallenge(v, GenerateCodeChallenge(w, sha256), sha256) <==> sha256(v) == sha256(w)
  {
    ChallengeDecodesToHash(v, GenerateCodeChallenge(w, sha256), sha256);
    DecodeInvertsEncode(sha256(w), "");
  }
}

/** `s.replace(/pattern/g, '')`: cutting the leftmost matches out of a text, one after the other. */
module Cutting {

  /** `match(t)` is the length of the match at the start of `t`, 0 without one. */
  ghost predicate Lengths(matchAt: string -> nat) {
    forall t :: matchAt(t) <= |t|
  }

  ghost function Cut(s: string, matchAt: string -> nat): string
    requires Lengths(matchAt)
    decreases |s|
  {
    if s == "" then ""
    else if matchAt(s) > 0 then Cut(s[matchAt(s)..], matchAt)
    else [s[0]] + Cut(s[1..], matchAt)
  }

  /** No match starts at one of the first n positions. */
  ghost predicate NoMatchBefore(s: string, n: nat, matchAt: string -> nat)
    requires n <= |s|
  {
    forall k :: 0 <= k < n ==> matchAt(s[k..]) == 0
  }

  lemma CutPlain(s: string, matchAt: string -> nat)
    requires Lengths(matchAt) && s != "" && matchAt(s) == 0
    ensures Cut(s, matchAt) == [s[0]] + Cut(s[1..], matchAt)
  {
  }

  /** Positions in the rest of a text. */
  lemma NoMatchInTail(s: string, n: nat, matchAt: string -> nat)
    requires 0 < n <= |s| && NoMatchBefore(s, n, matchAt)
    ensures matchAt(s) == 0 && NoMatchBefore(s[1..], n - 1, matchAt)
  {
    assert s[0..] == s;
    forall k | 0 <= k < n - 1 ensures matchAt(s[1..][k..]) == 0 {
      assert s[1..][k..] == s[k + 1..];
    }
  }

  lemma {:induction false} CutKeepsPrefix(s: string, n: nat, matchAt: string -> nat)
    requires Lengths(matchAt) && n <= |s| && NoMatchBefore(s, n, matchAt)
    ensures Cut(s, matchAt) == s[..n] + Cut(s[n..], matchAt)
    decreases n
  {
    hide Cut, NoMatchBefore;
    if n == 0 {
      assert s[0..] == s;
    } else {
      NoMatchInTail(s, n, matchAt);
      CutPlain(s, matchAt);
      CutKeepsPrefix(s[1..], n - 1, matchAt);
      Regroup(s, n, Cut(s[n..], matchAt));
    }
  }

  lemma Regroup(s: string, n: nat, end: string)
    requires 0 < n <= |s|
    ensures s[1..][n - 1..] == s[n..]
    ensures [s[0]] + (s[1..][..n - 1] + end) == s[..n] + end
  {
    assert s[..n] == [s[0]] + s[1..][..n - 1];
  }

  lemma {:induction false} CutShrinks(s: string, matchAt: string -> nat)
    requires Lengths(matchAt)
    ensures |Cut(s, matchAt)| <= |s|
    ensures (exists k :: 0 <= k < |s| && matchAt(s[k..]) > 0) ==> |Cut(s, matchAt)| < |s|
    decreases |s|
  {
    if s != "" {
      if matchAt(s) > 0 {
        CutShrinks(s[matchAt(s)..], matchAt);
      } else {
        CutShrinks(s[1..], matchAt);
        forall k | 0 <= k < |s| && matchAt(s[k..]) > 0
          ensures exists j :: 0 <= j < |s[1..]| && matchAt(s[1..][j..]) > 0
        {
          assert s[0..] == s;
          assert s[1..][k - 1..] == s[k..];
        }
      }
    }
  }

  /** A text is left alone exactly when no match starts anywhere in it. */
  lemma CutsNothingIff(s: string, matchAt: string -> nat)
    requires Lengths(matchAt)
    ensures Cut(s, matchAt) == s <==> NoMatchBefore(s, |s|, matchAt)
  {
    CutShrinks(s, matchAt);
    if NoMatchBefore(s, |s|, matchAt) {
      CutKeepsPrefix(s, |s|, matchAt);
      assert s[..|s|] == s && s[|s|..] == "";
    }
  }

  /** Otherwise the text before the first match is kept, the match is dropped, and the rest is cut likewise. */
  lemma CutsFirstMatch(before: string, rest: string, matchAt: string -> nat)
    requires Lengths(matchAt) && NoMatchBefore(before + rest, |before|, matchAt) && matchAt(rest) > 0
    ensures Cut(before + rest, matchAt) == before + Cut(rest[matchAt(rest)..], matchAt)
  {
    CutKeepsPrefix(before + rest, |before|, matchAt);
    CutMatch(rest, matchAt);
    hide Cut, NoMatchBefore;
    assert (before + rest)[|before|..] == rest && (before + rest)[..|before|] == before;
  }

  lemma CutMatch(s: string, matchAt: string -> nat)
    requires Lengths(matchAt) && matchAt(s) > 0
    ensures s != "" && Cut(s, matchAt) == Cut(s[matchAt(s)..], matchAt)
  {
  }

  // ---------- the whole text as kept and dropped pieces ----------

  /** A stretch that is kept, and the match after it. */
  datatype Piece = Piece(kept: string, dropped: string)

  function Whole(pieces: seq<Piece>, tail: string): string {
    if pieces == [] then tail else pieces[0].kept + (pieces[0].dropped + Whole(pieces[1..], tail))
  }

  function Kept(pieces: seq<Piece>, tail: string): string {
    if pieces == [] then tail else pieces[0].kept + Kept(pieces[1..], tail)
  }

  /** Every dropped piece is the match at its place, and no match starts inside a kept piece. */
  ghost predicate Leftmost(pieces: seq<Piece>, tail: string, matchAt: string -> nat) {
    if pieces == [] then NoMatchBefore(tail, |tail|, matchAt)
    else
      var rest := pieces[0].dropped + Whole(pieces[1..], tail);
      && NoMatchBefore(pieces[0].kept + rest, |pieces[0].kept|, matchAt)
      && |pieces[0].dropped| > 0 && matchAt(rest) == |pieces[0].dropped|
      && Leftmost(pieces[1..], tail, matchAt)
  }

  /** The text is such a sequence of pieces, and the result is the kept ones in order. */
  lemma {:induction false} CutLeavesKeptPieces(s: string, matchAt: string -> nat) returns (pieces: seq<Piece>, tail: string)
    requires Lengths(matchAt)
    ensures Whole(pieces, tail) == s && Kept(pieces, tail) == Cut(s, matchAt) && Leftmost(pieces, tail, matchAt)
    decreases |s|
  {
    if k :| 0 <= k < |s| && matchAt(s[k..]) > 0 {
      var n := FirstMatch(s, k, matchAt);
      var rest := s[n..];
      var m := matchAt(rest);
      var more, end := CutLeavesKeptPieces(rest[m..], matchAt);
      pieces, tail := [Piece(s[..n], rest[..m])] + more, end;
      assert pieces[1..] == more;
      assert rest[..m] + rest[m..] == rest && s[..n] + rest == s;
      CutsFirstMatch(s[..n], rest, matchAt);
    } else {
      pieces, tail := [], s;
      CutsNothingIff(s, matchAt);
    }
  }

  lemma {:induction false} FirstMatch(s: string, k: nat, matchAt: string -> nat) returns (n: nat)
    requires k < |s| && matchAt(s[k..]) > 0
    ensures n < |s| && matchAt(s[n..]) > 0 && NoMatchBefore(s, n, matchAt)
    decreases k
  {
    if j :| 0 <= j < k && matchAt(s[j..]) > 0 {
      n := FirstMatch(s, j, matchAt);
    } else {
      n := k;
    }
  }
}

/**
  `clean_response`: one `re.sub` with the pattern `\[INST\]|\[/INST\]` and an
  empty replacement, then `str.strip()`.

  `re.sub` scans left to right; at each position it tries the first
  alternative, then the second, and either drops the match and resumes just
  after it or keeps one character and moves on. `RemoveTokens` is that scan.
  The declarative account of the same substitution is a segmentation of the
  input into dropped tokens and kept characters (`Piece`), where a character
  is kept only at a position at which no token starts.
 */
module Sanitizer {
  import opened PyString

  const OpenTag: string := "[INST]"
  const CloseTag: string := "[/INST]"

  /** Which alternative of the pattern matches at the head of a string. */
  datatype Match = NoMatch | OpenMatch | CloseMatch

  /** The match `re` finds at the head of `s`. The alternatives are disjoint:
      their second characters differ, so at most one of them can match. */
  function MatchAt(s: string): (m: Match)
    ensures m == OpenMatch <==> OpenTag <= s
    ensures m == CloseMatch <==> CloseTag <= s
  {
    if OpenTag <= s then
      assert s[1] == 'I' != CloseTag[1];
      OpenMatch
    else if CloseTag <= s then CloseMatch
    else NoMatch
  }

  /** `re.sub(r'\[INST\]|\[/INST\]', '', s)`: never longer than its input. */
  function RemoveTokens(s: string): (r: string)
    ensures |r| <= |s|
    decreases |s|
  {
    if s == [] then []
    else match MatchAt(s)
      case OpenMatch => RemoveTokens(s[|OpenTag|..])
      case CloseMatch => RemoveTokens(s[|CloseTag|..])
      case NoMatch => [s[0]] + RemoveTokens(s[1..])
  }

  /** `clean_response(s)`: no whitespace at either end, what is left of the
      token-free text once its whitespace margins are cut off, and a
      subsequence of the input (kept characters stay in order, nothing is
      added). */
  function CleanResponse(s: string): (r: string)
    ensures Trimmed(r)
    ensures IsCore(r, RemoveTokens(s))
    ensures IsSubsequence(r, s)
  {
    var t := RemoveTokens(s);
    StripSubsequence(t);
    RemoveTokensSubsequence(s);
    SubsequenceTransitive(Strip(t), t, s);
    Strip(t)
  }

  // ---------------------------------------------------------------------
  // Subsequences

  /** `a` is obtained from `b` by deleting characters, keeping the order. */
  predicate IsSubsequence(a: string, b: string)
    decreases |b|
  {
    if a == [] then true
    else if b == [] then false
    else (a[0] == b[0] && IsSubsequence(a[1..], b[1..])) || IsSubsequence(a, b[1..])
  }

  lemma {:induction false} SubsequenceTransitive(a: string, b: string, c: string)
    requires IsSubsequence(a, b) && IsSubsequence(b, c)
    ensures IsSubsequence(a, c)
    decreases |c|
  {
    if a != [] {
      if IsSubsequence(b, c[1..]) {
        SubsequenceTransitive(a, b, c[1..]);
      } else if a[0] == b[0] && IsSubsequence(a[1..], b[1..]) {
        SubsequenceTransitive(a[1..], b[1..], c[1..]);
      } else {
        SubsequenceTransitive(a, b[1..], c[1..]);
      }
    }
  }

  /** Every slice of a string is a subsequence of it. */
  lemma {:induction false} SliceIsSubsequence(s: string, i: nat, j: nat)
    requires i <= j <= |s|
    ensures IsSubsequence(s[i..j], s)
    decreases |s|
  {
    if i > 0 {
      SliceIsSubsequence(s[1..], i - 1, j - 1);
      assert s[1..][i - 1..j - 1] == s[i..j];
    } else if j > 0 {
      SliceIsSubsequence(s[1..], 0, j - 1);
      assert s[1..][0..j - 1] == s[0..j][1..];
    }
  }

  /** Stripping only cuts characters off the ends. */
  lemma StripSubsequence(t: string)
    ensures IsSubsequence(Strip(t), t)
  {
    var r := Strip(t);
    var i: nat :| IsCoreAt(r, t, i);
    SliceIsSubsequence(t, i, i + |r|);
  }

  /** Removing tokens only deletes characters: what is kept stays in order and
      nothing is added. */
  lemma {:induction false} RemoveTokensSubsequence(s: string)
    ensures IsSubsequence(RemoveTokens(s), s)
    decreases |s|
  {
    if s != [] {
      var r := RemoveTokens(s);
      match MatchAt(s)
      case OpenMatch =>
        RemoveTokensSubsequence(s[|OpenTag|..]);
        SliceIsSubsequence(s, |OpenTag|, |s|);
        assert s[|OpenTag|..|s|] == s[|OpenTag|..];
        SubsequenceTransitive(r, s[|OpenTag|..], s);
      case CloseMatch =>
        RemoveTokensSubsequence(s[|CloseTag|..]);
        SliceIsSubsequence(s, |CloseTag|, |s|);
        assert s[|CloseTag|..|s|] == s[|CloseTag|..];
        SubsequenceTransitive(r, s[|CloseTag|..], s);
      case NoMatch =>
        RemoveTokensSubsequence(s[1..]);
        assert r[0] == s[0] && r[1..] == RemoveTokens(s[1..]);
    }
  }

  // ---------------------------------------------------------------------
  // Text without tokens

  /** No token starts anywhere in `s`. */
  predicate TokenFree(s: string) {
    forall i :: 0 <= i <= |s| ==> MatchAt(s[i..]) == NoMatch
  }

  /** A token-free text passes through the substitution untouched. */
  lemma {:induction false} RemoveTokensTokenFree(s: string)
    requires TokenFree(s)
    ensures RemoveTokens(s) == s
    decreases |s|
  {
    if s != [] {
      assert MatchAt(s[0..]) == NoMatch;
      assert s[0..] == s;
      assert TokenFree(s[1..]) by {
        forall i | 0 <= i <= |s[1..]| ensures MatchAt(s[1..][i..]) == NoMatch {
          assert s[1..][i..] == s[i + 1..];
        }
      }
      RemoveTokensTokenFree(s[1..]);
    }
  }

  /** With no token and no surrounding whitespace, `clean_response` is the
      identity. */
  lemma CleanResponseUnchanged(s: string)
    requires TokenFree(s) && Trimmed(s)
    ensures CleanResponse(s) == s
  {
    RemoveTokensTokenFree(s);
    StripTrimmed(s);
  }

  // ---------------------------------------------------------------------
  // The substitution as a segmentation of the input

  /** One step of the scan: a dropped token or a kept character. */
  datatype Piece = Dropped(token: string) | Kept(c: char)

  function PieceText(p: Piece): string {
    match p
    case Dropped(t) => t
    case Kept(c) => [c]
  }

  /** The text the pieces were cut from. */
  function Source(ps: seq<Piece>): string
    decreases |ps|
  {
    if ps == [] then [] else PieceText(ps[0]) + Source(ps[1..])
  }

  /** The characters the pieces keep, in order. */
  function Output(ps: seq<Piece>): string
    decreases |ps|
  {
    if ps == [] then []
    else match ps[0]
      case Dropped(_) => Output(ps[1..])
      case Kept(c) => [c] + Output(ps[1..])
  }

  /** How many pieces drop the token `t`. */
  function DropCount(ps: seq<Piece>, t: string): nat
    decreases |ps|
  {
    if ps == [] then 0
    else (if ps[0] == Dropped(t) then 1 else 0) + DropCount(ps[1..], t)
  }

  /** The segmentation a leftmost, non-overlapping substitution makes: each
      dropped piece is one of the two tokens, and a character is kept only
      where no token starts. */
  predicate LeftmostScan(ps: seq<Piece>)
    decreases |ps|
  {
    ps == [] ||
    ((match ps[0]
      case Dropped(t) => t == OpenTag || t == CloseTag
      case Kept(_) => MatchAt(Source(ps)) == NoMatch)
     && LeftmostScan(ps[1..]))
  }

  /** An input has exactly one leftmost segmentation. */
  lemma {:induction false} LeftmostScanUnique(ps: seq<Piece>, qs: seq<Piece>)
    requires LeftmostScan(ps) && LeftmostScan(qs) && Source(ps) == Source(qs)
    ensures ps == qs
    decreases |ps|
  {
    if ps != [] && qs != [] {
      var s := Source(ps);
      assert s == PieceText(ps[0]) + Source(ps[1..]);
      assert s == PieceText(qs[0]) + Source(qs[1..]);
      assert PieceText(ps[0]) <= s && PieceText(qs[0]) <= s;
      assert ps[0] == qs[0];
      var n := |PieceText(ps[0])|;
      assert Source(ps[1..]) == s[n..] == Source(qs[1..]);
      LeftmostScanUnique(ps[1..], qs[1..]);
    }
  }

  /** The leftmost segmentation of `s`. */
  function Segment(s: string): (ps: seq<Piece>)
    ensures Source(ps) == s && LeftmostScan(ps)
    decreases |s|
  {
    if s == [] then []
    else match MatchAt(s)
      case OpenMatch =>
        assert s == OpenTag + s[|OpenTag|..];
        [Dropped(OpenTag)] + Segment(s[|OpenTag|..])
      case CloseMatch =>
        assert s == CloseTag + s[|CloseTag|..];
        [Dropped(CloseTag)] + Segment(s[|CloseTag|..])
      case NoMatch =>
        assert s == [s[0]] + s[1..];
        [Kept(s[0])] + Segment(s[1..])
  }

  /** The scan computes the substitution: whatever leftmost segmentation is
      cut from the input, `RemoveTokens` returns the characters it keeps, and
      the length drops by 6 for every `[INST]` and 7 for every `[/INST]`
      removed. */
  lemma {:induction false} RemoveTokensIsLeftmostScan(ps: seq<Piece>)
    requires LeftmostScan(ps)
    ensures RemoveTokens(Source(ps)) == Output(ps)
    ensures |Output(ps)| ==
      |Source(ps)| - 6 * DropCount(ps, OpenTag) - 7 * DropCount(ps, CloseTag)
    decreases |ps|
  {
    if ps != [] {
      var s := Source(ps);
      RemoveTokensIsLeftmostScan(ps[1..]);
      assert s == PieceText(ps[0]) + Source(ps[1..]);
      match ps[0]
      case Dropped(t) =>
        assert t <= s;
        assert s[|t|..] == Source(ps[1..]);
      case Kept(c) =>
        assert s[1..] == Source(ps[1..]);
    }
  }

  /** Length before trimming, for every input. */
  lemma RemoveTokensLength(s: string)
    ensures |RemoveTokens(s)| ==
      |s| - 6 * DropCount(Segment(s), OpenTag) - 7 * DropCount(Segment(s), CloseTag)
  {
    RemoveTokensIsLeftmostScan(Segment(s));
  }

  // ---------------------------------------------------------------------
  // One pass can create a token

  /** Removing the inner `[INST]` of `[IN[INST]ST]` joins its neighbours into a
      new `[INST]`; so `clean_response` is not idempotent and its output may
      still contain a token. */
  lemma RemovalCanCreateToken(s: string)
    requires s == "[IN[INST]ST]"
    ensures CleanResponse(s) == OpenTag
    ensures CleanResponse(CleanResponse(s)) == []
  {
    assert RemoveTokens(s[9..]) == s[9..] by {
      NoBracketTokenFree(s[9..]);
      RemoveTokensTokenFree(s[9..]);
    }
    assert s[3..][|OpenTag|..] == s[9..];
    DropsOpenTag(s[3..]);
    assert s[2..][0] == 'N' && s[2..][1..] == s[3..];
    KeepsHead(s[2..]);
    assert s[1..][0] == 'I' && s[1..][1..] == s[2..];
    KeepsHead(s[1..]);
    assert s[3] != OpenTag[3] && s[1] != CloseTag[1];
    KeepsHead(s);
    assert RemoveTokens(s) == OpenTag;
    StripTrimmed(OpenTag);
    assert OpenTag[|OpenTag|..] == [];
    DropsOpenTag(OpenTag);
    StripTrimmed([]);
  }

  /** A scan step that keeps the first character. */
  lemma KeepsHead(s: string)
    requires s != [] && MatchAt(s) == NoMatch
    ensures RemoveTokens(s) == [s[0]] + RemoveTokens(s[1..])
  {
  }

  /** A scan step that drops an `[INST]`. */
  lemma DropsOpenTag(s: string)
    requires OpenTag <= s
    ensures RemoveTokens(s) == RemoveTokens(s[|OpenTag|..])
  {
  }

  /** Both tokens start with `[`, so a text without `[` is token-free. */
  lemma NoBracketTokenFree(s: string)
    requires forall i :: 0 <= i < |s| ==> s[i] != '['
    ensures TokenFree(s)
  {
    forall i | 0 <= i <= |s| ensures MatchAt(s[i..]) == NoMatch {
      if i < |s| { assert s[i..][0] == s[i]; }
    }
  }
}

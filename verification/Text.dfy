/** Splitting text at a separator. */
module Text {
  /** Unicode white space, as `str.isspace` has it. */
  predicate IsSpace(c: char) {
    || '\t' <= c <= '\r' || '\U{1C}' <= c <= ' ' || c == '\U{85}' || c == '\U{A0}' || c == '\U{1680}'
    || '\U{2000}' <= c <= '\U{200A}' || c == '\U{2028}' || c == '\U{2029}' || c == '\U{202F}'
    || c == '\U{205F}' || c == '\U{3000}'
  }

  /** Position of the first `c`, or the length when there is none. */
  function Find(s: string, c: char): (i: nat)
    ensures i <= |s|
    ensures forall j :: 0 <= j < i ==> s[j] != c
    ensures i < |s| ==> s[i] == c
  {
    if s == "" || s[0] == c then 0 else 1 + Find(s[1..], c)
  }

  lemma {:induction false} FindIs(s: string, c: char, i: nat)
    requires i <= |s| && c !in s[..i] && (i < |s| ==> s[i] == c)
    ensures Find(s, c) == i
  {
    assert forall j :: 0 <= j < i ==> s[j] == s[..i][j];
  }

  /** The separator sits right after a part that does not hold it. */
  lemma {:induction false} FindAfter(a: string, c: char, b: string)
    requires c !in a
    ensures Find(a + [c] + b, c) == |a|
    ensures (a + [c] + b)[..|a|] == a && (a + [c] + b)[|a| + 1..] == b
  {
    var s := a + [c] + b;
    assert s[..|a|] == a;
    FindIs(s, c, |a|);
  }

  lemma {:induction false} FindSplits(s: string, c: char)
    requires c in s
    ensures var i := Find(s, c); i < |s| && s == s[..i] + [c] + s[i + 1..]
  {
  }

  /** The pieces between separators: always one more piece than separators. */
  function Split(s: string, c: char): seq<string> {
    var i := Find(s, c);
    if i == |s| then [s] else [s[..i]] + Split(s[i + 1..], c)
  }

  function Join(pieces: seq<string>, c: char): string {
    if pieces == [] then ""
    else if |pieces| == 1 then pieces[0]
    else pieces[0] + [c] + Join(pieces[1..], c)
  }

  /** Joining pieces and splitting again gives them back exactly when none of
      them holds the separator. */
  lemma {:induction false} SplitInvertsJoin(pieces: seq<string>, c: char)
    requires pieces != []
    ensures Split(Join(pieces, c), c) == pieces <==> AllWithout(pieces, c)
  {
    PiecesAreClean(Join(pieces, c), c);
    if AllWithout(pieces, c) {
      CleanPiecesSplit(pieces, c);
    }
  }

  lemma {:induction false} CleanPiecesSplit(pieces: seq<string>, c: char)
    requires pieces != [] && AllWithout(pieces, c)
    ensures Split(Join(pieces, c), c) == pieces
    decreases |pieces|
  {
    if |pieces| == 1 {
      FindIs(pieces[0], c, |pieces[0]|);
    } else {
      FindAfter(pieces[0], c, Join(pieces[1..], c));
      CleanPiecesSplit(pieces[1..], c);
      assert pieces == [pieces[0]] + pieces[1..];
    }
  }

  /** Splitting loses nothing. */
  lemma {:induction false} JoinInvertsSplit(s: string, c: char)
    ensures Split(s, c) != [] && Join(Split(s, c), c) == s
    decreases |s|
  {
    var i := Find(s, c);
    if i < |s| {
      JoinInvertsSplit(s[i + 1..], c);
      var rest := Split(s[i + 1..], c);
      assert ([s[..i]] + rest)[1..] == rest;
      assert s == s[..i] + [c] + s[i + 1..];
    }
  }

  lemma {:induction false} PiecesAreClean(s: string, c: char)
    ensures AllWithout(Split(s, c), c)
    decreases |s|
  {
    var i := Find(s, c);
    if i < |s| {
      PiecesAreClean(s[i + 1..], c);
      assert c !in s[..i];
    }
  }

  lemma {:induction false} SplitCounts(a: string, c: char, b: string)
    ensures |Split(a + [c] + b, c)| == |Split(a, c)| + |Split(b, c)|
    decreases |a|
  {
    var i := Find(a, c);
    var s := a + [c] + b;
    if i == |a| {
      FindAfter(a, c, b);
    } else {
      assert s[..i] == a[..i];
      FindIs(s, c, i);
      assert s[i + 1..] == a[i + 1..] + [c] + b;
      SplitCounts(a[i + 1..], c, b);
    }
  }

  predicate AllWithout(pieces: seq<string>, c: char) {
    forall k :: 0 <= k < |pieces| ==> c !in pieces[k]
  }

  /** A piece holding the separator adds pieces, and nothing takes any away. */
  lemma {:induction false} JoinedPieces(pieces: seq<string>, c: char)
    requires pieces != []
    ensures |Split(Join(pieces, c), c)| >= |pieces|
    ensures |Split(Join(pieces, c), c)| == |pieces| <==> AllWithout(pieces, c)
    decreases |pieces|
  {
    OnePiece(pieces[0], c);
    if |pieces| > 1 {
      JoinedPieces(pieces[1..], c);
      SplitCounts(pieces[0], c, Join(pieces[1..], c));
    }
  }

  lemma {:induction false} OnePiece(s: string, c: char)
    ensures |Split(s, c)| >= 1
    ensures |Split(s, c)| == 1 <==> c !in s
  {
    var i := Find(s, c);
    if i < |s| {
      assert s[i] in s;
    }
  }

  /** `p` occurs somewhere in `s`. */
  predicate Contains(s: string, p: string) {
    p <= s || (s != "" && Contains(s[1..], p))
  }

  /** Leftmost, non-overlapping replacement. */
  function Replace(s: string, p: string, into: string): string
    requires p != ""
    decreases |s|
  {
    if s == "" then ""
    else if p <= s then into + Replace(s[|p|..], p, into)
    else [s[0]] + Replace(s[1..], p, into)
  }

  /** Replacing brings in no characters but those of the replacement. */
  lemma {:induction false} ReplacedCharacters(s: string, p: string, into: string, c: char)
    requires p != "" && c !in s && c !in into
    ensures c !in Replace(s, p, into)
    decreases |s|
  {
    if s != "" {
      if p <= s {
        ReplacedCharacters(s[|p|..], p, into, c);
      } else {
        ReplacedCharacters(s[1..], p, into, c);
      }
    }
  }

  /** What a replacement does to a character that is in no placeholder: it stays
      where it was, and comes in with the replacement. */
  lemma {:induction false} ReplacedKeeps(s: string, p: string, into: string, c: char)
    requires p != "" && c !in p
    ensures c in Replace(s, p, into) <==> c in s || (Contains(s, p) && c in into)
    decreases |s|
  {
    if s != "" {
      if p <= s {
        ReplacedKeeps(s[|p|..], p, into, c);
        assert s == p + s[|p|..];
        if Contains(s[|p|..], p) {
          assert Contains(s, p);
        }
      } else {
        ReplacedKeeps(s[1..], p, into, c);
        assert s == [s[0]] + s[1..];
      }
    }
  }

  function TrimLeft(s: string, blank: char -> bool): string {
    if s != "" && blank(s[0]) then TrimLeft(s[1..], blank) else s
  }

  function TrimRight(s: string, blank: char -> bool): string {
    if s != "" && blank(s[|s| - 1]) then TrimRight(s[..|s| - 1], blank) else s
  }

  function Trim(s: string, blank: char -> bool): string {
    TrimRight(TrimLeft(s, blank), blank)
  }

  predicate IsTrimmed(s: string, blank: char -> bool) {
    s == "" || (!blank(s[0]) && !blank(s[|s| - 1]))
  }

  lemma {:induction false} TrimLeftIs(s: string, blank: char -> bool)
    ensures TrimLeft(s, blank) == "" || !blank(TrimLeft(s, blank)[0])
    ensures |TrimLeft(s, blank)| <= |s| && TrimLeft(s, blank) == s[|s| - |TrimLeft(s, blank)|..]
    decreases |s|
  {
    if s != "" && blank(s[0]) {
      TrimLeftIs(s[1..], blank);
    }
  }

  lemma {:induction false} TrimRightIs(s: string, blank: char -> bool)
    ensures TrimRight(s, blank) <= s
    ensures TrimRight(s, blank) == "" || !blank(TrimRight(s, blank)[|TrimRight(s, blank)| - 1])
    decreases |s|
  {
    if s != "" && blank(s[|s| - 1]) {
      TrimRightIs(s[..|s| - 1], blank);
    }
  }

  /** Trimming changes nothing exactly when neither end is blank. */
  lemma {:induction false} TrimKeeps(s: string, blank: char -> bool)
    ensures Trim(s, blank) == s <==> IsTrimmed(s, blank)
  {
    TrimLeftIs(s, blank);
    TrimRightIs(TrimLeft(s, blank), blank);
  }

  lemma {:induction false} TrimsAgree(s: string, f: char -> bool, g: char -> bool)
    requires forall k :: 0 <= k < |s| ==> f(s[k]) == g(s[k])
    ensures Trim(s, f) == Trim(s, g)
  {
    LeftTrimsAgree(s, f, g);
    TrimLeftIs(s, f);
    RightTrimsAgree(TrimLeft(s, f), f, g);
  }

  lemma {:induction false} LeftTrimsAgree(s: string, f: char -> bool, g: char -> bool)
    requires forall k :: 0 <= k < |s| ==> f(s[k]) == g(s[k])
    ensures TrimLeft(s, f) == TrimLeft(s, g)
    decreases |s|
  {
    if s != "" {
      LeftTrimsAgree(s[1..], f, g);
    }
  }

  lemma {:induction false} RightTrimsAgree(s: string, f: char -> bool, g: char -> bool)
    requires forall k :: 0 <= k < |s| ==> f(s[k]) == g(s[k])
    ensures TrimRight(s, f) == TrimRight(s, g)
    decreases |s|
  {
    if s != "" {
      RightTrimsAgree(s[..|s| - 1], f, g);
    }
  }
}

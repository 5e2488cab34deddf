/** Stable release versions `X.Y.Z`, ordered as tuples. */
module Versions {
  import opened Decimal
  import opened Text
  import opened Wrappers

  datatype Version = Version(major: nat, minor: nat, patch: nat)

  predicate Below(a: Version, b: Version) {
    || a.major < b.major
    || (a.major == b.major && a.minor < b.minor)
    || (a.major == b.major && a.minor == b.minor && a.patch < b.patch)
  }

  predicate AtMost(a: Version, b: Version) { a == b || Below(a, b) }

  function Later(a: Version, b: Version): Version { if Below(a, b) then b else a }

  function Dotted(a: string, b: string, c: string): string {
    a + ['.'] + (b + ['.'] + c)
  }

  function ShowVersion(v: Version): string {
    Dotted(Show(v.major), Show(v.minor), Show(v.patch))
  }

  /** What stands before and after the first dot. */
  function CutAtDot(s: string): Option<(string, string)> {
    var i := Find(s, '.');
    if i == |s| then None else Some((s[..i], s[i + 1..]))
  }

  /** What stands before the first dot, up to the second, and after it. */
  function Parts(s: string): Option<(string, string, string)> {
    match CutAtDot(s)
    case None => None
    case Some((a, rest)) =>
      match CutAtDot(rest)
      case None => None
      case Some((b, c)) => Some((a, b, c))
  }

  /** Decimal digits as the pattern `\d` and `int` take them: the ASCII ones and
      any others Unicode has. */
  type Digits = char -> Option<nat>

  ghost predicate IsDigits(d: Digits) {
    && (forall c :: d(c).Some? ==> d(c).value < 10)
    && (forall c :: IsDigit(c) ==> d(c) == Some(DigitValue(c)))
    && d('.').None?
  }

  /** A number part: zero alone, or a first digit that is ASCII and not zero. */
  predicate IsPart(d: Digits, s: string) {
    s == "0" || (s != "" && '1' <= s[0] <= '9' && forall k :: 0 <= k < |s| ==> d(s[k]).Some?)
  }

  /** Every digit in its ASCII form. */
  function Ascii(d: Digits, s: string): (r: string)
    ensures |r| == |s|
    ensures forall k :: 0 <= k < |s| ==> r[k] == if d(s[k]).Some? && d(s[k]).value < 10 then Digit(d(s[k]).value) else s[k]
  {
    seq(|s|, k requires 0 <= k < |s| => if d(s[k]).Some? && d(s[k]).value < 10 then Digit(d(s[k]).value) else s[k])
  }

  function Number(d: Digits, s: string): nat {
    if IsNumeral(Ascii(d, s)) then Value(Ascii(d, s)) else 0
  }

  /** Parse a version, or refuse the text. */
  function VersionKey(d: Digits, s: string): Option<Version> {
    match Parts(s)
    case None => None
    case Some((a, b, c)) =>
      if IsPart(d, a) && IsPart(d, b) && IsPart(d, c)
      then Some(Version(Number(d, a), Number(d, b), Number(d, c)))
      else None
  }

  lemma {:induction false} PartsOfDotted(a: string, b: string, c: string)
    requires '.' !in a && '.' !in b
    ensures Parts(Dotted(a, b, c)) == Some((a, b, c))
  {
    FindAfter(a, '.', b + ['.'] + c);
    FindAfter(b, '.', c);
  }

  lemma {:induction false} PartsAreDotted(s: string)
    requires Parts(s).Some?
    ensures var (a, b, c) := Parts(s).value; s == Dotted(a, b, c)
  {
    var i := Find(s, '.');
    FindSplits(s, '.');
    FindSplits(s[i + 1..], '.');
  }

  lemma {:induction false} AsciiCut(d: Digits, s: string)
    requires IsDigits(d)
    ensures CutAtDot(Ascii(d, s)) == match CutAtDot(s)
      case None => None
      case Some((a, b)) => Some((Ascii(d, a), Ascii(d, b)))
  {
    var i := Find(s, '.');
    if i < |s| {
      assert Ascii(d, s)[..i] == Ascii(d, s[..i]);
      assert Ascii(d, s)[i + 1..] == Ascii(d, s[i + 1..]);
    }
  }

  lemma {:induction false} AsciiParts(d: Digits, s: string)
    requires IsDigits(d)
    ensures Parts(Ascii(d, s)) == match Parts(s)
      case None => None
      case Some((a, b, c)) => Some((Ascii(d, a), Ascii(d, b), Ascii(d, c)))
  {
    AsciiCut(d, s);
    if CutAtDot(s).Some? {
      AsciiCut(d, CutAtDot(s).value.1);
    }
  }

  /** Each number opens with an ASCII digit. */
  ghost predicate OpensInAscii(d: Digits, s: string) {
    match Parts(s)
    case None => true
    case Some((a, b, c)) => OpensSame(d, a) && OpensSame(d, b) && OpensSame(d, c)
  }

  predicate OpensSame(d: Digits, s: string) { s != "" ==> s[0] == Ascii(d, s)[0] }

  lemma {:induction false} PartSpells(d: Digits, s: string, n: nat)
    requires IsDigits(d)
    ensures IsPart(d, s) && Number(d, s) == n <==> Ascii(d, s) == Show(n) && OpensSame(d, s)
  {
    ShowIsCanonical(n);
    if IsPart(d, s) {
      ValueOfCanonical(Ascii(d, s));
    }
  }

  lemma {:induction false} PartsOfVersion(v: Version)
    ensures Parts(ShowVersion(v)) == Some((Show(v.major), Show(v.minor), Show(v.patch)))
  {
    ShowIsCanonical(v.major);
    ShowIsCanonical(v.minor);
    PartsOfDotted(Show(v.major), Show(v.minor), Show(v.patch));
  }

  /** A text parses to a version exactly when, with its digits in ASCII, it is that
      version's one spelling, and each number opens in ASCII. */
  lemma {:induction false} VersionKeyInvertsShow(d: Digits, v: Version, s: string)
    requires IsDigits(d)
    ensures VersionKey(d, s) == Some(v) <==> Ascii(d, s) == ShowVersion(v) && OpensInAscii(d, s)
  {
    AsciiParts(d, s);
    PartsOfVersion(v);
    if Parts(s).Some? {
      var (a, b, c) := Parts(s).value;
      PartSpells(d, a, v.major);
      PartSpells(d, b, v.minor);
      PartSpells(d, c, v.patch);
      PartsAreDotted(Ascii(d, s));
    }
  }

  ghost predicate IsAscii(s: string) {
    forall k :: 0 <= k < |s| ==> s[k] < '\U{80}'
  }

  /** Among ASCII texts the spelling is unique, when only ASCII digits are ASCII. */
  lemma {:induction false} OneAsciiSpelling(d: Digits, v: Version, s: string)
    requires IsDigits(d) && IsAscii(s) && forall c :: c < '\U{80}' && d(c).Some? ==> IsDigit(c)
    ensures VersionKey(d, s) == Some(v) <==> s == ShowVersion(v)
  {
    forall k | 0 <= k < |s|
      ensures Ascii(d, s)[k] == s[k]
    {
      assert IsDigit(s[k]) ==> Digit(DigitValue(s[k])) == s[k];
    }
    assert Ascii(d, s) == s;
    SameOpens(d, s);
    VersionKeyInvertsShow(d, v, s);
  }

  lemma {:induction false} SameOpens(d: Digits, s: string)
    requires IsDigits(d) && Ascii(d, s) == s
    ensures OpensInAscii(d, s)
  {
    AsciiParts(d, s);
  }

  lemma {:induction false} ShowTeen(n: nat)
    requires n < 10
    ensures Show(10 + n) == ['1', Digit(n)] && Show(0) == "0"
  {
    assert Show(1) == "1" && Show(10 + n) == Show(1) + [Digit(n)];
  }

  lemma {:induction false} TeenParts(d: Digits, c: char, n: nat)
    requires IsDigits(d) && d(c) == Some(n)
    ensures IsPart(d, ['1', c]) && Number(d, ['1', c]) == 10 + n && IsPart(d, "0") && Number(d, "0") == 0
  {
    ShowTeen(n);
    assert Ascii(d, ['1', c]) == Show(10 + n) && Ascii(d, "0") == Show(0);
    PartSpells(d, ['1', c], 10 + n);
    PartSpells(d, "0", 0);
  }

  /** A digit that is not ASCII gives a version a second spelling. */
  lemma {:induction false} SecondSpelling(d: Digits, c: char, n: nat)
    requires IsDigits(d) && d(c) == Some(n) && !IsDigit(c)
    ensures var s := Dotted(['1', c], "0", "0");
      VersionKey(d, s) == Some(Version(10 + n, 0, 0)) && s != ShowVersion(Version(10 + n, 0, 0))
  {
    var s := Dotted(['1', c], "0", "0");
    PartsOfDotted(['1', c], "0", "0");
    TeenParts(d, c, n);
    ShowTeen(n);
    PartsOfVersion(Version(10 + n, 0, 0));
    assert ['1', c][1] != ['1', Digit(n)][1];
  }

  predicate IsGreatest(vs: set<Version>, top: Version) {
    top in vs && forall v :: v in vs ==> AtMost(v, top)
  }

  /** A non-empty finite set of versions has a greatest element. */
  lemma {:induction false} HasGreatest(vs: set<Version>)
    requires vs != {}
    ensures exists top :: IsGreatest(vs, top)
    decreases |vs|
  {
    var some :| some in vs;
    var rest := vs - {some};
    assert vs == rest + {some};
    if rest == {} {
      assert IsGreatest(vs, some);
    } else {
      HasGreatest(rest);
      var best :| IsGreatest(rest, best);
      assert IsGreatest(vs, Later(best, some));
    }
  }

  lemma {:induction false} GreatestIsUnique(vs: set<Version>, a: Version, b: Version)
    requires IsGreatest(vs, a) && IsGreatest(vs, b)
    ensures a == b
  {
    assert AtMost(a, b) && AtMost(b, a);
  }

  function Greatest(vs: set<Version>): (top: Version)
    requires vs != {}
    ensures IsGreatest(vs, top)
  {
    HasGreatest(vs);
    assert forall a, b :: IsGreatest(vs, a) && IsGreatest(vs, b) ==> a == b by {
      forall a, b | IsGreatest(vs, a) && IsGreatest(vs, b) ensures a == b {
        GreatestIsUnique(vs, a, b);
      }
    }
    var top :| top in vs && IsGreatest(vs, top);
    top
  }
}

/** Escaping a host path for a unit line, and putting it in for a placeholder. */
module UnitEscape {
  import opened Wrappers
  import opened Text
  import opened SystemdReader

  // ---- escaping ----

  /** `mark` put before every special character. */
  function Marked(s: string, mark: char, specials: set<char>): string {
    if s == "" then ""
    else (if s[0] in specials then [mark] else "") + [s[0]] + Marked(s[1..], mark, specials)
  }

  /** The chain of replacements. */
  function EscapeWord(raw: string, dollars: bool): string {
    var escaped := Replace(Replace(Replace(raw, "\\", "\\\\"), "\"", "\\\""), "%", "%%");
    if dollars then Replace(escaped, "$", "$$") else escaped
  }

  lemma {:induction false} ReplaceMarks(s: string, c: char, mark: char)
    ensures Replace(s, [c], [mark, c]) == Marked(s, mark, {c})
    decreases |s|
  {
    if s != "" {
      ReplaceMarks(s[1..], c, mark);
      assert [c] <= s <==> s[0] == c;
    }
  }

  lemma {:induction false} MarkedStep(c: char, s: string, mark: char, specials: set<char>)
    ensures Marked([c] + s, mark, specials) == (if c in specials then [mark, c] else [c]) + Marked(s, mark, specials)
  {
    assert ([c] + s)[1..] == s;
  }

  lemma {:induction false} MarksCommute(s: string, m: char, cs: set<char>, n: char, ds: set<char>)
    requires m !in ds && n !in cs && cs !! ds
    ensures Marked(Marked(s, m, cs), n, ds) == Marked(Marked(s, n, ds), m, cs)
    decreases |s|
  {
    if s != "" {
      MarksCommute(s[1..], m, cs, n, ds);
      assert s == [s[0]] + s[1..];
    }
  }

  lemma {:induction false} MarksUnite(s: string)
    ensures Marked(Marked(s, '\\', {'\\'}), '\\', {'\"'}) == Backslashed(s)
    decreases |s|
  {
    if s != "" {
      var c, rest := s[0], s[1..];
      MarksUnite(rest);
      MarkedStep(c, Marked(rest, '\\', {'\\'}), '\\', {'\"'});
      if c == '\\' {
        assert Marked(s, '\\', {'\\'}) == ['\\'] + (['\\'] + Marked(rest, '\\', {'\\'}));
        MarkedStep('\\', ['\\'] + Marked(rest, '\\', {'\\'}), '\\', {'\"'});
      }
    }
  }

  function Backslashed(s: string): string { Marked(s, '\\', {'\\', '\"'}) }

  function Percented(s: string): string { Marked(s, '%', {'%'}) }

  /** What the word splitter will hand on: `%`, and `$` in an argument, doubled. */
  function Doubled(s: string, dollars: bool): string {
    Percented(if dollars then Marked(s, '$', {'$'}) else s)
  }

  lemma {:induction false} EscapeWordLayers(raw: string, dollars: bool)
    ensures EscapeWord(raw, dollars) == Backslashed(Doubled(raw, dollars))
  {
    var slashed := Marked(raw, '\\', {'\\'});
    ReplaceMarks(raw, '\\', '\\');
    ReplaceMarks(slashed, '\"', '\\');
    MarksUnite(raw);
    var quoted := Backslashed(raw);
    ReplaceMarks(quoted, '%', '%');
    MarksCommute(raw, '\\', {'\\', '\"'}, '%', {'%'});
    if dollars {
      ReplaceMarks(Percented(quoted), '$', '$');
      MarksCommute(quoted, '%', {'%'}, '$', {'$'});
      MarksCommute(raw, '\\', {'\\', '\"'}, '$', {'$'});
      MarksCommute(Marked(raw, '$', {'$'}), '\\', {'\\', '\"'}, '%', {'%'});
    }
  }

  // ---- substitution ----

  datatype Value = Value(placeholder: string, raw: string)

  /** Printable ASCII with no meaning to systemd's readers. */
  predicate IsPlain(c: char) {
    '!' <= c <= '~' && c !in {'\\', '\"', '\'', '%', '$'}
  }

  predicate IsPlainWord(s: string) {
    forall k :: 0 <= k < |s| ==> IsPlain(s[k])
  }

  ghost predicate Placeholders(values: seq<Value>) {
    forall v :: v in values ==> v.placeholder != "" && IsPlainWord(v.placeholder)
  }

  /** The word with the paths of the first `n` values put in, one after another. */
  function Filled(word: string, values: seq<Value>, n: nat): string
    requires n <= |values| && forall v :: v in values ==> v.placeholder != ""
  {
    if n == 0 then word
    else
      var v := values[n - 1];
      var text := Filled(word, values, n - 1);
      if Contains(word, v.placeholder) then Replace(text, v.placeholder, v.raw) else text
  }

  function EscapedValues(values: seq<Value>, dollars: bool): (r: seq<Value>)
    ensures |r| == |values|
    ensures forall k :: 0 <= k < |r| ==> r[k].placeholder == values[k].placeholder
  {
    seq(|values|, k requires 0 <= k < |values| => Value(values[k].placeholder, EscapeWord(values[k].raw, dollars)))
  }

  lemma {:induction false} MarkedConcat(a: string, b: string, mark: char, specials: set<char>)
    ensures Marked(a + b, mark, specials) == Marked(a, mark, specials) + Marked(b, mark, specials)
    decreases |a|
  {
    if a == "" {
      assert a + b == b;
    } else {
      assert (a + b)[1..] == a[1..] + b;
      MarkedConcat(a[1..], b, mark, specials);
    }
  }

  lemma {:induction false} NothingToMark(s: string, mark: char, specials: set<char>)
    requires forall k :: 0 <= k < |s| ==> s[k] !in specials
    ensures Marked(s, mark, specials) == s
    decreases |s|
  {
    if s != "" {
      NothingToMark(s[1..], mark, specials);
    }
  }

  /** An unmarked word stands at the front of a marked text exactly when it stood
      at the front of the text. */
  lemma {:induction false} FrontUnmarked(s: string, p: string, mark: char, specials: set<char>)
    requires forall k :: 0 <= k < |p| ==> p[k] != mark && p[k] !in specials
    ensures p <= Marked(s, mark, specials) <==> p <= s
    decreases |p|
  {
    if p != "" && s != "" {
      FrontUnmarked(s[1..], p[1..], mark, specials);
      var t := Marked(s, mark, specials);
      if s[0] in specials {
        assert t[0] == mark && p[0] != mark && p[0] != s[0];
      } else {
        assert t[1..] == Marked(s[1..], mark, specials) && t[0] == s[0];
        assert p <= t <==> p[0] == t[0] && p[1..] <= t[1..];
        assert p <= s <==> p[0] == s[0] && p[1..] <= s[1..];
      }
    }
  }

  lemma {:induction false} ReplaceMissesTwice(c: char, d: char, rest: string, p: string, into: string)
    requires p != "" && p[0] != c && p[0] != d
    ensures Replace([c, d] + rest, p, into) == [c, d] + Replace(rest, p, into)
  {
    assert [c, d] + rest == [c] + ([d] + rest);
  }

  /** Marking and substituting commute when the placeholder has nothing to mark. */
  lemma {:induction false} ReplaceMarked(s: string, p: string, into: string, mark: char, specials: set<char>)
    requires p != "" && forall k :: 0 <= k < |p| ==> p[k] != mark && p[k] !in specials
    ensures Replace(Marked(s, mark, specials), p, Marked(into, mark, specials)) == Marked(Replace(s, p, into), mark, specials)
    decreases |s|, 1
  {
    if s != "" {
      if p <= s {
        ReplaceMarkedHit(s[|p|..], p, into, mark, specials);
        assert s == p + s[|p|..];
      } else {
        assert s == [s[0]] + s[1..];
        ReplaceMarkedMiss(s[0], s[1..], p, into, mark, specials);
      }
    }
  }

  lemma {:induction false} ReplaceMarkedHit(rest: string, p: string, into: string, mark: char, specials: set<char>)
    requires p != "" && forall k :: 0 <= k < |p| ==> p[k] != mark && p[k] !in specials
    ensures Replace(Marked(p + rest, mark, specials), p, Marked(into, mark, specials)) == Marked(Replace(p + rest, p, into), mark, specials)
    decreases |rest| + |p|, 0
  {
    ReplaceMarked(rest, p, into, mark, specials);
    MarkedConcat(p, rest, mark, specials);
    NothingToMark(p, mark, specials);
    MarkedConcat(into, Replace(rest, p, into), mark, specials);
  }

  lemma {:induction false} ReplaceMarkedMiss(c: char, rest: string, p: string, into: string, mark: char, specials: set<char>)
    requires p != "" && forall k :: 0 <= k < |p| ==> p[k] != mark && p[k] !in specials
    requires !(p <= [c] + rest)
    ensures Replace(Marked([c] + rest, mark, specials), p, Marked(into, mark, specials)) == Marked(Replace([c] + rest, p, into), mark, specials)
    decreases |rest| + 1, 0
  {
    var t, filler := Marked(rest, mark, specials), Marked(into, mark, specials);
    ReplaceMarked(rest, p, into, mark, specials);
    MarkedStep(c, rest, mark, specials);
    MarkedStep(c, Replace(rest, p, into), mark, specials);
    if c in specials {
      ReplaceMissesTwice(mark, c, t, p, filler);
    } else {
      FrontUnmarked([c] + rest, p, mark, specials);
    }
  }

  lemma {:induction false} ReplaceEscaped(s: string, p: string, into: string, dollars: bool)
    requires p != "" && IsPlainWord(p)
    ensures Replace(EscapeWord(s, dollars), p, EscapeWord(into, dollars)) == EscapeWord(Replace(s, p, into), dollars)
  {
    EscapeWordLayers(s, dollars);
    EscapeWordLayers(into, dollars);
    EscapeWordLayers(Replace(s, p, into), dollars);
    ReplaceMarked(s, p, into, '$', {'$'});
    var (s1, into1, r1) := if dollars then (Marked(s, '$', {'$'}), Marked(into, '$', {'$'}), Marked(Replace(s, p, into), '$', {'$'})) else (s, into, Replace(s, p, into));
    ReplaceMarked(s1, p, into1, '%', {'%'});
    ReplaceMarked(Percented(s1), p, Percented(into1), '\\', {'\\', '\"'});
  }

  lemma {:induction false} PlainIsUnescaped(s: string, dollars: bool)
    requires IsPlainWord(s)
    ensures EscapeWord(s, dollars) == s
  {
    EscapeWordLayers(s, dollars);
    NothingToMark(s, '$', {'$'});
    NothingToMark(s, '%', {'%'});
    NothingToMark(s, '\\', {'\\', '\"'});
  }

  /** Filling in escaped paths escapes the filled word. */
  lemma {:induction false} FilledEscaped(word: string, values: seq<Value>, dollars: bool, n: nat)
    requires Placeholders(values) && IsPlainWord(word) && n <= |values|
    ensures Filled(word, EscapedValues(values, dollars), n) == EscapeWord(Filled(word, values, n), dollars)
    decreases n
  {
    if n == 0 {
      PlainIsUnescaped(word, dollars);
    } else {
      FilledEscaped(word, values, dollars, n - 1);
      var v := values[n - 1];
      assert v in values;
      ReplaceEscaped(Filled(word, values, n - 1), v.placeholder, v.raw, dollars);
    }
  }

  /** A character in neither the word nor the paths put in it does not appear. */
  lemma {:induction false} FilledCharacters(word: string, values: seq<Value>, n: nat, c: char)
    requires n <= |values| && forall v :: v in values ==> v.placeholder != ""
    requires c !in word
    requires forall k :: 0 <= k < n && Contains(word, values[k].placeholder) ==> c !in values[k].raw
    ensures c !in Filled(word, values, n)
    decreases n
  {
    if n > 0 {
      FilledCharacters(word, values, n - 1, c);
      var v := values[n - 1];
      if Contains(word, v.placeholder) {
        ReplacedCharacters(Filled(word, values, n - 1), v.placeholder, v.raw, c);
      }
    }
  }

  lemma {:induction false} MarkedCharacters(s: string, mark: char, specials: set<char>, c: char)
    requires c != mark && c !in s
    ensures c !in Marked(s, mark, specials)
    decreases |s|
  {
    if s != "" {
      MarkedCharacters(s[1..], mark, specials, c);
    }
  }

  /** The `%`-doubling of a path directive commutes with filling too. */
  lemma {:induction false} FilledPercented(value: string, values: seq<Value>, doubled: seq<Value>, n: nat)
    requires Placeholders(values) && '%' !in value && n <= |values|
    requires |doubled| == |values|
    requires forall k :: 0 <= k < |values| ==>
      doubled[k] == Value(values[k].placeholder, Replace(values[k].raw, "%", "%%"))
    ensures forall v :: v in doubled ==> v.placeholder != ""
    ensures Filled(value, doubled, n) == Percented(Filled(value, values, n))
    decreases n
  {
    if n == 0 {
      NothingToMark(value, '%', {'%'});
    } else {
      FilledPercented(value, values, doubled, n - 1);
      var v := values[n - 1];
      assert v in values;
      ReplaceMarks(v.raw, '%', '%');
      ReplaceMarked(Filled(value, values, n - 1), v.placeholder, v.raw, '%', {'%'});
    }
  }
}

/** Spelled words read back: the writer's escaping against systemd's reader. */
module UnitReading {
  import opened Wrappers
  import opened Text
  import opened SystemdReader
  import opened UnitEscape

  predicate NeedsQuotes(word: string) {
    exists k :: 0 <= k < |word| && (IsSpace(word[k]) || IsQuote(word[k]))
  }

  /** How a word is written so that it reads back. */
  function Spelling(word: string, dollars: bool): string {
    if NeedsQuotes(word) then "\"" + EscapeWord(word, dollars) + "\"" else EscapeWord(word, dollars)
  }

  ghost predicate EndsWord(tail: string) {
    tail == "" || IsBlank(tail[0])
  }

  lemma {:induction false} BareReads(m: string, tail: string)
    requires forall k :: 0 <= k < |m| ==> !IsBlank(m[k]) && !IsQuote(m[k])
    requires EndsWord(tail)
    ensures ReadBare(Backslashed(m) + tail) == Some(Scan(m, tail))
    decreases |m|
  {
    if m == "" {
      assert Backslashed(m) + tail == tail;
    } else {
      BareReads(m[1..], tail);
      var rest := Backslashed(m[1..]) + tail;
      var s := Backslashed(m) + tail;
      if m[0] == '\\' {
        assert s == ['\\', '\\'] + rest && s[2..] == rest;
      } else {
        assert s == [m[0]] + rest && s[1..] == rest;
      }
      assert m == [m[0]] + m[1..];
    }
  }

  lemma {:induction false} QuotedStep(c: char, rest: string)
    ensures ReadQuoted((if c == '\\' || c == '\"' then ['\\', c] else [c]) + rest, '\"') == Prepend(c, ReadQuoted(rest, '\"'))
  {
    var head := if c == '\\' || c == '\"' then ['\\', c] else [c];
    assert (head + rest)[|head|..] == rest;
  }

  lemma {:induction false} QuotedHead(m: string, end: string)
    requires m != ""
    ensures Backslashed(m) + end == (if m[0] == '\\' || m[0] == '\"' then ['\\', m[0]] else [m[0]]) + (Backslashed(m[1..]) + end)
  {
    MarkedStep(m[0], m[1..], '\\', {'\\', '\"'});
    assert m == [m[0]] + m[1..];
  }

  lemma {:induction false} QuotedReads(m: string, tail: string)
    requires EndsWord(tail)
    ensures ReadQuoted(Backslashed(m) + ("\"" + tail), '\"') == Some(Scan(m, tail))
    decreases |m|
  {
    var end := "\"" + tail;
    if m == "" {
      assert Backslashed(m) + end == end && end[1..] == tail;
    } else {
      QuotedReads(m[1..], tail);
      assert m == [m[0]] + m[1..];
      QuotedStep(m[0], Backslashed(m[1..]) + end);
      QuotedHead(m, end);
    }
  }

  lemma {:induction false} DoubledCharacters(w: string, dollars: bool, c: char)
    requires c != '%' && c != '$' && c !in w
    ensures c !in Doubled(w, dollars)
  {
    MarkedCharacters(w, '$', {'$'}, c);
    MarkedCharacters(if dollars then Marked(w, '$', {'$'}) else w, '%', {'%'}, c);
  }

  lemma {:induction false} BareWord(w: string, dollars: bool)
    requires !NeedsQuotes(w)
    ensures forall k :: 0 <= k < |Doubled(w, dollars)| ==> !IsBlank(Doubled(w, dollars)[k]) && !IsQuote(Doubled(w, dollars)[k])
  {
    DoubledCharacters(w, dollars, ' ');
    DoubledCharacters(w, dollars, '\t');
    DoubledCharacters(w, dollars, '\n');
    DoubledCharacters(w, dollars, '\r');
    DoubledCharacters(w, dollars, '\"');
    DoubledCharacters(w, dollars, '\'');
  }

  lemma {:induction false} MarkedIsLonger(s: string, mark: char, specials: set<char>)
    ensures |Marked(s, mark, specials)| >= |s|
    ensures s != "" ==> Marked(s, mark, specials)[0] == if s[0] in specials then mark else s[0]
    decreases |s|
  {
    if s != "" {
      MarkedIsLonger(s[1..], mark, specials);
    }
  }

  lemma {:induction false} DoubledIsLonger(w: string, dollars: bool)
    ensures |Backslashed(Doubled(w, dollars))| >= |Doubled(w, dollars)| >= |w|
  {
    MarkedIsLonger(w, '$', {'$'});
    MarkedIsLonger(if dollars then Marked(w, '$', {'$'}) else w, '%', {'%'});
    MarkedIsLonger(Doubled(w, dollars), '\\', {'\\', '\"'});
  }

  lemma {:induction false} Unquoted(inside: string, tail: string)
    ensures var s := "\"" + inside + "\"" + tail; s != "" && s[0] == '\"' && s[1..] == inside + ("\"" + tail)
  {
  }

  lemma {:induction false} QuotedSpellingReads(w: string, dollars: bool, tail: string)
    requires NeedsQuotes(w) && EndsWord(tail)
    ensures var s := Spelling(w, dollars) + tail;
      s != "" && !IsBlank(s[0]) && ReadWord(s) == Some(Scan(Doubled(w, dollars), tail))
  {
    var m := Doubled(w, dollars);
    EscapeWordLayers(w, dollars);
    QuotedReads(m, tail);
    Unquoted(Backslashed(m), tail);
  }

  lemma {:induction false} BareSpellingReads(w: string, dollars: bool, tail: string)
    requires !NeedsQuotes(w) && w != "" && EndsWord(tail)
    ensures var s := Spelling(w, dollars) + tail;
      s != "" && !IsBlank(s[0]) && ReadWord(s) == Some(Scan(Doubled(w, dollars), tail))
  {
    EscapeWordLayers(w, dollars);
    BareWord(w, dollars);
    DoubledIsLonger(w, dollars);
    BareReads(Doubled(w, dollars), tail);
  }

  /** A spelled word, whatever follows it, reads as the word with its marks doubled. */
  lemma {:induction false} SpellingReads(w: string, dollars: bool, tail: string)
    requires w != "" && EndsWord(tail)
    ensures var s := Spelling(w, dollars) + tail;
      s != "" && !IsBlank(s[0]) && ReadWord(s) == Some(Scan(Doubled(w, dollars), tail))
  {
    if NeedsQuotes(w) {
      QuotedSpellingReads(w, dollars, tail);
    } else {
      BareSpellingReads(w, dollars, tail);
    }
  }

  lemma {:induction false} CollapseUndoes(s: string, mark: char)
    ensures Collapse(Marked(s, mark, {mark}), mark) == Some(s)
    decreases |s|
  {
    if s != "" {
      CollapseUndoes(s[1..], mark);
      var t := Marked(s, mark, {mark});
      if s[0] == mark {
        assert t[2..] == Marked(s[1..], mark, {mark});
      } else {
        assert t[1..] == Marked(s[1..], mark, {mark});
      }
      assert s == [s[0]] + s[1..];
    }
  }

  lemma {:induction false} ExpandUndoes(w: string, dollars: bool)
    ensures Expand(Doubled(w, dollars), dollars) == Some(w)
  {
    CollapseUndoes(if dollars then Marked(w, '$', {'$'}) else w, '%');
    CollapseUndoes(w, '$');
  }

  // ---- a line of words ----

  /** A word, and whether it stands where `$` is expanded. */
  datatype Item = Item(text: string, dollars: bool)

  function Spelled(items: seq<Item>): (r: seq<string>)
    ensures |r| == |items|
    ensures forall k :: 0 <= k < |r| ==> r[k] == Spelling(items[k].text, items[k].dollars)
  {
    seq(|items|, k requires 0 <= k < |items| => Spelling(items[k].text, items[k].dollars))
  }

  function OneWord(w: string, dollars: bool): seq<Word> {
    if w == "" then [] else [Word(Doubled(w, dollars), Spelling(w, dollars))]
  }

  /** What is read of them: an empty word leaves no trace. */
  function Kept(items: seq<Item>): (r: seq<Word>)
    ensures |r| <= |items|
  {
    if items == [] then []
    else OneWord(items[0].text, items[0].dollars) + Kept(items[1..])
  }

  lemma {:induction false} ReadOneWord(w: string, dollars: bool, tail: string)
    requires EndsWord(tail) && ReadWords(tail).Some?
    ensures ReadWords(Spelling(w, dollars) + tail) == Some(OneWord(w, dollars) + ReadWords(tail).value)
  {
    var s := Spelling(w, dollars) + tail;
    if w == "" {
      EscapeWordLayers(w, dollars);
      assert s == tail && [] + ReadWords(tail).value == ReadWords(tail).value;
    } else {
      SpellingReads(w, dollars, tail);
      assert s[..|s| - |tail|] == Spelling(w, dollars);
    }
  }

  lemma {:induction false} BlankThen(s: string)
    ensures ReadWords(" " + s) == ReadWords(s)
  {
    assert (" " + s)[1..] == s;
  }

  lemma {:induction false} JoinSpelled(items: seq<Item>)
    requires items != []
    ensures Join(Spelled(items), ' ') == Spelling(items[0].text, items[0].dollars) +
      if |items| == 1 then "" else " " + Join(Spelled(items[1..]), ' ')
  {
    assert Spelled(items)[1..] == Spelled(items[1..]);
  }

  lemma {:induction false} JoinedReads(items: seq<Item>)
    ensures ReadWords(Join(Spelled(items), ' ')) == Some(Kept(items))
    decreases |items|
  {
    if items != [] {
      var rest := items[1..];
      JoinedReads(rest);
      var tail := if rest == [] then "" else " " + Join(Spelled(rest), ' ');
      BlankThen(Join(Spelled(rest), ' '));
      assert ReadWords(tail) == Some(Kept(rest));
      JoinSpelled(items);
      ReadOneWord(items[0].text, items[0].dollars, tail);
    }
  }

  ghost predicate NoneEmpty(items: seq<Item>) {
    forall k :: 0 <= k < |items| ==> items[k].text != ""
  }

  lemma {:induction false} KeptAll(items: seq<Item>)
    ensures |Kept(items)| == |items| <==> NoneEmpty(items)
    ensures NoneEmpty(items) ==> forall k :: 0 <= k < |items| ==>
      Kept(items)[k] == Word(Doubled(items[k].text, items[k].dollars), Spelling(items[k].text, items[k].dollars))
    decreases |items|
  {
    if items != [] {
      KeptAll(items[1..]);
      assert NoneEmpty(items) <==> items[0].text != "" && NoneEmpty(items[1..]);
    }
  }

  function Items(words: seq<string>, dollars: bool): (r: seq<Item>)
    ensures |r| == |words| && forall k :: 0 <= k < |r| ==> r[k] == Item(words[k], dollars)
  {
    seq(|words|, k requires 0 <= k < |words| => Item(words[k], dollars))
  }

  lemma {:induction false} ExpandKept(words: seq<string>, dollars: bool)
    requires "" !in words
    ensures ExpandAll(Kept(Items(words, dollars)), dollars) == Some(words)
    decreases |words|
  {
    if words != [] {
      ExpandKept(words[1..], dollars);
      ExpandUndoes(words[0], dollars);
      assert Items(words, dollars)[1..] == Items(words[1..], dollars);
      assert words == [words[0]] + words[1..];
    }
  }

  /** An environment line reads as the words that were written, exactly when
      none of them is empty. */
  lemma {:induction false} AssignmentsReadBack(words: seq<string>)
    ensures ReadAssignments(Join(Spelled(Items(words, false)), ' ')) == Some(words) <==> "" !in words
  {
    var items := Items(words, false);
    JoinedReads(items);
    KeptAll(items);
    if "" in words {
      var k :| 0 <= k < |words| && words[k] == "";
      assert items[k].text == "";
    } else {
      ExpandKept(words, false);
    }
  }

  // ---- a command ----

  function CommandItems(words: seq<string>): (r: seq<Item>)
    ensures |r| == |words| && forall k :: 0 <= k < |r| ==> r[k] == Item(words[k], k > 0)
  {
    if words == [] then [] else [Item(words[0], false)] + Items(words[1..], true)
  }

  /** The reader's cut of a list of words into a command. */
  function AsRead(words: seq<string>): Command
    requires words != []
  {
    var n := PrefixLength(words[0]);
    Command(words[0][..n], words[0][n..], words[1..])
  }

  /** The words a command is written as. */
  ghost predicate WrittenAs(c: Command, words: seq<string>) {
    if words == [] then c == Command("", "", [])
    else
      && c.prefix + c.path == words[0] && c.arguments == words[1..]
      && forall k :: 0 <= k < |c.prefix| ==> IsPrefix(c.prefix[k])
  }

  /** What a command line can say: there is an executable, its path does not open
      with a character that systemd takes for a prefix, and no argument is empty
      or a lone semicolon. */
  predicate Representable(c: Command) {
    c.prefix + c.path != "" && PrefixLength(c.path) == 0 && "" !in c.arguments && ";" !in c.arguments
  }

  lemma {:induction false} PrefixThenPath(prefix: string, path: string)
    requires forall k :: 0 <= k < |prefix| ==> IsPrefix(prefix[k])
    ensures PrefixLength(prefix + path) == |prefix| + PrefixLength(path)
    decreases |prefix|
  {
    if prefix == "" {
      assert prefix + path == path;
    } else {
      assert (prefix + path)[1..] == prefix[1..] + path;
      PrefixThenPath(prefix[1..], path);
    }
  }

  lemma {:induction false} PrefixDoubled(w: string)
    ensures PrefixLength(Percented(w)) == PrefixLength(w)
    ensures var n := PrefixLength(w); Percented(w)[..n] == w[..n] && Percented(w)[n..] == Percented(w[n..])
    decreases |w|
  {
    if w != "" && IsPrefix(w[0]) {
      PrefixDoubled(w[1..]);
      assert Percented(w)[1..] == Percented(w[1..]);
      assert w == [w[0]] + w[1..];
      var n := PrefixLength(w);
      assert w[n..] == w[1..][n - 1..];
      assert Percented(w)[n..] == Percented(w)[1..][n - 1..];
      assert Percented(w)[..n] == [w[0]] + Percented(w)[1..][..n - 1];
    }
  }

  lemma {:induction false} SpelledSemicolon(w: string, dollars: bool)
    requires w != ""
    ensures Spelling(w, dollars) == ";" <==> w == ";"
  {
    if w == ";" {
      PlainIsUnescaped(";", dollars);
    } else {
      EscapeWordLayers(w, dollars);
      MarkedIsLonger(w, '$', {'$'});
      MarkedIsLonger(if dollars then Marked(w, '$', {'$'}) else w, '%', {'%'});
      MarkedIsLonger(Doubled(w, dollars), '\\', {'\\', '\"'});
    }
  }

  lemma {:induction false} CommandOfWords(words: seq<string>)
    requires words != [] && "" !in words && SafeExecutable(words[0][PrefixLength(words[0])..])
    ensures Kept(CommandItems(words)) != [] && AsCommand(Kept(CommandItems(words))) == Some(AsRead(words))
  {
    var items := CommandItems(words);
    assert items[1..] == Items(words[1..], true);
    ExpandKept(words[1..], true);
    PrefixDoubled(words[0]);
    CollapseUndoes(words[0][PrefixLength(words[0])..], '%');
  }

  lemma {:induction false} FullLineReads(words: seq<string>)
    requires words != [] && "" !in words && SafeExecutable(words[0][PrefixLength(words[0])..])
    ensures ReadCommand(Join(Spelled(CommandItems(words)), ' ')) == if ";" in words[1..] then None else Some(AsRead(words))
  {
    JoinedReads(CommandItems(words));
    LoneSemicolons(words);
    CommandOfWords(words);
  }

  /** An empty word leaves the command an argument short. */
  lemma {:induction false} EmptyWordMisreads(words: seq<string>)
    requires "" in words
    ensures var read := ReadCommand(Join(Spelled(CommandItems(words)), ' '));
      read.Some? ==> |read.value.arguments| < |words| - 1
  {
    var items := CommandItems(words);
    JoinedReads(items);
    KeptAll(items);
    var k :| 0 <= k < |words| && words[k] == "";
    assert items[k].text == "";
  }

  /** A command line reads as the command that was meant, exactly when a command
      line can say it. */
  lemma {:induction false} CommandReadsBack(c: Command, words: seq<string>)
    requires WrittenAs(c, words)
    requires words != [] ==> SafeExecutable(words[0][PrefixLength(words[0])..])
    ensures ReadCommand(Join(Spelled(CommandItems(words)), ' ')) == Some(c) <==> Representable(c)
  {
    if words == [] {
      JoinedReads(CommandItems(words));
    } else {
      assert words == [words[0]] + words[1..];
      if "" in words {
        EmptyWordMisreads(words);
      } else {
        FullLineReads(words);
        PrefixThenPath(c.prefix, c.path);
        CutIsMeant(c, words);
      }
    }
  }

  lemma {:induction false} CutIsMeant(c: Command, words: seq<string>)
    requires words != [] && WrittenAs(c, words) && PrefixLength(words[0]) == |c.prefix| + PrefixLength(c.path)
    ensures AsRead(words) == c <==> PrefixLength(c.path) == 0
  {
    assert words[0][..|c.prefix|] == c.prefix && words[0][|c.prefix|..] == c.path;
  }

  lemma {:induction false} LoneSemicolons(words: seq<string>)
    requires words != [] && "" !in words
    ensures OneCommand(Kept(CommandItems(words))) <==> ";" !in words[1..]
  {
    var kept := Kept(CommandItems(words));
    KeptSpellings(words);
    if ";" in words[1..] {
      var k :| 0 <= k < |words| - 1 && words[1..][k] == ";";
      assert kept[k + 1].spelling == ";";
    } else {
      assert forall k :: 0 < k < |words| ==> words[k] == words[1..][k - 1];
    }
  }

  lemma {:induction false} KeptSpellings(words: seq<string>)
    requires words != [] && "" !in words
    ensures var kept := Kept(CommandItems(words));
      |kept| == |words| && forall k :: 0 < k < |words| ==> (kept[k].spelling == ";" <==> words[k] == ";")
  {
    var items := CommandItems(words);
    KeptAll(items);
    assert NoneEmpty(items);
    forall k | 0 < k < |words|
      ensures Kept(items)[k].spelling == ";" <==> words[k] == ";"
    {
      SpelledSemicolon(words[k], true);
    }
  }

  // ---- line ends ----

  lemma {:induction false} RunsOnAfter(a: string, b: string, escaped: bool)
    ensures RunsOn(a + b, escaped) == RunsOn(b, RunsOn(a, escaped))
    decreases |a|
  {
    if a == "" {
      assert a + b == b;
    } else {
      assert (a + b)[1..] == a[1..] + b;
      RunsOnAfter(a[1..], b, !escaped && a[0] == '\\');
    }
  }

  lemma {:induction false} BackslashedSettles(m: string)
    ensures !RunsOn(Backslashed(m), false)
    decreases |m|
  {
    if m != "" {
      BackslashedSettles(m[1..]);
      var s, rest := Backslashed(m), Backslashed(m[1..]);
      if m[0] == '\\' || m[0] == '\"' {
        assert s[1..] == [m[0]] + rest && s[1..][1..] == rest;
      } else {
        assert s[1..] == rest;
      }
    }
  }

  lemma {:induction false} SettledByEnd(s: string, escaped: bool)
    requires s != "" && s[|s| - 1] != '\\'
    ensures !RunsOn(s, escaped)
  {
    var front := s[..|s| - 1];
    assert s == front + [s[|s| - 1]];
    RunsOnAfter(front, [s[|s| - 1]], escaped);
    assert [s[|s| - 1]][1..] == "";
  }

  lemma {:induction false} SpellingSettles(w: string, dollars: bool)
    ensures !RunsOn(Spelling(w, dollars), false)
  {
    EscapeWordLayers(w, dollars);
    BackslashedSettles(Doubled(w, dollars));
    if NeedsQuotes(w) {
      SettledByEnd(Spelling(w, dollars), false);
    }
  }

  /** A line of spelled words never runs on into the next line. */
  lemma {:induction false} SpelledSettles(items: seq<Item>)
    ensures !RunsOn(Join(Spelled(items), ' '), false)
    decreases |items|
  {
    if items != [] {
      var w, rest := items[0], items[1..];
      SpelledSettles(rest);
      SpellingSettles(w.text, w.dollars);
      assert Spelled(items)[1..] == Spelled(rest);
      if rest != [] {
        var head, tail := Spelling(w.text, w.dollars) + [' '], Join(Spelled(rest), ' ');
        SettledByEnd(head, false);
        RunsOnAfter(head, tail, false);
      }
    }
  }
}

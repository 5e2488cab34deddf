/** Rendering a packaged unit with a host's paths, spelled per directive. */
module UnitRender {
  import opened Wrappers
  import opened Text
  import opened SystemdReader
  import opened UnitEscape
  import opened UnitReading

  datatype InitError =
    | ControlCharacter
    | NotOpening
    | UnsafeExecutable
    | SurroundingSpace
    | TrailingBackslash
    | NotADirective
    | UnknownDirective

  /** What no unit line can carry. */
  predicate IsUnrenderable(c: char) {
    (c < ' ' && c != '\t') || c == '\U{7F}'
  }

  /** What systemd refuses in an executable besides. */
  predicate IsForbidden(c: char) {
    IsQuote(c) || c == '\\' || c == '\t'
  }

  predicate Renderable(raw: string) {
    forall k :: 0 <= k < |raw| ==> !IsUnrenderable(raw[k])
  }

  predicate FitsExecutable(raw: string) {
    forall k :: 0 <= k < |raw| ==> !IsForbidden(raw[k])
  }

  /** Whether the word can carry the value it asks for. */
  predicate Takes(word: string, v: Value, executable: bool) {
    Contains(word, v.placeholder) ==>
      Renderable(v.raw) && (executable ==> v.placeholder <= word && FitsExecutable(v.raw))
  }

  predicate TakesFirst(word: string, values: seq<Value>, executable: bool, n: nat)
    requires n <= |values|
  {
    forall k :: 0 <= k < n ==> Takes(word, values[k], executable)
  }

  predicate TakesAll(word: string, values: seq<Value>, executable: bool) {
    TakesFirst(word, values, executable, |values|)
  }

  predicate MentionsFirst(text: string, values: seq<Value>, n: nat)
    requires n <= |values|
  {
    exists k :: 0 <= k < n && Contains(text, values[k].placeholder)
  }

  predicate Mentions(text: string, values: seq<Value>) {
    MentionsFirst(text, values, |values|)
  }

  lemma {:induction false} OneMore(word: string, values: seq<Value>, executable: bool, n: nat)
    requires n < |values|
    ensures TakesFirst(word, values, executable, n + 1) <==> TakesFirst(word, values, executable, n) && Takes(word, values[n], executable)
    ensures MentionsFirst(word, values, n + 1) <==> MentionsFirst(word, values, n) || Contains(word, values[n].placeholder)
  {
    if MentionsFirst(word, values, n) {
      var k :| 0 <= k < n && Contains(word, values[k].placeholder);
      assert Contains(word, values[k].placeholder);
    }
  }

  function FilledIn(word: string, values: seq<Value>): string
    requires forall v :: v in values ==> v.placeholder != ""
  {
    Filled(word, values, |values|)
  }

  lemma {:induction false} NothingFilled(word: string, values: seq<Value>, n: nat)
    requires n <= |values| && forall v :: v in values ==> v.placeholder != ""
    requires !Mentions(word, values)
    ensures Filled(word, values, n) == word
    decreases n
  {
    if n > 0 {
      NothingFilled(word, values, n - 1);
      assert !Contains(word, values[n - 1].placeholder);
    }
  }

  lemma {:induction false} EscapedKeepsNewlines(raw: string, dollars: bool)
    requires '\n' !in raw
    ensures '\n' !in EscapeWord(raw, dollars)
  {
    EscapeWordLayers(raw, dollars);
    DoubledCharacters(raw, dollars, '\n');
    MarkedCharacters(Doubled(raw, dollars), '\\', {'\\', '\"'}, '\n');
  }

  lemma {:induction false} RenderedIsOneLine(word: string, values: seq<Value>, executable: bool, dollars: bool)
    requires Placeholders(values) && TakesAll(word, values, executable)
    ensures '\n' !in word ==> '\n' !in Filled(word, EscapedValues(values, dollars), |values|)
  {
    var escaped := EscapedValues(values, dollars);
    forall k | 0 <= k < |values| && Contains(word, escaped[k].placeholder)
      ensures '\n' !in escaped[k].raw
    {
      assert Takes(word, values[k], executable);
      EscapedKeepsNewlines(values[k].raw, dollars);
    }
    if '\n' !in word {
      FilledCharacters(word, escaped, |values|, '\n');
    }
  }

  lemma {:induction false} UnmentionedWord(word: string, values: seq<Value>, dollars: bool)
    requires Placeholders(values) && !Mentions(word, values)
    ensures Filled(word, EscapedValues(values, dollars), |values|) == word && FilledIn(word, values) == word
  {
    NothingFilled(word, values, |values|);
    var escaped := EscapedValues(values, dollars);
    forall k | 0 <= k < |escaped| ensures !Contains(word, escaped[k].placeholder) {
      assert !Contains(word, values[k].placeholder);
    }
    NothingFilled(word, escaped, |values|);
  }

  /** What comes out for a word that takes its values. */
  ghost function Rendered(word: string, values: seq<Value>, dollars: bool): string
    requires Placeholders(values)
  {
    var rendered := Filled(word, EscapedValues(values, dollars), |values|);
    if Mentions(word, values) && NeedsQuotes(FilledIn(word, values)) then "\"" + rendered + "\"" else rendered
  }

  /** A plain word needs no quotes, and one with nothing to fill is left alone. */
  lemma {:induction false} RenderedWord(word: string, values: seq<Value>, executable: bool, dollars: bool)
    requires Placeholders(values) && TakesAll(word, values, executable)
    ensures IsPlainWord(word) ==> Rendered(word, values, dollars) == Spelling(FilledIn(word, values), dollars)
    ensures '\n' !in word ==> '\n' !in Rendered(word, values, dollars)
    ensures !Mentions(word, values) ==> Rendered(word, values, dollars) == word
  {
    RenderedIsOneLine(word, values, executable, dollars);
    if !Mentions(word, values) {
      UnmentionedWord(word, values, dollars);
    }
    if IsPlainWord(word) {
      FilledEscaped(word, values, dollars, |values|);
    }
  }

  /** One word of a split directive: refused when it cannot carry its paths, and
      otherwise spelled so as to read back. */
  method RenderWord(word: string, values: seq<Value>, executable: bool, dollars: bool) returns (r: Result<string, InitError>)
    requires Placeholders(values)
    ensures r.Success? <==> TakesAll(word, values, executable)
    ensures r.Success? && IsPlainWord(word) ==> r.value == Spelling(FilledIn(word, values), dollars)
    ensures r.Success? && '\n' !in word ==> '\n' !in r.value
    ensures !Mentions(word, values) ==> r == Success(word)
    // Whatever else the template says in the word is left alone.
    ensures r.Success? ==> r.value == Rendered(word, values, dollars)
  {
    var parsed, rendered, filled := word, word, false;
    ghost var escaped := EscapedValues(values, dollars);
    for n := 0 to |values|
      invariant parsed == Filled(word, values, n)
      invariant rendered == Filled(word, escaped, n)
      invariant filled == MentionsFirst(word, values, n)
      invariant TakesFirst(word, values, executable, n)
    {
      var v := values[n];
      OneMore(word, values, executable, n);
      if Contains(word, v.placeholder) {
        var refusal := Refusal(word, v, executable);
        if refusal.Some? {
          Refused(word, values, executable, n);
          return Failure(refusal.value);
        }
        parsed := Replace(parsed, v.placeholder, v.raw);
        rendered := Replace(rendered, v.placeholder, EscapeWord(v.raw, dollars));
        filled := true;
      }
    }
    RenderedWord(word, values, executable, dollars);
    if filled && NeedsQuotes(parsed) {
      r := Success("\"" + rendered + "\"");
    } else {
      r := Success(rendered);
    }
    assert r.value == Rendered(word, values, dollars);
  }

  lemma {:induction false} Refused(word: string, values: seq<Value>, executable: bool, n: nat)
    requires n < |values| && !Takes(word, values[n], executable)
    ensures !TakesAll(word, values, executable) && Mentions(word, values)
  {
    assert Contains(word, values[n].placeholder);
  }

  /** The first reason a word cannot carry a value it mentions. */
  function Refusal(word: string, v: Value, executable: bool): (r: Option<InitError>)
    requires Contains(word, v.placeholder)
    ensures r.None? <==> Takes(word, v, executable)
  {
    if !Renderable(v.raw) then Some(ControlCharacter)
    else if executable && !(v.placeholder <= word) then Some(NotOpening)
    else if executable && !FitsExecutable(v.raw) then Some(UnsafeExecutable)
    else None
  }

  // ---- verbatim directives ----

  predicate IsPath(parsed: string) {
    IsTrimmed(parsed, IsSpace) && (parsed != "" ==> parsed[|parsed| - 1] != '\\')
  }

  function DoubledValues(values: seq<Value>): (r: seq<Value>)
    ensures |r| == |values|
    ensures forall k :: 0 <= k < |r| ==> r[k] == Value(values[k].placeholder, Replace(values[k].raw, "%", "%%"))
  {
    seq(|values|, k requires 0 <= k < |values| => Value(values[k].placeholder, Replace(values[k].raw, "%", "%%")))
  }

  lemma {:induction false} PathIsOneLine(value: string, values: seq<Value>)
    requires Placeholders(values) && TakesAll(value, values, false) && '\n' !in value
    ensures '\n' !in Filled(value, DoubledValues(values), |values|)
  {
    var doubled := DoubledValues(values);
    forall k | 0 <= k < |values| && Contains(value, doubled[k].placeholder)
      ensures '\n' !in doubled[k].raw
    {
      assert Takes(value, values[k], false);
      ReplacedCharacters(values[k].raw, "%", "%%", '\n');
    }
    FilledCharacters(value, doubled, |values|, '\n');
  }

  /** The values with their percents doubled. */
  function DoubledOnly(values: seq<Value>): (r: seq<Value>)
    requires Placeholders(values)
    ensures r == DoubledValues(values) && forall v :: v in r ==> v.placeholder != ""
  {
    assert forall k :: 0 <= k < |DoubledValues(values)| ==> values[k] in values;
    DoubledValues(values)
  }

  method FillPath(value: string, values: seq<Value>, ghost doubled: seq<Value>) returns (parsed: string, rendered: string, ok: bool)
    requires Placeholders(values) && doubled == DoubledValues(values)
    ensures ok <==> TakesAll(value, values, false)
    ensures ok ==> parsed == FilledIn(value, values)
    ensures ok ==> (forall v :: v in doubled ==> v.placeholder != "") && rendered == FilledIn(value, doubled)
  {
    parsed, rendered, ok := value, value, true;
    for n := 0 to |values|
      invariant ok && parsed == Filled(value, values, n)
      invariant rendered == Filled(value, doubled, n)
      invariant TakesFirst(value, values, false, n)
    {
      var v := values[n];
      OneMore(value, values, false, n);
      if Contains(value, v.placeholder) {
        if !Renderable(v.raw) {
          Refused(value, values, false, n);
          ok := false;
          return;
        }
        parsed := Replace(parsed, v.placeholder, v.raw);
        rendered := Replace(rendered, v.placeholder, Replace(v.raw, "%", "%%"));
      }
    }
  }

  method RenderPathValue(value: string, values: seq<Value>) returns (r: Result<string, InitError>)
    requires Placeholders(values)
    ensures r.Success? <==> TakesAll(value, values, false) && IsPath(FilledIn(value, values))
    ensures r.Success? && '%' !in value ==> r.value == Percented(FilledIn(value, values))
    ensures r.Success? && '\n' !in value ==> '\n' !in r.value
    // Whatever else the template says in the value is left alone.
    ensures r.Success? ==> r.value == FilledIn(value, DoubledOnly(values))
  {
    var parsed, rendered, ok := FillPath(value, values, DoubledValues(values));
    if !ok {
      return Failure(ControlCharacter);
    }
    TrimKeeps(parsed, IsSpace);
    if Trim(parsed, IsSpace) != parsed {
      return Failure(SurroundingSpace);
    }
    if parsed != "" && parsed[|parsed| - 1] == '\\' {
      return Failure(TrailingBackslash);
    }
    if '%' !in value {
      FilledPercented(value, values, DoubledValues(values), |values|);
    }
    if '\n' !in value {
      PathIsOneLine(value, values);
    }
    return Success(rendered);
  }

  lemma {:induction false} MarkedEnds(s: string, mark: char, specials: set<char>)
    requires s != ""
    ensures var t := Marked(s, mark, specials);
      t != "" && t[|t| - 1] == s[|s| - 1] && (t[0] == s[0] || t[0] == mark)
    decreases |s|
  {
    if |s| > 1 {
      MarkedEnds(s[1..], mark, specials);
    }
  }

  /** A verbatim path reads back exactly. */
  lemma {:induction false} PathReadsBack(path: string)
    requires IsPath(path)
    ensures ReadVerbatim(Percented(path)) == Some(path)
    ensures path != "" ==> !RunsOn(Percented(path), false)
  {
    CollapseUndoes(path, '%');
    TrimKeeps(Percented(path), IsBlank);
    if path != "" {
      MarkedEnds(path, '%', {'%'});
      SettledByEnd(Percented(path), false);
    }
  }

  // ---- lines of words ----

  function WordEnd(s: string): (i: nat)
    ensures i <= |s|
    ensures s != "" && !IsSpace(s[0]) ==> i > 0
  {
    if s == "" || IsSpace(s[0]) then 0 else 1 + WordEnd(s[1..])
  }

  /** The pieces between runs of white space. */
  function Words(s: string): seq<string>
    decreases |s|
  {
    if s == "" then []
    else if IsSpace(s[0]) then Words(s[1..])
    else [s[..WordEnd(s)]] + Words(s[WordEnd(s)..])
  }

  predicate IsPlainOrSpace(c: char) { IsPlain(c) || c == ' ' || c == '\t' }

  predicate IsPlainText(s: string) {
    forall k :: 0 <= k < |s| ==> IsPlainOrSpace(s[k])
  }

  lemma {:induction false} WordEndIs(s: string)
    ensures forall k :: 0 <= k < WordEnd(s) ==> !IsSpace(s[k])
    decreases |s|
  {
    if s != "" && !IsSpace(s[0]) {
      WordEndIs(s[1..]);
    }
  }

  lemma {:induction false} WordsAre(s: string)
    ensures IsPlainText(s) ==> forall k :: 0 <= k < |Words(s)| ==> IsPlainWord(Words(s)[k])
    ensures '\n' !in s ==> forall k :: 0 <= k < |Words(s)| ==> '\n' !in Words(s)[k]
    decreases |s|
  {
    if s != "" {
      if IsSpace(s[0]) {
        WordsAre(s[1..]);
      } else {
        WordEndIs(s);
        WordsAre(s[WordEnd(s)..]);
      }
    }
  }

  function FilledAll(words: seq<string>, values: seq<Value>): (r: seq<string>)
    requires forall v :: v in values ==> v.placeholder != ""
    ensures |r| == |words| && forall k :: 0 <= k < |r| ==> r[k] == FilledIn(words[k], values)
  {
    seq(|words|, k requires 0 <= k < |words| => FilledIn(words[k], values))
  }

  function ItemsOf(words: seq<string>, command: bool): (r: seq<Item>)
    ensures |r| == |words| && forall k :: 0 <= k < |r| ==> r[k] == Item(words[k], command && k > 0)
  {
    if command then CommandItems(words) else Items(words, false)
  }

  predicate LineTakes(words: seq<string>, values: seq<Value>, command: bool) {
    forall k :: 0 <= k < |words| ==> TakesAll(words[k], values, command && k == 0)
  }

  lemma {:induction false} JoinedNewlines(pieces: seq<string>)
    requires forall k :: 0 <= k < |pieces| ==> '\n' !in pieces[k]
    ensures '\n' !in Join(pieces, ' ')
    decreases |pieces|
  {
    if |pieces| > 1 {
      JoinedNewlines(pieces[1..]);
    }
  }

  method RenderEach(words: seq<string>, values: seq<Value>, command: bool) returns (r: Result<seq<string>, InitError>)
    requires Placeholders(values)
    ensures r.Success? <==> LineTakes(words, values, command)
    ensures r.Success? ==> |r.value| == |words|
    ensures r.Success? ==> forall k :: 0 <= k < |words| ==> r.value[k] == Rendered(words[k], values, command && k > 0)
  {
    var out := [];
    for index := 0 to |words|
      invariant |out| == index
      invariant forall k :: 0 <= k < index ==> TakesAll(words[k], values, command && k == 0)
      invariant forall k :: 0 <= k < index ==> out[k] == Rendered(words[k], values, command && k > 0)
    {
      var word := RenderWord(words[index], values, command && index == 0, command && index > 0);
      if word.Failure? {
        return Failure(word.error);
      }
      out := out + [word.value];
    }
    return Success(out);
  }

  /** What each rendered word is, seen from the words as filled. */
  lemma {:induction false} RenderedWords(words: seq<string>, out: seq<string>, values: seq<Value>, command: bool)
    requires Placeholders(values) && |out| == |words| && LineTakes(words, values, command)
    requires forall k :: 0 <= k < |words| ==> out[k] == Rendered(words[k], values, command && k > 0)
    ensures (forall k :: 0 <= k < |words| ==> IsPlainWord(words[k])) ==>
      out == Spelled(ItemsOf(FilledAll(words, values), command))
    ensures (forall k :: 0 <= k < |words| ==> '\n' !in words[k]) ==> forall k :: 0 <= k < |out| ==> '\n' !in out[k]
  {
    forall k | 0 <= k < |words|
      ensures IsPlainWord(words[k]) ==> out[k] == Spelling(FilledIn(words[k], values), command && k > 0)
      ensures '\n' !in words[k] ==> '\n' !in out[k]
    {
      RenderedWord(words[k], values, command && k == 0, command && k > 0);
    }
  }

  method RenderWords(value: string, values: seq<Value>, command: bool) returns (r: Result<string, InitError>)
    requires Placeholders(values)
    ensures r.Success? <==> LineTakes(Words(value), values, command)
    ensures r.Success? && IsPlainText(value) ==>
      r.value == Join(Spelled(ItemsOf(FilledAll(Words(value), values), command)), ' ')
    ensures r.Success? && '\n' !in value ==> '\n' !in r.value
  {
    var out := RenderEach(Words(value), values, command);
    if out.Failure? {
      return Failure(out.error);
    }
    WordsAre(value);
    RenderedWords(Words(value), out.value, values, command);
    assert IsPlainText(value) ==> out.value == Spelled(ItemsOf(FilledAll(Words(value), values), command));
    if '\n' !in value {
      JoinedNewlines(out.value);
    }
    return Success(Join(out.value, ' '));
  }

  // ---- lines ----

  predicate IsComment(line: string) {
    var rest := TrimLeft(line, IsSpace);
    rest != "" && (rest[0] == '#' || rest[0] == ';')
  }

  lemma {:induction false} CommentsAgree(line: string)
    ensures IsCommentLine(line) ==> IsComment(line)
    decreases |line|
  {
    if line != "" && IsBlank(line[0]) {
      CommentsAgree(line[1..]);
    }
  }

  /** Every placeholder replaced, unescaped. */
  function Fill(text: string, values: seq<Value>): string
    requires forall v :: v in values ==> v.placeholder != ""
    decreases |values|
  {
    if values == [] then text
    else Fill(Replace(text, values[0].placeholder, values[0].raw), values[1..])
  }

  function KeyOf(line: string): string { Trim(line[..Find(line, '=')], IsSpace) }

  function ValueOf(line: string): string
    requires '=' in line
  {
    line[Find(line, '=') + 1..]
  }

  /** Whether a value can carry the paths it mentions. */
  predicate ValueTakes(kind: Kind, value: string, values: seq<Value>)
    requires forall v :: v in values ==> v.placeholder != ""
  {
    match kind
    case Verbatim => TakesAll(value, values, false) && IsPath(FilledIn(value, values))
    case WordList => LineTakes(Words(value), values, false)
    case CommandLine => LineTakes(Words(value), values, true)
    case Unknown => false
  }

  /** The command: an executable that is a host path is all path; one that is the
      template's own may carry the template's prefixes. */
  function MeantCommand(template: seq<string>, words: seq<string>, values: seq<Value>): Command
    requires |template| == |words|
  {
    if words == [] then Command("", "", [])
    else if Mentions(template[0], values) then Command("", words[0], words[1..])
    else
      var n := PrefixLength(template[0]);
      Command(template[0][..n], template[0][n..], words[1..])
  }

  lemma {:induction false} PrefixIsPrefix(s: string)
    ensures forall k :: 0 <= k < PrefixLength(s) ==> IsPrefix(s[k])
    decreases |s|
  {
    if s != "" && IsPrefix(s[0]) {
      PrefixIsPrefix(s[1..]);
    }
  }

  lemma {:induction false} MeantIsWritten(template: seq<string>, values: seq<Value>)
    requires Placeholders(values)
    ensures WrittenAs(MeantCommand(template, FilledAll(template, values), values), FilledAll(template, values))
  {
    if template != [] && !Mentions(template[0], values) {
      NothingFilled(template[0], values, |values|);
      PrefixIsPrefix(template[0]);
      var n := PrefixLength(template[0]);
      assert template[0][..n] + template[0][n..] == template[0];
    }
  }

  /** What the template stands for once the paths are in it. */
  function Meant(kind: Kind, value: string, values: seq<Value>): Setting
    requires forall v :: v in values ==> v.placeholder != ""
  {
    match kind
    case Verbatim => Path(FilledIn(value, values))
    case WordList => Assignments(FilledAll(Words(value), values))
    case _ => Run(MeantCommand(Words(value), FilledAll(Words(value), values), values))
  }

  /** What a unit line can say: no empty word, and one command. */
  predicate Sayable(s: Setting) {
    match s
    case Path(_) => true
    case Assignments(words) => "" !in words
    case Run(command) => Representable(command)
  }

  predicate Accepted(line: string, values: seq<Value>)
    requires forall v :: v in values ==> v.placeholder != ""
  {
    '=' in line && ValueTakes(RuleFor(KeyOf(line)), ValueOf(line), values)
  }

  /** The renderer's own table of quoting rules; a directive without one is refused. */
  function RuleFor(key: string): Kind {
    if key in {"WorkingDirectory", "RootDirectory"} then Verbatim
    else if key in {"Environment"} then WordList
    else if key in {"ExecCondition", "ExecReload", "ExecStart", "ExecStartPost", "ExecStartPre", "ExecStop", "ExecStopPost"} then CommandLine
    else Unknown
  }

  /** The characters refused are those that no line, or no executable, may hold. */
  lemma {:induction false} RefusedCharacters(c: char)
    ensures IsUnrenderable(c) <==> IsControl(c)
    ensures IsUnrenderable(c) || IsForbidden(c) <==> IsUnsafe(c)
  {
  }

  /** The renderer has a rule for the paths, the command lines and `Environment`. */
  lemma {:induction false} RulesThereAre(key: string)
    ensures RuleFor(key) != Unknown <==> key in PATH_DIRECTIVES || key in COMMAND_DIRECTIVES || key == WORD_DIRECTIVES[0]
  {
  }

  /** Where the renderer has a rule, it is the one systemd reads the directive by. */
  lemma {:induction false} RulesAgree(key: string)
    requires RuleFor(key) != Unknown
    ensures RuleFor(key) == KindOf(key)
    ensures key != "" && key[0] != '#' && key[0] != ';'
  {
    assert key in {"WorkingDirectory", "RootDirectory", "Environment"} ==> key !in COMMAND_DIRECTIVES by {
      assert "WorkingDirectory"[0] == 'W' && "RootDirectory"[0] == 'R' && "Environment"[1] == 'n';
    }
    assert key in {"WorkingDirectory", "RootDirectory"} ==> key !in WORD_DIRECTIVES by {
      assert "WorkingDirectory"[0] == 'W' && "RootDirectory"[0] == 'R';
    }
    assert |key| > 0 && key[0] in {'W', 'R', 'E'};
  }

  /** A directive whose own text has nothing special in it. */
  predicate IsPlainDirective(line: string) {
    && '=' in line
    && (forall k :: 0 <= k < Find(line, '=') ==> IsPlainOrSpace(line[k]))
    && IsPlainText(ValueOf(line))
  }

  /** The rendered line reads as the setting the template meant, exactly when a
      unit line can say it at all. */
  ghost predicate ReadsAsMeant(line: string, out: string, values: seq<Value>)
    requires '=' in line && forall v :: v in values ==> v.placeholder != ""
  {
    var meant := Meant(KindOf(KeyOf(line)), ValueOf(line), values);
    ReadDirective(out) == Some(Directive(KeyOf(line), meant)) <==> Sayable(meant)
  }

  /** What is written after the equals sign. */
  ghost function Body(kind: Kind, value: string, values: seq<Value>): string
    requires forall v :: v in values ==> v.placeholder != ""
  {
    if kind.Verbatim? then Percented(FilledIn(value, values))
    else Join(Spelled(ItemsOf(FilledAll(Words(value), values), kind.CommandLine?)), ' ')
  }

  lemma {:induction false} ExecutableIsSafe(word: string, values: seq<Value>)
    requires Placeholders(values) && IsPlainWord(word) && TakesAll(word, values, true)
    ensures SafeExecutable(FilledIn(word, values))
  {
    var path := FilledIn(word, values);
    forall k | 0 <= k < |path|
      ensures !IsUnsafe(path[k])
    {
      var c := path[k];
      if IsUnsafe(c) {
        forall j | 0 <= j < |values| && Contains(word, values[j].placeholder)
          ensures c !in values[j].raw
        {
          assert Takes(word, values[j], true);
        }
        FilledCharacters(word, values, |values|, c);
      }
    }
  }

  lemma {:induction false} BodySettles(kind: Kind, value: string, values: seq<Value>)
    requires Placeholders(values) && ValueTakes(kind, value, values)
    ensures !RunsOn(Body(kind, value, values), false)
  {
    if kind.Verbatim? {
      PathReadsBack(FilledIn(value, values));
    } else {
      SpelledSettles(ItemsOf(FilledAll(Words(value), values), kind.CommandLine?));
    }
  }

  /** Value by value, the round trip. */
  lemma {:induction false} BodyReadsBack(kind: Kind, value: string, values: seq<Value>)
    requires Placeholders(values) && IsPlainText(value) && ValueTakes(kind, value, values)
    ensures ReadValue(kind, Body(kind, value, values)) == Some(Meant(kind, value, values)) <==> Sayable(Meant(kind, value, values))
  {
    match kind
    case Verbatim =>
      PathReadsBack(FilledIn(value, values));
    case WordList =>
      AssignmentsReadBack(FilledAll(Words(value), values));
    case CommandLine =>
      var words := Words(value);
      if words != [] {
        WordsAre(value);
        ExecutableIsSafe(words[0], values);
      }
      MeantIsWritten(words, values);
      CommandReadsBack(MeantCommand(words, FilledAll(words, values), values), FilledAll(words, values));
  }

  lemma {:induction false} KeysAgree(line: string)
    requires IsPlainDirective(line)
    ensures Trim(line[..Find(line, '=')], IsBlank) == KeyOf(line)
  {
    TrimsAgree(line[..Find(line, '=')], IsSpace, IsBlank);
  }

  lemma {:induction false} PrintableMarked(s: string, mark: char, specials: set<char>)
    requires IsPrintable(s) && !IsControl(mark)
    ensures IsPrintable(Marked(s, mark, specials))
    decreases |s|
  {
    if s != "" {
      PrintableMarked(s[1..], mark, specials);
    }
  }

  lemma {:induction false} PrintableSpelling(w: string, dollars: bool)
    requires IsPrintable(w)
    ensures IsPrintable(Spelling(w, dollars))
  {
    EscapeWordLayers(w, dollars);
    PrintableMarked(w, '$', {'$'});
    PrintableMarked(if dollars then Marked(w, '$', {'$'}) else w, '%', {'%'});
    PrintableMarked(Doubled(w, dollars), '\\', {'\\', '\"'});
  }

  lemma {:induction false} PrintableJoin(pieces: seq<string>)
    requires forall k :: 0 <= k < |pieces| ==> IsPrintable(pieces[k])
    ensures IsPrintable(Join(pieces, ' '))
    decreases |pieces|
  {
    if |pieces| > 1 {
      PrintableJoin(pieces[1..]);
    }
  }

  /** What the renderer lets into a line is what a line may hold. */
  lemma {:induction false} PrintableFilled(word: string, values: seq<Value>, executable: bool)
    requires Placeholders(values) && IsPrintable(word) && TakesAll(word, values, executable)
    ensures IsPrintable(FilledIn(word, values))
  {
    var filled := FilledIn(word, values);
    forall k | 0 <= k < |filled|
      ensures !IsControl(filled[k])
    {
      var c := filled[k];
      if IsControl(c) {
        forall j | 0 <= j < |values| && Contains(word, values[j].placeholder)
          ensures c !in values[j].raw
        {
          assert Takes(word, values[j], executable);
        }
        FilledCharacters(word, values, |values|, c);
      }
    }
  }

  lemma {:induction false} BodyIsPrintable(kind: Kind, value: string, values: seq<Value>)
    requires Placeholders(values) && IsPlainText(value) && ValueTakes(kind, value, values)
    ensures IsPrintable(Body(kind, value, values))
  {
    if kind.Verbatim? {
      PrintableFilled(value, values, false);
      PrintableMarked(FilledIn(value, values), '%', {'%'});
    } else {
      WordsArePrintable(value, values, kind);
    }
  }

  lemma {:induction false} WordsArePrintable(value: string, values: seq<Value>, kind: Kind)
    requires Placeholders(values) && IsPlainText(value) && LineTakes(Words(value), values, kind.CommandLine?)
    ensures IsPrintable(Join(Spelled(ItemsOf(FilledAll(Words(value), values), kind.CommandLine?)), ' '))
  {
    var words := Words(value);
    var items := ItemsOf(FilledAll(words, values), kind.CommandLine?);
    WordsAre(value);
    forall k | 0 <= k < |items|
      ensures IsPrintable(Spelled(items)[k])
    {
      assert IsPlainWord(words[k]);
      PrintableFilled(words[k], values, kind.CommandLine? && k == 0);
      PrintableSpelling(items[k].text, items[k].dollars);
    }
    PrintableJoin(Spelled(items));
  }

  lemma {:induction false} TrimLeftMore(a: string, b: string, blank: char -> bool)
    requires Trim(a, blank) != ""
    ensures TrimLeft(a + b, blank) != "" && TrimLeft(a + b, blank)[0] == Trim(a, blank)[0]
    decreases |a|
  {
    TrimRightIs(TrimLeft(a, blank), blank);
    if a != "" && blank(a[0]) {
      assert (a + b)[1..] == a[1..] + b;
      TrimLeftMore(a[1..], b, blank);
    }
  }

  /** The directive part of the line is read as it stands. */
  lemma {:induction false} DirectiveOf(line: string, body: string)
    requires IsPlainDirective(line) && !RunsOn(body, false) && IsPrintable(body)
    requires KeyOf(line) != "" && KeyOf(line)[0] != '#' && KeyOf(line)[0] != ';'
    ensures ReadDirective(line[..Find(line, '=')] + ['='] + body) ==
      match ReadValue(KindOf(KeyOf(line)), body)
      case None => None
      case Some(setting) => Some(Directive(KeyOf(line), setting))
  {
    var head := line[..Find(line, '=')];
    FindAfter(head, '=', body);
    SettledByEnd(head + ['='], false);
    RunsOnAfter(head + ['='], body, false);
    KeysAgree(line);
    assert head + ['='] + body == head + (['='] + body);
    TrimLeftMore(head, ['='] + body, IsBlank);
    assert IsPrintable(head);
  }

  /** The whole line, the round trip. */
  lemma {:induction false} LineReadsBack(line: string, values: seq<Value>)
    requires Placeholders(values) && IsPlainDirective(line) && Accepted(line, values)
    ensures KindOf(KeyOf(line)) == RuleFor(KeyOf(line))
    ensures ReadsAsMeant(line, line[..Find(line, '=')] + ['='] + Body(KindOf(KeyOf(line)), ValueOf(line), values), values)
  {
    RulesAgree(KeyOf(line));
    var kind, value := KindOf(KeyOf(line)), ValueOf(line);
    BodySettles(kind, value, values);
    BodyReadsBack(kind, value, values);
    BodyIsPrintable(kind, value, values);
    DirectiveOf(line, Body(kind, value, values));
  }

  /** The value of a directive, by the rule of its kind. */
  method RenderValue(kind: Kind, value: string, values: seq<Value>) returns (r: Result<string, InitError>)
    requires Placeholders(values)
    ensures r.Success? <==> ValueTakes(kind, value, values)
    ensures r.Success? && IsPlainText(value) ==> r.value == Body(kind, value, values)
    ensures r.Success? && '\n' !in value ==> '\n' !in r.value
  {
    match kind
    case Verbatim =>
      r := RenderPathValue(value, values);
    case WordList =>
      r := RenderWords(value, values, false);
    case CommandLine =>
      r := RenderWords(value, values, true);
    case Unknown =>
      r := Failure(UnknownDirective);
  }

  method RenderUnitLine(line: string, values: seq<Value>) returns (r: Result<string, InitError>)
    requires Placeholders(values)
    ensures !Mentions(line, values) ==> r == Success(line)
    ensures Mentions(line, values) && IsComment(line) ==> r == Success(Fill(line, values))
    // What systemd takes for a comment is one.
    ensures IsCommentLine(line) ==> IsComment(line)
    ensures Mentions(line, values) && !IsComment(line) ==>
      && (r.Success? <==> Accepted(line, values))
      && (r.Success? && IsPlainDirective(line) ==> ReadsAsMeant(line, r.value, values))
      && (r.Success? && '\n' !in line ==> '\n' !in r.value)
      && (r.Success? ==> line[..Find(line, '=')] + ['='] <= r.value)
  {
    CommentsAgree(line);
    if !Mentions(line, values) {
      return Success(line);
    }
    if IsComment(line) {
      return Success(Fill(line, values));
    }
    var i := Find(line, '=');
    if i == |line| {
      return Failure(NotADirective);
    }
    assert line[i] == '=';
    var directive, value := line[..i], line[i + 1..];
    var body := RenderValue(RuleFor(Trim(directive, IsSpace)), value, values);
    if body.Failure? {
      return body;
    }
    if IsPlainDirective(line) {
      LineReadsBack(line, values);
    }
    return Success(directive + ['='] + body.value);
  }

  // ---- the whole unit ----

  /** Filling breaks the line at value `k`: the text has come to mention it, and
      its path holds a newline. */
  predicate BreaksAt(line: string, values: seq<Value>, k: nat)
    requires k < |values| && forall v :: v in values ==> v.placeholder != ""
  {
    Contains(Fill(line, values[..k]), values[k].placeholder) && '\n' in values[k].raw
  }

  /** The comments stay comments: no path with a newline gets into one. */
  predicate CommentsStay(line: string, values: seq<Value>)
    requires forall v :: v in values ==> v.placeholder != ""
  {
    Mentions(line, values) && IsComment(line) ==> forall k :: 0 <= k < |values| ==> !BreaksAt(line, values, k)
  }

  lemma {:induction false} FillSnoc(text: string, values: seq<Value>, n: nat)
    requires n < |values| && forall v :: v in values ==> v.placeholder != ""
    ensures Fill(text, values[..n + 1]) == Replace(Fill(text, values[..n]), values[n].placeholder, values[n].raw)
    decreases n
  {
    var v := values[0];
    if n > 0 {
      var next := Replace(text, v.placeholder, v.raw);
      FillSnoc(next, values[1..], n - 1);
      assert values[..n + 1][1..] == values[1..][..n] && values[..n][1..] == values[1..][..n - 1];
    } else {
      assert values[..1][1..] == [] && values[..0] == [];
    }
  }

  lemma {:induction false} OneMoreBreak(line: string, values: seq<Value>, n: nat)
    requires 0 < n <= |values| && forall v :: v in values ==> v.placeholder != ""
    ensures (exists k :: 0 <= k < n && BreaksAt(line, values, k)) <==>
      (exists k :: 0 <= k < n - 1 && BreaksAt(line, values, k)) || BreaksAt(line, values, n - 1)
  {
    if exists k :: 0 <= k < n && BreaksAt(line, values, k) {
      var k :| 0 <= k < n && BreaksAt(line, values, k);
      assert k == n - 1 || k < n - 1;
    }
    if exists k :: 0 <= k < n - 1 && BreaksAt(line, values, k) {
      var k :| 0 <= k < n - 1 && BreaksAt(line, values, k);
      assert 0 <= k < n;
    }
  }

  /** A filled line holds a newline exactly when some value broke it: newlines are
      in no placeholder, so later values do not take them out. */
  lemma {:induction false} FillBreaks(line: string, values: seq<Value>, n: nat)
    requires Placeholders(values) && '\n' !in line && n <= |values|
    ensures '\n' in Fill(line, values[..n]) <==> exists k :: 0 <= k < n && BreaksAt(line, values, k)
    decreases n
  {
    if n == 0 {
      assert values[..0] == [];
    } else {
      FillBreaks(line, values, n - 1);
      FillSnoc(line, values, n - 1);
      var v := values[n - 1];
      assert v in values;
      ReplacedKeeps(Fill(line, values[..n - 1]), v.placeholder, v.raw, '\n');
      OneMoreBreak(line, values, n);
    }
  }

  lemma {:induction false} CommentsStayExactly(line: string, values: seq<Value>)
    requires Placeholders(values) && '\n' !in line && Mentions(line, values) && IsComment(line)
    ensures CommentsStay(line, values) <==> '\n' !in Fill(line, values)
  {
    FillBreaks(line, values, |values|);
    assert values[..|values|] == values;
  }

  /** A unit whose one mention of a path is in a comment: it is accepted, and a
      newline in the path breaks it. */
  lemma {:induction false} CommentCanBreak()
    ensures
      var line, values := "#@H@", [Value("@H@", "a\nb")];
      && Placeholders(values) && LineAccepted(line, values) && !CommentsStay(line, values)
  {
    var line, values := "#@H@", [Value("@H@", "a\nb")];
    assert Placeholders(values) by {
      assert |"@H@"| == 3;
    }
    assert line[1..] == "@H@";
    assert "@H@" <= line[1..];
    assert Contains(line[1..], "@H@");
    assert Contains(line, values[0].placeholder);
    assert Mentions(line, values);
    assert TrimLeft(line, IsSpace) == line && line[0] == '#';
    assert IsComment(line);
    assert values[..0] == [] && Fill(line, values[..0]) == line;
    assert values[0].raw[1] == '\n';
    assert BreaksAt(line, values, 0);
  }

  predicate LineAccepted(line: string, values: seq<Value>)
    requires forall v :: v in values ==> v.placeholder != ""
  {
    Mentions(line, values) && !IsComment(line) ==> Accepted(line, values)
  }

  /** What one line of the template has become. */
  ghost predicate LineRendered(line: string, out: string, values: seq<Value>)
    requires forall v :: v in values ==> v.placeholder != ""
  {
    && (!Mentions(line, values) ==> out == line)
    && (Mentions(line, values) && IsComment(line) ==> out == Fill(line, values))
    && (Mentions(line, values) && !IsComment(line) && IsPlainDirective(line) ==> ReadsAsMeant(line, out, values))
  }

  predicate AllAccepted(lines: seq<string>, values: seq<Value>)
    requires forall v :: v in values ==> v.placeholder != ""
  {
    forall k :: 0 <= k < |lines| ==> LineAccepted(lines[k], values)
  }

  predicate AllCommentsStay(lines: seq<string>, values: seq<Value>)
    requires forall v :: v in values ==> v.placeholder != ""
  {
    forall k :: 0 <= k < |lines| ==> CommentsStay(lines[k], values)
  }

  ghost predicate AllRendered(lines: seq<string>, out: seq<string>, values: seq<Value>)
    requires forall v :: v in values ==> v.placeholder != ""
  {
    |out| == |lines| && forall k :: 0 <= k < |lines| ==> LineRendered(lines[k], out[k], values)
  }

  /** A line that was accepted, rendered, and one line still unless a comment. */
  ghost predicate LineDone(line: string, out: string, values: seq<Value>)
    requires forall v :: v in values ==> v.placeholder != ""
  {
    LineAccepted(line, values) && LineRendered(line, out, values) && ('\n' !in out <==> CommentsStay(line, values))
  }

  ghost predicate AllDone(lines: seq<string>, out: seq<string>, values: seq<Value>)
    requires forall v :: v in values ==> v.placeholder != ""
  {
    |out| == |lines| && forall k :: 0 <= k < |lines| ==> LineDone(lines[k], out[k], values)
  }

  method RenderOneLine(line: string, values: seq<Value>) returns (r: Result<string, InitError>)
    requires Placeholders(values) && '\n' !in line
    ensures r.Success? <==> LineAccepted(line, values)
    ensures r.Success? ==> LineDone(line, r.value, values)
  {
    r := RenderUnitLine(line, values);
    if Mentions(line, values) && IsComment(line) {
      CommentsStayExactly(line, values);
    }
  }

  /** Every line of the template rendered on its own. */
  method RenderLines(lines: seq<string>, values: seq<Value>) returns (r: Result<seq<string>, InitError>)
    requires Placeholders(values) && AllWithout(lines, '\n')
    ensures r.Success? <==> AllAccepted(lines, values)
    ensures r.Success? ==> AllDone(lines, r.value, values)
  {
    var out := [];
    for n := 0 to |lines|
      invariant AllDone(lines[..n], out, values)
    {
      var line := RenderOneLine(lines[n], values);
      if line.Failure? {
        return Failure(line.error);
      }
      out := out + [line.value];
    }
    assert lines[..|lines|] == lines;
    return Success(out);
  }

  /** The unit: refused exactly when some line cannot carry its paths; otherwise
      line for line what the template meant, exactly when no comment is broken
      in two by a path with a newline in it. */
  method RenderUnit(template: string, values: seq<Value>) returns (r: Result<string, InitError>)
    requires Placeholders(values)
    ensures r.Success? <==> AllAccepted(Split(template, '\n'), values)
    ensures r.Success? ==>
      (|Split(r.value, '\n')| == |Split(template, '\n')| <==> AllCommentsStay(Split(template, '\n'), values))
    ensures r.Success? && |Split(r.value, '\n')| == |Split(template, '\n')| ==>
      AllRendered(Split(template, '\n'), Split(r.value, '\n'), values)
  {
    PiecesAreClean(template, '\n');
    OnePiece(template, '\n');
    var out := RenderLines(Split(template, '\n'), values);
    if out.Failure? {
      return Failure(out.error);
    }
    JoinedPieces(out.value, '\n');
    SplitInvertsJoin(out.value, '\n');
    return Success(Join(out.value, '\n'));
  }
}

/** What systemd takes from a unit line: the section "Quoting" of
    systemd.syntax(7), the section "Command lines" of systemd.service(5) and
    the specifier rule of systemd.unit(5). `None` is a line it rejects, or one
    whose reading depends on the host it runs on. */
module SystemdReader {
  import opened Wrappers
  import opened Text

  predicate IsBlank(c: char) {
    c == ' ' || c == '\t' || c == '\n' || c == '\r'
  }

  predicate IsQuote(c: char) {
    c == '\"' || c == '\''
  }

  /** The one-letter C-style escapes; the numeric ones are refused here. */
  function Unescape(c: char): Option<char> {
    match c
    case '\\' => Some('\\')
    case '\"' => Some('\"')
    case '\'' => Some('\'')
    case 's' => Some(' ')
    case 'n' => Some('\n')
    case 'r' => Some('\r')
    case 't' => Some('\t')
    case 'a' => Some('\U{07}')
    case 'b' => Some('\U{08}')
    case 'f' => Some('\U{0C}')
    case 'v' => Some('\U{0B}')
    case _ => None
  }

  /** A word read, and what is left of the line. */
  datatype Scan = Scan(text: string, rest: string)

  function Prepend(c: char, scan: Option<Scan>): Option<Scan> {
    match scan
    case None => None
    case Some(Scan(text, rest)) => Some(Scan([c] + text, rest))
  }

  /** A word without quotes, up to the next blank. */
  function ReadBare(s: string): (scan: Option<Scan>)
    ensures scan.Some? ==> |scan.value.rest| <= |s|
    ensures scan.Some? && s != "" && !IsBlank(s[0]) ==> |scan.value.rest| < |s|
    decreases |s|
  {
    if s == "" || IsBlank(s[0]) then Some(Scan("", s))
    else if IsQuote(s[0]) then None
    else if s[0] != '\\' then Prepend(s[0], ReadBare(s[1..]))
    else if |s| == 1 || Unescape(s[1]).None? then None
    else Prepend(Unescape(s[1]).value, ReadBare(s[2..]))
  }

  /** The inside of a quoted word; its closing quote ends the word. */
  function ReadQuoted(s: string, quote: char): (scan: Option<Scan>)
    ensures scan.Some? ==> |scan.value.rest| <= |s|
    decreases |s|
  {
    if s == "" then None
    else if s[0] == quote then
      if |s| == 1 || IsBlank(s[1]) then Some(Scan("", s[1..])) else None
    else if s[0] != '\\' then Prepend(s[0], ReadQuoted(s[1..], quote))
    else if |s| == 1 || Unescape(s[1]).None? then None
    else Prepend(Unescape(s[1]).value, ReadQuoted(s[2..], quote))
  }

  function ReadWord(s: string): (scan: Option<Scan>)
    requires s != "" && !IsBlank(s[0])
    ensures scan.Some? ==> |scan.value.rest| < |s|
  {
    if IsQuote(s[0]) then ReadQuoted(s[1..], s[0]) else ReadBare(s)
  }

  /** A word with the text it was spelled by. */
  datatype Word = Word(text: string, spelling: string)

  function ReadWords(s: string): Option<seq<Word>>
    decreases |s|
  {
    if s == "" then Some([])
    else if IsBlank(s[0]) then ReadWords(s[1..])
    else
      match ReadWord(s)
      case None => None
      case Some(Scan(text, rest)) =>
        match ReadWords(rest)
        case None => None
        case Some(words) => Some([Word(text, s[..|s| - |rest|])] + words)
  }

  /** A doubled mark stands for one; a single one starts something that only the
      running system can expand. */
  function Collapse(s: string, mark: char): Option<string>
    decreases |s|
  {
    if s == "" then Some("")
    else if s[0] != mark then
      match Collapse(s[1..], mark)
      case None => None
      case Some(t) => Some([s[0]] + t)
    else if |s| == 1 || s[1] != mark then None
    else
      match Collapse(s[2..], mark)
      case None => None
      case Some(t) => Some([mark] + t)
  }

  function Specifiers(s: string): Option<string> { Collapse(s, '%') }

  function Dollars(s: string): Option<string> { Collapse(s, '$') }

  /** Expand the specifiers, and the variables too in an argument. */
  function Expand(s: string, dollars: bool): Option<string> {
    match Specifiers(s)
    case None => None
    case Some(t) => if dollars then Dollars(t) else Some(t)
  }

  function ExpandAll(words: seq<Word>, dollars: bool): (r: Option<seq<string>>)
    ensures r.Some? ==> |r.value| == |words|
  {
    if words == [] then Some([])
    else
      match Expand(words[0].text, dollars)
      case None => None
      case Some(t) =>
        match ExpandAll(words[1..], dollars)
        case None => None
        case Some(ts) => Some([t] + ts)
  }

  datatype Command = Command(prefix: string, path: string, arguments: seq<string>)

  predicate IsPrefix(c: char) {
    c == '@' || c == '-' || c == ':' || c == '+' || c == '!' || c == '|'
  }

  function PrefixLength(s: string): (n: nat)
    ensures n <= |s|
  {
    if s == "" || !IsPrefix(s[0]) then 0 else 1 + PrefixLength(s[1..])
  }

  /** Characters no executable may have, quoted or not. */
  predicate IsUnsafe(c: char) {
    c < ' ' || c == '\U{7F}' || IsQuote(c) || c == '\\'
  }

  predicate SafeExecutable(path: string) {
    forall k :: 0 <= k < |path| ==> !IsUnsafe(path[k])
  }

  /** A lone semicolon starts another command. */
  predicate OneCommand(words: seq<Word>) {
    forall k :: 0 < k < |words| ==> words[k].spelling != ";"
  }

  function ReadCommand(s: string): Option<Command> {
    match ReadWords(s)
    case None => None
    case Some(words) => if words == [] || !OneCommand(words) then None else AsCommand(words)
  }

  function AsCommand(words: seq<Word>): (r: Option<Command>)
    requires words != []
    ensures r.Some? ==> |r.value.arguments| == |words| - 1
  {
    var first := words[0].text;
    var n := PrefixLength(first);
    match (Specifiers(first[n..]), ExpandAll(words[1..], true))
    case (Some(path), Some(arguments)) =>
      if SafeExecutable(path) then Some(Command(first[..n], path, arguments)) else None
    case _ => None
  }

  /** A directive read to the end of its line. */
  function ReadVerbatim(s: string): Option<string> {
    Specifiers(Trim(s, IsBlank))
  }

  /** Whether the line runs on into the next: it ends on a backslash that is not
      itself escaped. */
  predicate RunsOn(s: string, escaped: bool) {
    if s == "" then escaped else RunsOn(s[1..], !escaped && s[0] == '\\')
  }

  /** How a directive's value is read. */
  datatype Kind = Verbatim | WordList | CommandLine | Unknown

  /** The command lines of a service, systemd.service(5). */
  const COMMAND_DIRECTIVES := ["ExecStart", "ExecStartPre", "ExecStartPost", "ExecCondition", "ExecReload", "ExecStop", "ExecStopPost"]

  /** Word lists and paths of the execution environment, systemd.exec(5). */
  const WORD_DIRECTIVES := ["Environment", "PassEnvironment", "UnsetEnvironment"]

  const PATH_DIRECTIVES := ["WorkingDirectory", "RootDirectory"]

  function KindOf(key: string): Kind {
    if key in COMMAND_DIRECTIVES then CommandLine
    else if key in WORD_DIRECTIVES then WordList
    else if key in PATH_DIRECTIVES then Verbatim
    else Unknown
  }

  datatype Setting =
    | Path(path: string)
    | Assignments(words: seq<string>)
    | Run(command: Command)

  function ReadValue(kind: Kind, value: string): Option<Setting> {
    match kind
    case Verbatim => (match ReadVerbatim(value) case None => None case Some(path) => Some(Path(path)))
    case WordList => (match ReadAssignments(value) case None => None case Some(words) => Some(Assignments(words)))
    case CommandLine => (match ReadCommand(value) case None => None case Some(command) => Some(Run(command)))
    case Unknown => None
  }

  function ReadAssignments(s: string): Option<seq<string>> {
    match ReadWords(s)
    case None => None
    case Some(words) => ExpandAll(words, false)
  }

  /** A comment, never parsed. */
  predicate IsCommentLine(line: string) {
    var rest := TrimLeft(line, IsBlank);
    rest != "" && (rest[0] == '#' || rest[0] == ';')
  }

  /** Characters that no unit line may hold. */
  predicate IsControl(c: char) { (c < ' ' && c != '\t') || c == '\U{7F}' }

  predicate IsPrintable(line: string) {
    forall k :: 0 <= k < |line| ==> !IsControl(line[k])
  }

  /** A line that sets `key`. */
  datatype Directive = Directive(key: string, setting: Setting)

  function ReadDirective(line: string): Option<Directive> {
    var i := Find(line, '=');
    if i == |line| || RunsOn(line, false) || IsCommentLine(line) || !IsPrintable(line) then None
    else
      var key := Trim(line[..i], IsBlank);
      match ReadValue(KindOf(key), line[i + 1..])
      case None => None
      case Some(setting) => Some(Directive(key, setting))
  }
}

/** Work-item ids: `gh:issue:7`, `gl:owner/name:pr:7`, the bare `gh:7` of old,
    and the local ids of chats, schedules and the remote API. */
module ForgeIds {
  import opened Wrappers
  import opened Text
  import opened Decimal

  datatype Kind = Issue | PullRequest
  datatype Forge = GitHub | GitLab | Gitea
  datatype GhId = GhId(kind: Kind, number: int, repo: Option<string>, forge: Forge)

  function Prefix(f: Forge): (s: string)
    ensures |s| == 3
  {
    match f
    case GitHub => "gh:"
    case GitLab => "gl:"
    case Gitea => "gt:"
  }

  function KindText(k: Kind): string {
    match k
    case Issue => "issue"
    case PullRequest => "pr"
  }

  function KindOf(text: string): Option<Kind> {
    if text == "issue" then Some(Issue) else if text == "pr" then Some(PullRequest) else None
  }

  predicate IsSlugChar(c: char) {
    'A' <= c <= 'Z' || 'a' <= c <= 'z' || '0' <= c <= '9' || c == '.' || c == '_' || c == '-'
  }

  /** The characters of a repository slug, by their ASCII codes: `-`, `.`, the
      digits, the capitals, `_` and the small letters. */
  lemma {:induction false} SlugCharacters(c: char)
    ensures var n := c as int;
      IsSlugChar(c) <==> n == 45 || n == 46 || 48 <= n <= 57 || 65 <= n <= 90 || n == 95 || 97 <= n <= 122
  {
  }

  /** A slug is an owner and a name, of those characters, with one slash between. */
  lemma {:induction false} SlugsAre(owner: string, name: string)
    ensures '/' !in owner ==> (IsSlug(owner + "/" + name) <==> IsSlugPart(owner) && IsSlugPart(name))
    ensures '/' in name ==> !IsSlugPart(name)
  {
    if '/' !in owner {
      FindAfter(owner, '/', name);
    }
  }

  predicate IsSlugPart(s: string) {
    s != "" && forall k :: 0 <= k < |s| ==> IsSlugChar(s[k])
  }

  /** `owner/name`. */
  predicate IsSlug(s: string) {
    var i := Find(s, '/');
    i < |s| && IsSlugPart(s[..i]) && IsSlugPart(s[i + 1..])
  }

  predicate WellFormed(id: GhId) {
    id.number >= 1 && (id.repo.Some? ==> IsSlug(id.repo.value))
  }

  function RepoPart(repo: Option<string>): string {
    if repo.Some? then repo.value + ":" else ""
  }

  function Format(id: GhId): Option<string> {
    if id.number < 1 then None
    else if id.repo.None? then Some(Prefix(id.forge) + KindText(id.kind) + ":" + Show(id.number))
    else if !IsSlug(id.repo.value) then None
    else Some(Prefix(id.forge) + id.repo.value + ":" + KindText(id.kind) + ":" + Show(id.number))
  }

  function ForgeOf(value: string): Option<Forge> {
    if "gh:" <= value then Some(GitHub)
    else if "gl:" <= value then Some(GitLab)
    else if "gt:" <= value then Some(Gitea)
    else None
  }

  function Parse(value: string): Option<GhId> {
    match ForgeOf(value)
    case None => None
    case Some(forge) => ParseRest(forge, value[3..])
  }

  function ParseRest(forge: Forge, rest: string): Option<GhId> {
    var i := Find(rest, ':');
    if i < |rest| && '/' in rest[..i] then
      if !IsSlug(rest[..i]) || ':' !in rest[i + 1..] then None
      else ParseTyped(forge, Some(rest[..i]), rest[i + 1..])
    else if '/' in rest then None
    else if ':' in rest then ParseTyped(forge, None, rest)
    else ParseNumber(forge, None, Issue, rest)
  }

  function ParseTyped(forge: Forge, repo: Option<string>, rest: string): Option<GhId>
    requires ':' in rest
  {
    var j := Find(rest, ':');
    match KindOf(rest[..j])
    case None => None
    case Some(kind) => ParseNumber(forge, repo, kind, rest[j + 1..])
  }

  function ParseNumber(forge: Forge, repo: Option<string>, kind: Kind, text: string): Option<GhId> {
    if !IsNumeral(text) || Value(text) < 1 then None else Some(GhId(kind, Value(text), repo, forge))
  }

  /** What the part after the prefix may look like. */
  ghost predicate SpellsRest(rest: string, id: GhId, digits: string, typed: bool) {
    && WellFormed(id) && IsNumeral(digits) && Value(digits) == id.number
    && (typed || (id.repo.None? && id.kind == Issue))
    && rest == RepoPart(id.repo) + (if typed then KindText(id.kind) + ":" else "") + digits
  }

  /** The grammar: any numeral for the number, the kind left out only in the old
      unqualified form for an issue. */
  ghost predicate Spells(s: string, id: GhId, digits: string, typed: bool) {
    Prefix(id.forge) <= s && SpellsRest(s[3..], id, digits, typed)
  }

  lemma {:induction false} PrefixTellsForge(f: Forge, rest: string)
    ensures ForgeOf(Prefix(f) + rest) == Some(f) && (Prefix(f) + rest)[3..] == rest
  {
    var s := Prefix(f) + rest;
    assert s[1] == Prefix(f)[1];
    assert Prefix(f) <= s;
  }

  lemma {:induction false} SlugHasNoColon(s: string)
    requires IsSlug(s)
    ensures ':' !in s && '/' in s
  {
    FindSplits(s, '/');
    var i := Find(s, '/');
    assert ':' !in s[..i] && ':' !in s[i + 1..];
  }

  lemma {:induction false} TypedParses(forge: Forge, repo: Option<string>, kind: Kind, digits: string)
    requires IsNumeral(digits) && Value(digits) >= 1
    ensures var rest := KindText(kind) + ":" + digits;
      ':' in rest && ParseTyped(forge, repo, rest) == Some(GhId(kind, Value(digits), repo, forge))
  {
    FindAfter(KindText(kind), ':', digits);
    var rest := KindText(kind) + ":" + digits;
    assert rest[|KindText(kind)|] == ':';
  }

  lemma {:induction false} QualifiedParses(forge: Forge, repo: string, kind: Kind, digits: string)
    requires IsSlug(repo) && IsNumeral(digits) && Value(digits) >= 1
    ensures ParseRest(forge, repo + ":" + (KindText(kind) + ":" + digits)) == Some(GhId(kind, Value(digits), Some(repo), forge))
  {
    var tail := KindText(kind) + ":" + digits;
    SlugHasNoColon(repo);
    FindAfter(repo, ':', tail);
    TypedParses(forge, Some(repo), kind, digits);
  }

  lemma {:induction false} UnqualifiedParses(forge: Forge, kind: Kind, digits: string)
    requires IsNumeral(digits) && Value(digits) >= 1
    ensures ParseRest(forge, KindText(kind) + ":" + digits) == Some(GhId(kind, Value(digits), None, forge))
  {
    FindAfter(KindText(kind), ':', digits);
    assert '/' !in KindText(kind) + ":" + digits;
    TypedParses(forge, None, kind, digits);
  }

  lemma {:induction false} RestParses(rest: string, id: GhId, digits: string, typed: bool)
    requires SpellsRest(rest, id, digits, typed)
    ensures ParseRest(id.forge, rest) == Some(id)
  {
    if id.repo.Some? {
      assert rest == id.repo.value + ":" + (KindText(id.kind) + ":" + digits);
      QualifiedParses(id.forge, id.repo.value, id.kind, digits);
    } else if typed {
      assert rest == KindText(id.kind) + ":" + digits;
      UnqualifiedParses(id.forge, id.kind, digits);
    } else {
      assert rest == digits;
      FindIs(rest, ':', |rest|);
    }
  }

  lemma {:induction false} TypedIsSpelled(forge: Forge, repo: Option<string>, rest: string) returns (digits: string)
    requires ':' in rest && ParseTyped(forge, repo, rest).Some?
    ensures var id := ParseTyped(forge, repo, rest).value;
      && id.forge == forge && id.repo == repo && id.number >= 1
      && IsNumeral(digits) && Value(digits) == id.number && rest == KindText(id.kind) + ":" + digits
  {
    FindSplits(rest, ':');
    digits := rest[Find(rest, ':') + 1..];
  }

  lemma {:induction false} QualifiedIsSpelled(forge: Forge, rest: string) returns (digits: string)
    requires ParseRest(forge, rest).Some? && '/' in rest[..Find(rest, ':')]
    ensures ParseRest(forge, rest).value.forge == forge
    ensures SpellsRest(rest, ParseRest(forge, rest).value, digits, true)
  {
    var i := Find(rest, ':');
    assert i < |rest|;
    FindSplits(rest, ':');
    digits := TypedIsSpelled(forge, Some(rest[..i]), rest[i + 1..]);
    Regroup(rest[..i], KindText(ParseRest(forge, rest).value.kind), digits);
  }

  lemma {:induction false} Regroup(repo: string, kind: string, digits: string)
    ensures repo + ":" + (kind + ":" + digits) == (repo + ":") + (kind + ":") + digits
  {
  }

  lemma {:induction false} UnqualifiedIsSpelled(forge: Forge, rest: string) returns (digits: string)
    requires ParseRest(forge, rest).Some? && '/' !in rest && ':' in rest
    ensures ParseRest(forge, rest).value.forge == forge
    ensures SpellsRest(rest, ParseRest(forge, rest).value, digits, true)
  {
    digits := TypedIsSpelled(forge, None, rest);
    var kind := ParseRest(forge, rest).value.kind;
    assert KindText(kind) + ":" + digits == "" + (KindText(kind) + ":") + digits;
  }

  lemma {:induction false} RestIsSpelled(forge: Forge, rest: string) returns (digits: string, typed: bool)
    requires ParseRest(forge, rest).Some?
    ensures ParseRest(forge, rest).value.forge == forge
    ensures SpellsRest(rest, ParseRest(forge, rest).value, digits, typed)
  {
    if '/' in rest[..Find(rest, ':')] {
      typed := true;
      digits := QualifiedIsSpelled(forge, rest);
    } else if ':' in rest {
      typed := true;
      digits := UnqualifiedIsSpelled(forge, rest);
    } else {
      digits, typed := rest, false;
    }
  }

  /** An id parses exactly when it is spelled by the grammar, and to what it
      spells. */
  lemma {:induction false} ParsesByTheGrammar(s: string, id: GhId)
    ensures Parse(s) == Some(id) <==> exists digits, typed :: Spells(s, id, digits, typed)
  {
    if Parse(s) == Some(id) {
      assert Prefix(id.forge) <= s by {
        var _, _ := RestIsSpelled(ForgeOf(s).value, s[3..]);
      }
      var digits, typed := RestIsSpelled(id.forge, s[3..]);
      assert Spells(s, id, digits, typed);
    }
    if exists digits, typed :: Spells(s, id, digits, typed) {
      var digits, typed :| Spells(s, id, digits, typed);
      assert s == Prefix(id.forge) + s[3..];
      PrefixTellsForge(id.forge, s[3..]);
      RestParses(s[3..], id, digits, typed);
    }
  }

  /** Formatting succeeds exactly on well-formed ids, and parsing undoes it. */
  lemma {:induction false} ParseInvertsFormat(id: GhId)
    ensures Format(id).Some? <==> WellFormed(id)
    ensures Format(id).Some? ==> Parse(Format(id).value) == Some(id)
  {
    if WellFormed(id) {
      var digits := Show(id.number);
      ShowIsCanonical(id.number);
      var rest := RepoPart(id.repo) + (KindText(id.kind) + ":") + digits;
      assert Format(id).value == Prefix(id.forge) + rest;
      PrefixTellsForge(id.forge, rest);
      RestParses(rest, id, digits, true);
    }
  }

  lemma {:induction false} FormatIsInjective(a: GhId, b: GhId)
    requires Format(a).Some? && Format(a) == Format(b)
    ensures a == b
  {
    ParseInvertsFormat(a);
    ParseInvertsFormat(b);
  }

  lemma {:induction false} ParsedIsWellFormed(s: string)
    requires Parse(s).Some?
    ensures WellFormed(Parse(s).value) && Format(Parse(s).value).Some?
  {
    var _, _ := RestIsSpelled(ForgeOf(s).value, s[3..]);
    ParseInvertsFormat(Parse(s).value);
  }

  function Normalize(value: string): string {
    match Parse(value)
    case None => value
    case Some(id) => Format(id).GetOr(value)
  }

  /** Normalising keeps the id, is done after one pass, and gives two spellings
      the same form exactly when they name the same thing. */
  lemma {:induction false} NormalizeIsCanonical(s: string, t: string)
    ensures Parse(Normalize(s)) == Parse(s)
    ensures Normalize(Normalize(s)) == Normalize(s)
    ensures Parse(s).Some? && Parse(t).Some? ==> (Normalize(s) == Normalize(t) <==> Parse(s) == Parse(t))
  {
    if Parse(s).Some? {
      ParsedIsWellFormed(s);
      ParseInvertsFormat(Parse(s).value);
    }
    if Parse(t).Some? {
      ParsedIsWellFormed(t);
      ParseInvertsFormat(Parse(t).value);
    }
  }

  function Head(id: GhId): string { RepoPart(id.repo) + (KindText(id.kind) + ":") }

  lemma {:induction false} FormatIs(id: GhId)
    requires WellFormed(id)
    ensures Format(id) == Some(Prefix(id.forge) + (Head(id) + Show(id.number)))
  {
    var p, k, n := Prefix(id.forge), KindText(id.kind), Show(id.number);
    if id.repo.None? {
      assert p + k + ":" + n == p + (Head(id) + n);
    } else {
      assert p + id.repo.value + ":" + k + ":" + n == p + (Head(id) + n);
    }
  }

  lemma {:induction false} SpelledOut(s: string, id: GhId, digits: string, typed: bool)
    requires Spells(s, id, digits, typed)
    ensures s == Prefix(id.forge) + (if typed then Head(id) + digits else digits)
  {
    assert s == Prefix(id.forge) + s[3..];
    if !typed {
      assert s[3..] == digits;
    }
  }

  lemma {:induction false} NormalForm(s: string, id: GhId, digits: string, typed: bool)
    requires Spells(s, id, digits, typed)
    ensures Normalize(s) == Prefix(id.forge) + (Head(id) + Show(id.number))
  {
    FormatIs(id);
    assert Parse(s) == Some(id) by {
      ParsesByTheGrammar(s, id);
    }
  }

  lemma {:induction false} SameTail(head: string, a: string, b: string)
    ensures head + a == head + b <==> a == b
  {
    if head + a == head + b {
      assert a == (head + a)[|head|..];
      assert b == (head + b)[|head|..];
    }
  }

  lemma {:induction false} HeadIsNoNumeral(id: GhId, rest: string, digits: string)
    requires WellFormed(id) && IsNumeral(digits)
    ensures Head(id) + rest != digits
  {
    var s := Head(id) + rest;
    assert s[|Head(id)| - 1] == ':' && ':' in s;
    assert ':' !in digits;
  }

  /** Which spellings are already canonical: the kind is there and the number has
      no leading zero. */
  lemma {:induction false} CanonicalSpelling(s: string, id: GhId, digits: string, typed: bool)
    requires Spells(s, id, digits, typed)
    ensures Normalize(s) == s <==> typed && IsCanonical(digits)
  {
    NormalForm(s, id, digits, typed);
    SpelledOut(s, id, digits, typed);
    ShowIsCanonical(id.number);
    if typed {
      SameTail(Prefix(id.forge), Head(id) + Show(id.number), Head(id) + digits);
      SameTail(Head(id), Show(id.number), digits);
      if IsCanonical(digits) {
        ValueOfCanonical(digits);
      }
    } else {
      SameTail(Prefix(id.forge), Head(id) + Show(id.number), digits);
      HeadIsNoNumeral(id, Show(id.number), digits);
    }
  }

  /** The old bare form is the issue of that number. */
  lemma {:induction false} LegacyIsAnIssue(forge: Forge, digits: string)
    requires IsNumeral(digits) && Value(digits) >= 1
    ensures Parse(Prefix(forge) + digits) == Some(GhId(Issue, Value(digits), None, forge))
    ensures Some(Normalize(Prefix(forge) + digits)) == Format(GhId(Issue, Value(digits), None, forge))
  {
    BareParses(forge, digits);
    ParseInvertsFormat(GhId(Issue, Value(digits), None, forge));
  }

  /** A leading zero more or less names the same thing. */
  lemma {:induction false} LeadingZeroIsDropped(forge: Forge, digits: string)
    requires IsNumeral(digits) && Value(digits) >= 1
    ensures Normalize(Prefix(forge) + ("0" + digits)) == Normalize(Prefix(forge) + digits)
  {
    LeadingZero(digits);
    LegacyIsAnIssue(forge, digits);
    LegacyIsAnIssue(forge, "0" + digits);
  }

  lemma {:induction false} BareParses(forge: Forge, digits: string)
    requires IsNumeral(digits) && Value(digits) >= 1
    ensures Parse(Prefix(forge) + digits) == Some(GhId(Issue, Value(digits), None, forge))
  {
    PrefixTellsForge(forge, digits);
    RestParses(digits, GhId(Issue, Value(digits), None, forge), digits, false);
  }

  // ---- local ids ----

  predicate HasSpace(s: string) {
    exists k :: 0 <= k < |s| && IsSpace(s[k])
  }

  function ScheduleId(name: string, due: string): Option<string> {
    if name == "" || ':' in name || HasSpace(name) || due == "" || HasSpace(due) then None
    else Some("sched:" + name + ":" + due)
  }

  predicate StartsLocal(prefix: string, value: string) {
    prefix <= value && |value| > |prefix|
  }

  predicate IsLocal(value: string) {
    StartsLocal("chat:", value) || StartsLocal("sched:", value) || StartsLocal("api:", value)
  }

  function ParseSchedule(value: string): Option<(string, string)> {
    if !StartsLocal("sched:", value) then None
    else
      var rest := value[6..];
      var i := Find(rest, ':');
      if i == |rest| || i == 0 || i + 1 == |rest| then None else Some((rest[..i], rest[i + 1..]))
  }

  /** Schedule ids read back, though the due part may hold colons of its own. */
  lemma {:induction false} ScheduleReadsBack(name: string, due: string)
    requires ScheduleId(name, due).Some?
    ensures ParseSchedule(ScheduleId(name, due).value) == Some((name, due)) && IsLocal(ScheduleId(name, due).value)
  {
    var value := ScheduleId(name, due).value;
    assert "sched:" <= value;
    assert value[6..] == name + ":" + due;
    FindAfter(name, ':', due);
  }

  /** A schedule id parses to exactly the name before the first colon and the due
      part after it, neither of them empty. */
  lemma {:induction false} ScheduleParsesExactly(value: string, name: string, due: string)
    ensures ParseSchedule(value) == Some((name, due)) <==>
      name != "" && ':' !in name && due != "" && value == "sched:" + name + ":" + due
  {
    if ParseSchedule(value) == Some((name, due)) {
      FindSplits(value[6..], ':');
      assert value == "sched:" + value[6..];
    }
    if name != "" && ':' !in name && due != "" && value == "sched:" + name + ":" + due {
      assert value[6..] == name + ":" + due;
      FindAfter(name, ':', due);
    }
  }

  lemma {:induction false} SpaceSomewhere(a: string, b: string)
    ensures HasSpace(a + b) <==> HasSpace(a) || HasSpace(b)
  {
    if HasSpace(a) {
      var k :| 0 <= k < |a| && IsSpace(a[k]);
      assert (a + b)[k] == a[k];
    }
    if HasSpace(b) {
      var k :| 0 <= k < |b| && IsSpace(b[k]);
      assert (a + b)[|a| + k] == b[k];
    }
  }

  /** The ids that are made are exactly those that parse and hold no white space. */
  lemma {:induction false} ScheduleIdsAre(value: string, name: string, due: string)
    ensures ScheduleId(name, due) == Some(value) <==> ParseSchedule(value) == Some((name, due)) && !HasSpace(value)
  {
    ScheduleParsesExactly(value, name, due);
    SpaceSomewhere("sched:", name);
    SpaceSomewhere("sched:" + name, ":");
    SpaceSomewhere("sched:" + name + ":", due);
    assert !HasSpace("sched:") && !HasSpace(":");
  }

  /** No id is both local and a forge's, so normalising leaves local ids alone. */
  lemma {:induction false} LocalIsNotForge(value: string)
    requires IsLocal(value)
    ensures ForgeOf(value) == None && Normalize(value) == value
  {
    assert value[0] == 'c' || value[0] == 's' || value[0] == 'a';
    assert "gh:"[0] == 'g' && "gl:"[0] == 'g' && "gt:"[0] == 'g';
  }
}

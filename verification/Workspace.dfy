/** A checkout as git sees it, and the changes a run made in it. */
module Workspace {
  import opened Wrappers
  import opened Lines

  type Path = string
  type Sha = string

  datatype FileMode = Regular | Executable | Symlink

  /** A tree entry: a blob, where a symlink's content is its target, or a
      submodule's commit. */
  datatype Node = Blob(mode: FileMode, content: Bytes) | Gitlink(sha: Sha)

  type Tree = map<Path, Node>

  datatype Submodule = Submodule(head: Option<Sha>, dirty: bool, published: set<Sha>)

  /** The index, the files and symlinks on disk, the submodule directories, and
      what the ignore rules match. */
  datatype Checkout = Checkout(index: Tree, disk: Tree, submodules: map<Path, Submodule>, ignored: set<Path>)

  /** Submodule directories stand only where the index has a submodule. */
  ghost predicate Valid(c: Checkout) {
    && (forall p :: p in c.disk ==> c.disk[p].Blob?)
    && (forall p :: p in c.submodules ==> p in c.index && c.index[p].Gitlink? && p !in c.disk)
  }

  function Get(t: Tree, p: Path): Option<Node> {
    if p in t then Some(t[p]) else None
  }

  /** What stands in the work tree at an indexed path. */
  function Standing(c: Checkout, p: Path): Option<Node> {
    if p !in c.index then None
    else if p in c.disk then Some(c.disk[p])
    else if p !in c.submodules then None
    else if c.submodules[p].head.Some? then Some(Gitlink(c.submodules[p].head.value))
    else Some(c.index[p])
  }

  predicate Untracked(c: Checkout, p: Path) {
    p in c.disk && p !in c.index && p !in c.ignored
  }

  /** The workspace's tree: what adding everything would commit. */
  function Present(c: Checkout, p: Path): Option<Node> {
    if Untracked(c, p) then Some(c.disk[p]) else Standing(c, p)
  }

  // ---- what git reports ----

  datatype RawMode = NoMode | FileRaw | LinkRaw
  datatype Letter = A | D | M | T

  datatype Record = Record(path: Path, oldMode: RawMode, newMode: RawMode, oldSha: Option<Sha>, newSha: Option<Sha>, letter: Letter)

  function RawModeOf(n: Option<Node>): RawMode {
    match n
    case None => NoMode
    case Some(Blob(_, _)) => FileRaw
    case Some(Gitlink(_)) => LinkRaw
  }

  function LinkSha(n: Option<Node>): Option<Sha> {
    match n
    case Some(Gitlink(sha)) => Some(sha)
    case _ => None
  }

  function LetterOf(was: Option<Node>, now: Option<Node>): Letter {
    if was.None? then A
    else if now.None? then D
    else if RawModeOf(was) != RawModeOf(now) then T
    else M
  }

  /** The record `git diff --raw` has for `p`: one where the work tree differs
      from the commit, or where a submodule stands away from the index; the new
      sha is left out when it is not the staged one. */
  function Reported(base: Tree, c: Checkout, p: Path): Option<Record> {
    var was, now := Get(base, p), Standing(c, p);
    var moved := now.Some? && now.value.Gitlink? && now != Get(c.index, p);
    if was == now && !moved then None
    else Some(Record(p, RawModeOf(was), RawModeOf(now), LinkSha(was), if moved then None else LinkSha(now), LetterOf(was, now)))
  }

  ghost predicate IsDiff(base: Tree, c: Checkout, records: seq<Record>) {
    && (forall k :: 0 <= k < |records| ==> Reported(base, c, records[k].path) == Some(records[k]))
    && (forall p :: Reported(base, c, p).Some? ==> Reported(base, c, p).value in records)
  }

  ghost predicate ListsUntracked(c: Checkout, paths: seq<Path>) {
    forall p :: p in paths <==> Untracked(c, p)
  }

  // ---- changes ----

  datatype Status = Added | Modified | Deleted
  datatype ChangeMode = NoFile | File(mode: FileMode) | Link

  datatype Change = Change(path: Path, status: Status, mode: ChangeMode, sha: Option<Sha>)

  datatype Note = InsideSubmodule(path: Path) | Unpublished(path: Path) | LargeFile(path: Path)

  function DescribeChange(c: Checkout, p: Path, letter: Letter): Change {
    if letter == D || p !in c.disk || !c.disk[p].Blob? then Change(p, Deleted, NoFile, None)
    else Change(p, if letter == A then Added else Modified, File(c.disk[p].mode), None)
  }

  predicate IsDirty(c: Checkout, p: Path) {
    p in c.submodules && c.submodules[p].dirty
  }

  predicate IsPublished(c: Checkout, p: Path, sha: Sha) {
    p in c.submodules && sha in c.submodules[p].published
  }

  function Head(c: Checkout, p: Path): Option<Sha> {
    if p in c.submodules then c.submodules[p].head else None
  }

  /** One record as a change, with what it leaves to say. */
  function ChangeFromRaw(c: Checkout, r: Record): (Option<Change>, seq<Note>) {
    if r.oldMode != LinkRaw && r.newMode != LinkRaw then (Some(DescribeChange(c, r.path, r.letter)), [])
    else if r.newMode != LinkRaw then
      if r.newMode == NoMode then (Some(Change(r.path, Deleted, Link, None)), [])
      else (Some(DescribeChange(c, r.path, r.letter)), [])
    else
      var sha := if r.newSha.None? then Head(c, r.path) else r.newSha;
      var inside := if IsDirty(c, r.path) then [InsideSubmodule(r.path)] else [];
      if sha.None? then (None, [InsideSubmodule(r.path)])
      else if sha == r.oldSha then (None, inside)
      else if !IsPublished(c, r.path, sha.value) then (None, inside + [Unpublished(r.path)])
      else (Some(Change(r.path, if r.letter == A then Added else Modified, Link, sha)), inside)
  }

  /** What the workspace is to have at a changed path. */
  function Target(c: Checkout, change: Change): Option<Node> {
    match change.mode
    case NoFile => None
    case File(mode) => if change.path in c.disk && c.disk[change.path].Blob? then Some(Blob(mode, c.disk[change.path].content)) else None
    case Link => if change.status == Deleted || change.sha.None? then None else Some(Gitlink(change.sha.value))
  }

  /** The last word on `p`: an untracked file overrides the diff. */
  ghost function ChangeAt(base: Tree, c: Checkout, p: Path): Option<Change> {
    if Untracked(c, p) then Some(DescribeChange(c, p, A))
    else
      match Reported(base, c, p)
      case None => None
      case Some(r) => ChangeFromRaw(c, r).0
  }

  /** A submodule at a commit its remote does not have. */
  predicate Stuck(c: Checkout, p: Path) {
    var now := Present(c, p);
    now.Some? && now.value.Gitlink? && !IsPublished(c, p, now.value.sha)
  }

  /** Paths the plan speaks about: what differs, and files dropped from the index
      that still stand in the work tree. */
  predicate Touched(base: Tree, c: Checkout, p: Path) {
    Get(base, p) != Present(c, p) || (p in base && Untracked(c, p))
  }

  /** A change says what the workspace has, and every difference that can be
      delivered is a change. */
  lemma {:induction false} ChangeMeansPresent(base: Tree, c: Checkout, p: Path)
    requires Valid(c)
    ensures ChangeAt(base, c, p).Some? <==> Touched(base, c, p) && !Stuck(c, p)
    ensures ChangeAt(base, c, p).Some? ==>
      var change := ChangeAt(base, c, p).value;
      && change.path == p && Target(c, change) == Present(c, p)
      && (change.status == Deleted <==> Present(c, p).None?)
      && (change.status != Deleted ==> (change.mode == Link <==> Present(c, p).value.Gitlink?))
      && (change.status != Deleted ==> change.mode != NoFile)
      && (change.status == Added <==> change.status != Deleted && (Get(base, p).None? || Untracked(c, p)))
  {
  }

  /** What there is to say: a submodule at a commit its remote does not have, and
      work inside a submodule. */
  ghost predicate Due(base: Tree, c: Checkout, note: Note) {
    match note
    case Unpublished(p) => Touched(base, c, p) && Stuck(c, p)
    case InsideSubmodule(p) => IsDirty(c, p)
    case LargeFile(_) => false
  }

  /** The changes since `base`, from git's two listings; what is left out is noted,
      and nothing else is. */
  method ChangesSince(base: Tree, c: Checkout, records: seq<Record>, untracked: seq<Path>) returns (changes: map<Path, Change>, notes: seq<Note>)
    requires Valid(c) && IsDiff(base, c, records) && ListsUntracked(c, untracked)
    ensures forall p :: p in changes <==> Touched(base, c, p) && !Stuck(c, p)
    ensures forall p :: p in changes ==> Some(changes[p]) == ChangeAt(base, c, p)
    ensures forall note :: note in notes <==> Due(base, c, note)
  {
    var fromDiff, said := FromDiff(base, c, records);
    changes := AddUntracked(c, fromDiff, untracked);
    notes := NoteDirty(c, changes, said);
    forall p
      ensures p in changes <==> Touched(base, c, p) && !Stuck(c, p)
      ensures p in changes ==> Some(changes[p]) == ChangeAt(base, c, p)
    {
      ChangeMeansPresent(base, c, p);
    }
    forall note
      ensures note in notes <==> Due(base, c, note)
    {
      match note
      case Unpublished(p) => SaidAbout(base, c, p);
      case InsideSubmodule(p) => SaidAbout(base, c, p);
      case LargeFile(p) => SaidAbout(base, c, p);
    }
  }

  /** What a record's change leaves to say of its path, and of no other. */
  ghost predicate Said(base: Tree, c: Checkout, note: Note) {
    exists p :: Reported(base, c, p).Some? && note in ChangeFromRaw(c, Reported(base, c, p).value).1
  }

  lemma {:induction false} SaidAbout(base: Tree, c: Checkout, p: Path)
    requires Valid(c)
    ensures Said(base, c, Unpublished(p)) <==> Touched(base, c, p) && Stuck(c, p)
    ensures Said(base, c, InsideSubmodule(p)) ==> IsDirty(c, p)
    ensures IsDirty(c, p) && ChangeAt(base, c, p).Some? ==> Said(base, c, InsideSubmodule(p))
    ensures !Said(base, c, LargeFile(p))
    ensures IsDirty(c, p) ==> p in c.index && c.index[p].Gitlink?
  {
    OwnNotes(base, c, p);
    forall q | Reported(base, c, q).Some?
      ensures forall note :: note in ChangeFromRaw(c, Reported(base, c, q).value).1 ==>
        (note == Unpublished(p) || note == InsideSubmodule(p) || note == LargeFile(p)) ==> q == p && !note.LargeFile?
    {
    }
  }

  lemma {:induction false} OwnNotes(base: Tree, c: Checkout, p: Path)
    requires Valid(c)
    ensures Touched(base, c, p) && Stuck(c, p) <==>
      Reported(base, c, p).Some? && Unpublished(p) in ChangeFromRaw(c, Reported(base, c, p).value).1
    ensures IsDirty(c, p) && ChangeAt(base, c, p).Some? ==>
      Reported(base, c, p).Some? && InsideSubmodule(p) in ChangeFromRaw(c, Reported(base, c, p).value).1
    ensures Reported(base, c, p).Some? && InsideSubmodule(p) in ChangeFromRaw(c, Reported(base, c, p).value).1 ==> IsDirty(c, p)
  {
  }

  method AddUntracked(c: Checkout, fromDiff: map<Path, Change>, untracked: seq<Path>) returns (changes: map<Path, Change>)
    ensures forall p :: p in changes <==> p in untracked || p in fromDiff
    ensures forall p :: p in changes ==> changes[p] == if p in untracked then DescribeChange(c, p, A) else fromDiff[p]
  {
    changes := fromDiff;
    for n := 0 to |untracked|
      invariant forall p :: p in changes <==> p in untracked[..n] || p in fromDiff
      invariant forall p :: p in changes ==> changes[p] == if p in untracked[..n] then DescribeChange(c, p, A) else fromDiff[p]
    {
      changes := changes[untracked[n] := DescribeChange(c, untracked[n], A)];
    }
    assert untracked[..|untracked|] == untracked;
  }

  ghost function FromDiffAt(base: Tree, c: Checkout, p: Path): Option<Change> {
    match Reported(base, c, p)
    case None => None
    case Some(r) => ChangeFromRaw(c, r).0
  }

  method FromDiff(base: Tree, c: Checkout, records: seq<Record>) returns (changes: map<Path, Change>, notes: seq<Note>)
    requires Valid(c) && IsDiff(base, c, records)
    ensures forall p :: p in changes <==> FromDiffAt(base, c, p).Some?
    ensures forall p :: p in changes ==> Some(changes[p]) == FromDiffAt(base, c, p)
    ensures forall note :: note in notes <==> Said(base, c, note)
  {
    changes, notes := map[], [];
    for n := 0 to |records|
      invariant forall p :: p in changes ==> Some(changes[p]) == FromDiffAt(base, c, p)
      invariant forall k :: 0 <= k < n ==> (records[k].path in changes <==> FromDiffAt(base, c, records[k].path).Some?)
      invariant forall note :: note in notes <==> exists k :: 0 <= k < n && note in ChangeFromRaw(c, records[k]).1
    {
      var r := records[n];
      var (change, said) := ChangeFromRaw(c, r);
      notes := notes + said;
      if change.Some? {
        changes := changes[r.path := change.value];
      }
    }
    forall p | Reported(base, c, p).Some?
      ensures FromDiffAt(base, c, p).Some? ==> p in changes
    {
      var k :| 0 <= k < |records| && records[k] == Reported(base, c, p).value;
      assert records[k].path == p;
    }
    forall note
      ensures (exists k :: 0 <= k < |records| && note in ChangeFromRaw(c, records[k]).1) <==> Said(base, c, note)
    {
      SaidByRecords(base, c, records, note);
    }
  }

  lemma {:induction false} SaidByRecords(base: Tree, c: Checkout, records: seq<Record>, note: Note)
    requires IsDiff(base, c, records)
    ensures (exists k :: 0 <= k < |records| && note in ChangeFromRaw(c, records[k]).1) <==> Said(base, c, note)
  {
    if k :| 0 <= k < |records| && note in ChangeFromRaw(c, records[k]).1 {
      assert Reported(base, c, records[k].path) == Some(records[k]);
    }
    if Said(base, c, note) {
      var p :| Reported(base, c, p).Some? && note in ChangeFromRaw(c, Reported(base, c, p).value).1;
      var k :| 0 <= k < |records| && records[k] == Reported(base, c, p).value;
      assert note in ChangeFromRaw(c, records[k]).1;
    }
  }

  method NoteDirty(c: Checkout, changes: map<Path, Change>, notes: seq<Note>) returns (all: seq<Note>)
    ensures forall note :: note in all <==> note in notes || ToNote(c, changes, note)
  {
    all := notes;
    var todo := set p | p in c.index && c.index[p].Gitlink?;
    while todo != {}
      invariant forall p :: p in todo ==> p in c.index && c.index[p].Gitlink?
      invariant forall note :: note in all <==> note in notes || (ToNote(c, changes, note) && note.path !in todo)
      decreases todo
    {
      var p :| p in todo;
      if p !in changes && IsDirty(c, p) && InsideSubmodule(p) !in all {
        all := all + [InsideSubmodule(p)];
      }
      todo := todo - {p};
    }
  }

  /** Work inside a submodule that is itself no change. */
  predicate ToNote(c: Checkout, changes: map<Path, Change>, note: Note) {
    note.InsideSubmodule? && note.path in c.index && c.index[note.path].Gitlink? && note.path !in changes && IsDirty(c, note.path)
  }
}

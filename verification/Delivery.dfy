/** Delivering a workspace: its changes as tree entries over the base tree. */
module Delivery {
  import opened Wrappers
  import opened Lines
  import opened Workspace
  import BlobUpload

  datatype EntrySha = Unset | Nothing | Is(sha: Sha)

  datatype Entry = Entry(path: Path, mode: ChangeMode, sha: EntrySha)

  datatype Plan = Plan(entries: seq<Entry>, uploads: seq<BlobUpload.Upload>)

  datatype DeliveryError = NothingToDeliver | MissingBlob(path: Path)

  // ---- choosing the changes ----

  ghost predicate DistinctPaths(changes: seq<Change>) {
    forall i, j :: 0 <= i < j < |changes| ==> changes[i].path != changes[j].path
  }

  /** The changes, each once. */
  method Listed(changes: map<Path, Change>) returns (list: seq<Change>)
    requires forall p :: p in changes ==> changes[p].path == p
    ensures DistinctPaths(list)
    ensures forall change :: change in list <==> change.path in changes && changes[change.path] == change
  {
    list := [];
    var todo := changes.Keys;
    while todo != {}
      invariant todo <= changes.Keys
      invariant DistinctPaths(list)
      invariant forall change :: change in list <==> change.path in changes.Keys - todo && changes[change.path] == change
      decreases todo
    {
      var p :| p in todo;
      assert forall k :: 0 <= k < |list| ==> list[k] in list;
      list := list + [changes[p]];
      todo := todo - {p};
    }
  }

  /** A file the repository keeps in its large-file store. */
  predicate IsLarge(lfs: set<Path>, change: Change) {
    change.status != Deleted && change.mode != Link && change.path in lfs
  }

  method WithoutExcluded(changes: seq<Change>, excluded: set<Path>) returns (kept: seq<Change>)
    requires DistinctPaths(changes)
    ensures DistinctPaths(kept)
    ensures forall change :: change in kept <==> change in changes && change.path !in excluded
  {
    kept := [];
    for n := 0 to |changes|
      invariant DistinctPaths(kept)
      invariant forall change :: change in kept <==> change in changes[..n] && change.path !in excluded
    {
      if changes[n].path !in excluded {
        Extends(changes, n, kept);
        kept := kept + [changes[n]];
      }
      assert changes[..n + 1] == changes[..n] + [changes[n]];
    }
    assert changes[..|changes|] == changes;
  }

  lemma {:induction false} Extends(changes: seq<Change>, n: nat, kept: seq<Change>)
    requires n < |changes| && DistinctPaths(changes) && DistinctPaths(kept)
    requires forall change :: change in kept ==> change in changes[..n]
    ensures DistinctPaths(kept + [changes[n]])
  {
    forall k | 0 <= k < |kept|
      ensures kept[k].path != changes[n].path
    {
      assert kept[k] in kept;
      var j :| 0 <= j < n && changes[..n][j] == kept[k];
      assert changes[j] == kept[k];
    }
  }

  /** Candidates first, then those the attributes route to the large-file store. */
  method WithoutLarge(changes: seq<Change>, lfs: set<Path>) returns (kept: seq<Change>, notes: seq<Note>)
    requires DistinctPaths(changes)
    ensures DistinctPaths(kept)
    ensures forall change :: change in kept <==> change in changes && !IsLarge(lfs, change)
    ensures forall note :: note in notes <==> exists change :: change in changes && IsLarge(lfs, change) && note == LargeFile(change.path)
  {
    var tracked := set change | change in changes && IsLarge(lfs, change) :: change.path;
    kept, notes := [], [];
    for n := 0 to |changes|
      invariant DistinctPaths(kept)
      invariant forall change :: change in kept <==> change in changes[..n] && !IsLarge(lfs, change)
      invariant forall note :: note in notes <==> exists change :: change in changes[..n] && IsLarge(lfs, change) && note == LargeFile(change.path)
    {
      if changes[n].path !in tracked {
        Extends(changes, n, kept);
        kept := kept + [changes[n]];
      } else {
        notes := notes + [LargeFile(changes[n].path)];
      }
      assert changes[..n + 1] == changes[..n] + [changes[n]];
    }
    assert changes[..|changes|] == changes;
  }

  // ---- entries ----

  predicate HasContent(change: Change) {
    change.status != Deleted && change.mode.File?
  }

  function EntryOf(change: Change): Entry {
    if change.mode == Link then
      Entry(change.path, Link, if change.status != Deleted && change.sha.Some? then Is(change.sha.value) else Nothing)
    else if !HasContent(change) then Entry(change.path, File(Regular), Nothing)
    else Entry(change.path, change.mode, Unset)
  }

  function ContentOf(c: Checkout, p: Path): Bytes {
    if p in c.disk && c.disk[p].Blob? then c.disk[p].content else []
  }

  function WithUpload(c: Checkout, change: Change, uploads: seq<BlobUpload.Upload>): seq<BlobUpload.Upload> {
    if HasContent(change) then uploads + [BlobUpload.Upload(change.path, ContentOf(c, change.path))] else uploads
  }

  /** Entries for the kept changes, and the contents to upload for them. */
  method EntriesFor(c: Checkout, kept: seq<Change>) returns (plan: Plan)
    requires DistinctPaths(kept)
    ensures EntriesOf(kept, plan)
    ensures Gathered(c, kept, plan.uploads)
  {
    var entries, uploads := [], [];
    for n := 0 to |kept|
      invariant |entries| == n && forall k :: 0 <= k < n ==> entries[k] == EntryOf(kept[k])
      invariant Gathered(c, kept[..n], uploads)
    {
      entries := entries + [EntryOf(kept[n])];
      uploads := WithUpload(c, kept[n], uploads);
    }
    assert kept[..|kept|] == kept;
    plan := Plan(entries, uploads);
  }

  /** One upload for every change that has content, and no other. */
  ghost predicate Gathered(c: Checkout, kept: seq<Change>, uploads: seq<BlobUpload.Upload>) {
    && BlobUpload.Distinct(uploads)
    && (forall upload :: upload in uploads ==>
        upload.raw == ContentOf(c, upload.path) && exists change :: change in kept && change.path == upload.path && HasContent(change))
    && (forall change :: change in kept && HasContent(change) ==>
        BlobUpload.Upload(change.path, ContentOf(c, change.path)) in uploads)
  }

  /** Every new blob's entry with the sha it was stored under. */
  function Assembled(entries: seq<Entry>, shas: map<Path, Sha>): (r: seq<Entry>)
    ensures |r| == |entries|
    ensures forall k :: 0 <= k < |r| ==> r[k].path == entries[k].path
  {
    seq(|entries|, k requires 0 <= k < |entries| =>
      if entries[k].path in shas then entries[k].(sha := Is(shas[entries[k].path])) else entries[k])
  }

  // ---- the tree ----

  /** What one entry puts at its path. */
  function NodeOf(e: Entry, objects: Sha -> Bytes): Option<Node> {
    match (e.sha, e.mode)
    case (Is(sha), Link) => Some(Gitlink(sha))
    case (Is(sha), File(mode)) => Some(Blob(mode, objects(sha)))
    case _ => None
  }

  function Put(t: Tree, p: Path, n: Option<Node>): Tree {
    match n
    case None => t - {p}
    case Some(node) => t[p := node]
  }

  function Applied(t: Tree, entries: seq<Entry>, objects: Sha -> Bytes): Tree {
    if entries == [] then t
    else
      var last := entries[|entries| - 1];
      Put(Applied(t, entries[..|entries| - 1], objects), last.path, NodeOf(last, objects))
  }

  ghost predicate Without(entries: seq<Entry>, p: Path) {
    forall k :: 0 <= k < |entries| ==> entries[k].path != p
  }

  /** A path without an entry keeps what it had. */
  lemma {:induction false} AppliedElsewhere(t: Tree, entries: seq<Entry>, objects: Sha -> Bytes, p: Path)
    requires Without(entries, p)
    ensures Get(Applied(t, entries, objects), p) == Get(t, p)
    decreases |entries|
  {
    if entries != [] {
      AppliedElsewhere(t, entries[..|entries| - 1], objects, p);
      assert entries[|entries| - 1].path != p;
    }
  }

  /** The last entry for a path decides. */
  lemma {:induction false} AppliedLast(t: Tree, entries: seq<Entry>, objects: Sha -> Bytes, k: nat)
    requires k < |entries| && Without(entries[k + 1..], entries[k].path)
    ensures Get(Applied(t, entries, objects), entries[k].path) == NodeOf(entries[k], objects)
    decreases |entries|
  {
    if k < |entries| - 1 {
      var front := entries[..|entries| - 1];
      assert entries[|entries| - 1] == entries[k + 1..][|entries| - k - 2];
      assert front[k + 1..] == entries[k + 1..][..|entries| - k - 2];
      AppliedLast(t, front, objects, k);
    }
  }

  /** With its content stored, an entry puts what the workspace has. */
  lemma {:induction false} TargetIsPresent(base: Tree, c: Checkout, change: Change, shas: map<Path, Sha>, objects: Sha -> Bytes)
    requires Valid(c) && ChangeAt(base, c, change.path) == Some(change)
    requires if HasContent(change) then change.path in shas && objects(shas[change.path]) == ContentOf(c, change.path) else change.path !in shas
    ensures NodeOf(Assembled([EntryOf(change)], shas)[0], objects) == Present(c, change.path)
  {
    ChangeMeansPresent(base, c, change.path);
  }

  /** What a delivery moves: the touched paths nothing rules out. */
  predicate Delivered(base: Tree, c: Checkout, excluded: set<Path>, lfs: set<Path>, p: Path) {
    && Touched(base, c, p) && !Stuck(c, p) && p !in excluded
    && !(p in lfs && Present(c, p).Some? && Present(c, p).value.Blob?)
  }

  ghost predicate Chosen(base: Tree, c: Checkout, excluded: set<Path>, lfs: set<Path>, kept: seq<Change>) {
    && DistinctPaths(kept)
    && (forall change :: change in kept ==> Some(change) == ChangeAt(base, c, change.path) && Delivered(base, c, excluded, lfs, change.path))
    && (forall p :: Delivered(base, c, excluded, lfs, p) ==> exists change :: change in kept && change.path == p)
  }

  method Choose(base: Tree, c: Checkout, records: seq<Record>, untracked: seq<Path>, excluded: set<Path>, lfs: set<Path>)
    returns (kept: seq<Change>, notes: seq<Note>)
    requires Valid(c) && IsDiff(base, c, records) && ListsUntracked(c, untracked)
    ensures Chosen(base, c, excluded, lfs, kept)
    ensures Explained(base, c, excluded, lfs, notes)
  {
    var changes, left := ChangesSince(base, c, records, untracked);
    forall p | p in changes
      ensures changes[p].path == p
    {
      ChangeMeansPresent(base, c, p);
    }
    var list := Listed(changes);
    var wanted := WithoutExcluded(list, excluded);
    var large: seq<Note>;
    kept, large := WithoutLarge(wanted, lfs);
    notes := left + large;
    forall p
      ensures p in changes ==> (changes[p] in kept <==> Delivered(base, c, excluded, lfs, p))
      ensures Delivered(base, c, excluded, lfs, p) ==> p in changes
    {
      ChangeMeansPresent(base, c, p);
    }
    AllExplained(base, c, excluded, lfs, changes, wanted, left, large);
  }

  /** What a delivery has to say: what is left out of the changes, and the large
      files it does not carry. */
  ghost predicate ToExplain(base: Tree, c: Checkout, excluded: set<Path>, lfs: set<Path>, note: Note) {
    match note
    case LargeFile(p) =>
      && Touched(base, c, p) && !Stuck(c, p) && p !in excluded && p in lfs
      && Present(c, p).Some? && Present(c, p).value.Blob?
    case _ => Workspace.Due(base, c, note)
  }

  /** Exactly what there is to say is noted. */
  ghost predicate Explained(base: Tree, c: Checkout, excluded: set<Path>, lfs: set<Path>, notes: seq<Note>) {
    forall note :: note in notes <==> ToExplain(base, c, excluded, lfs, note)
  }

  /** Whatever differs and is not delivered is excluded by name or noted. */
  lemma {:induction false} NothingSilent(base: Tree, c: Checkout, excluded: set<Path>, lfs: set<Path>, notes: seq<Note>, p: Path)
    requires Explained(base, c, excluded, lfs, notes)
    requires Get(base, p) != Present(c, p) && !Delivered(base, c, excluded, lfs, p) && p !in excluded
    ensures Unpublished(p) in notes || LargeFile(p) in notes
  {
    assert ToExplain(base, c, excluded, lfs, Unpublished(p)) || ToExplain(base, c, excluded, lfs, LargeFile(p));
  }

  lemma {:induction false} AllExplained(
    base: Tree, c: Checkout, excluded: set<Path>, lfs: set<Path>,
    changes: map<Path, Change>, wanted: seq<Change>, left: seq<Note>, large: seq<Note>)
    requires Valid(c)
    requires forall p :: p in changes <==> Touched(base, c, p) && !Stuck(c, p)
    requires forall p :: p in changes ==> Some(changes[p]) == ChangeAt(base, c, p)
    requires forall change :: change in wanted <==> change.path in changes && changes[change.path] == change && change.path !in excluded
    requires forall note :: note in left <==> Workspace.Due(base, c, note)
    requires forall note :: note in large <==> exists change :: change in wanted && IsLarge(lfs, change) && note == LargeFile(change.path)
    ensures Explained(base, c, excluded, lfs, left + large)
  {
    forall note
      ensures note in left + large <==> ToExplain(base, c, excluded, lfs, note)
    {
      if note.LargeFile? {
        ChangeMeansPresent(base, c, note.path);
      }
    }
  }

  /** The delivered tree: the workspace at every delivered path, the base tree
      everywhere else. `base` is the tree the diff was taken against, `onto` the
      tree the delivery is built on. */
  method Deliver(
    onto: Tree, base: Tree, c: Checkout, records: seq<Record>, untracked: seq<Path>,
    excluded: set<Path>, lfs: set<Path>, forge: BlobUpload.Forge, objects: Sha -> Bytes)
    returns (r: Result<Tree, DeliveryError>, notes: seq<Note>)
    requires Valid(c) && IsDiff(base, c, records) && ListsUntracked(c, untracked)
    requires BlobUpload.Honest(forge, objects)
    ensures r == Failure(NothingToDeliver) <==> forall p :: !Delivered(base, c, excluded, lfs, p)
    ensures r.Failure? && r.error.MissingBlob? ==> exists uploads, chunk ::
      && Wanted(base, c, excluded, lfs, uploads)
      && chunk in BlobUpload.Batches(BlobUpload.Manifest(uploads), BlobUpload.BATCH_MAX)
      && BlobUpload.LeftOut(forge, chunk, r.error.path)
    ensures r.Success? ==> forall p ::
      Get(r.value, p) == if Delivered(base, c, excluded, lfs, p) then Present(c, p) else Get(onto, p)
    ensures Explained(base, c, excluded, lfs, notes)
  {
    var kept: seq<Change>;
    kept, notes := Choose(base, c, records, untracked, excluded, lfs);
    if kept == [] {
      return Failure(NothingToDeliver), notes;
    }
    assert kept[0] in kept;
    var plan := EntriesFor(c, kept);
    var stored := BlobUpload.CreateBlobs(plan.uploads, forge, objects);
    if stored.Failure? {
      WantedUploads(base, c, excluded, lfs, kept, plan);
      return Failure(MissingBlob(stored.error)), notes;
    }
    var entries := Assembled(plan.entries, stored.value);
    forall p
      ensures Get(Applied(onto, entries, objects), p) == if Delivered(base, c, excluded, lfs, p) then Present(c, p) else Get(onto, p)
    {
      DeliveredAt(onto, base, c, excluded, lfs, objects, kept, plan, stored.value, p);
    }
    return Success(Applied(onto, entries, objects)), notes;
  }

  /** One upload, of the work tree's bytes, for every file to be delivered. */
  ghost predicate Wanted(base: Tree, c: Checkout, excluded: set<Path>, lfs: set<Path>, uploads: seq<BlobUpload.Upload>) {
    && BlobUpload.Distinct(uploads)
    && forall p, raw :: BlobUpload.Upload(p, raw) in uploads <==>
        Delivered(base, c, excluded, lfs, p) && Present(c, p).Some? && Present(c, p).value.Blob? && Present(c, p).value.content == raw
  }

  lemma {:induction false} WantedUploads(base: Tree, c: Checkout, excluded: set<Path>, lfs: set<Path>, kept: seq<Change>, plan: Plan)
    requires Valid(c) && Chosen(base, c, excluded, lfs, kept) && Gathered(c, kept, plan.uploads)
    ensures Wanted(base, c, excluded, lfs, plan.uploads)
  {
    forall p, raw
      ensures BlobUpload.Upload(p, raw) in plan.uploads <==>
        Delivered(base, c, excluded, lfs, p) && Present(c, p).Some? && Present(c, p).value.Blob? && Present(c, p).value.content == raw
    {
      ChangeMeansPresent(base, c, p);
      if BlobUpload.Upload(p, raw) in plan.uploads {
        var change :| change in kept && change.path == p && HasContent(change);
      }
      if Delivered(base, c, excluded, lfs, p) {
        var change :| change in kept && change.path == p;
        assert Some(change) == ChangeAt(base, c, p);
      }
    }
  }

  /** When the delivery is built on the tree the diff was taken against and
      nothing is ruled out, it is the workspace's tree. */
  lemma {:induction false} WholeWorkspace(base: Tree, c: Checkout, excluded: set<Path>, lfs: set<Path>, result: Tree)
    requires forall p :: Get(result, p) == if Delivered(base, c, excluded, lfs, p) then Present(c, p) else Get(base, p)
    ensures (forall p :: Get(base, p) != Present(c, p) ==> Delivered(base, c, excluded, lfs, p)) <==>
      forall p :: Get(result, p) == Present(c, p)
  {
    if forall p :: Get(result, p) == Present(c, p) {
      forall p | Get(base, p) != Present(c, p)
        ensures Delivered(base, c, excluded, lfs, p)
      {
        assert Get(result, p) == Present(c, p);
      }
    }
  }

  lemma {:induction false} EntryPuts(
    base: Tree, c: Checkout, objects: Sha -> Bytes, kept: seq<Change>, plan: Plan, shas: map<Path, Sha>, n: nat)
    requires Valid(c) && n < |kept| && DistinctPaths(kept) && ChangeAt(base, c, kept[n].path) == Some(kept[n])
    requires |plan.entries| == |kept| && plan.entries[n] == EntryOf(kept[n])
    requires Gathered(c, kept, plan.uploads) && BlobUpload.Stored(shas, plan.uploads, objects)
    ensures NodeOf(Assembled(plan.entries, shas)[n], objects) == Present(c, kept[n].path)
  {
    TargetIsPresent(base, c, kept[n], shas, objects);
    assert Assembled(plan.entries, shas)[n] == Assembled([EntryOf(kept[n])], shas)[0];
  }

  ghost predicate EntriesOf(kept: seq<Change>, plan: Plan) {
    |plan.entries| == |kept| && forall k :: 0 <= k < |kept| ==> plan.entries[k] == EntryOf(kept[k])
  }

  lemma {:induction false} KeptAt(
    onto: Tree, base: Tree, c: Checkout, objects: Sha -> Bytes,
    kept: seq<Change>, plan: Plan, shas: map<Path, Sha>, n: nat)
    requires Valid(c) && n < |kept| && DistinctPaths(kept) && ChangeAt(base, c, kept[n].path) == Some(kept[n])
    requires EntriesOf(kept, plan)
    requires Gathered(c, kept, plan.uploads) && BlobUpload.Stored(shas, plan.uploads, objects)
    ensures Get(Applied(onto, Assembled(plan.entries, shas), objects), kept[n].path) == Present(c, kept[n].path)
  {
    var entries := Assembled(plan.entries, shas);
    EntryPuts(base, c, objects, kept, plan, shas, n);
    AppliedLast(onto, entries, objects, n);
  }

  lemma {:induction false} DeliveredAt(
    onto: Tree, base: Tree, c: Checkout, excluded: set<Path>, lfs: set<Path>, objects: Sha -> Bytes,
    kept: seq<Change>, plan: Plan, shas: map<Path, Sha>, p: Path)
    requires Valid(c) && Chosen(base, c, excluded, lfs, kept)
    requires EntriesOf(kept, plan)
    requires Gathered(c, kept, plan.uploads) && BlobUpload.Stored(shas, plan.uploads, objects)
    ensures Get(Applied(onto, Assembled(plan.entries, shas), objects), p) ==
      if Delivered(base, c, excluded, lfs, p) then Present(c, p) else Get(onto, p)
  {
    if Delivered(base, c, excluded, lfs, p) {
      var change :| change in kept && change.path == p;
      var n :| 0 <= n < |kept| && kept[n] == change;
      KeptAt(onto, base, c, objects, kept, plan, shas, n);
    } else {
      var entries := Assembled(plan.entries, shas);
      AppliedElsewhere(onto, entries, objects, p);
    }
  }
}

/** Staging a release's files on a draft, with the manifest uploaded last. A
    staging may be cut off after any upload and retried with rebuilt files. */
module Staging {
  import opened Versions
  import opened Wrappers

  type Content = seq<int>
  type Digest = int
  type Hash = Content -> Digest

  datatype Plan = Plan(version: Version, sha: string)
  datatype Manifest = Manifest(version: Version, sha: string, files: map<string, Digest>)

  /** A working directory: the built files and the manifest written beside them. */
  datatype Dist = Dist(files: map<string, Content>, manifest: Option<Manifest>)

  datatype Release =
    | NoRelease
    | Release(draft: bool, assets: map<string, Content>, manifest: Option<Manifest>)

  function ManifestFor(hash: Hash, names: set<string>, plan: Plan, files: map<string, Content>): Manifest
    requires names <= files.Keys
  {
    Manifest(plan.version, plan.sha, map n | n in names :: hash(files[n]))
  }

  /** Every distribution file is there and is what its manifest entry says. */
  ghost predicate Complete(hash: Hash, names: set<string>, r: Release) {
    r.Release? && r.manifest.Some? ==>
      && names <= r.assets.Keys
      && r.manifest.value.files == map n | n in names :: hash(r.assets[n])
  }

  predicate Sealed(r: Release) { r.Release? && r.manifest.Some? }

  class Forge {
    const hash: Hash
    const names: set<string>
    var release: Release

    // How many more changes to the release the job lives to make.
    var left: nat

    constructor (hash: Hash, names: set<string>, left: nat)
      ensures release == NoRelease && this.hash == hash && this.names == names && this.left == left
    {
      this.hash, this.names, this.left, release := hash, names, left, NoRelease;
    }

    /** Upload one file, replacing an asset of that name: first it is deleted,
        then the new one is created. `false` is a crash in between or before. */
    method Upload(name: string, content: Content) returns (done: bool)
      requires release.Release? && release.manifest.None?
      modifies this`release, this`left
      ensures done <==> old(left) >= 2
      ensures left == if done then old(left) - 2 else 0
      ensures release.Release? && release.draft == old(release).draft && release.manifest.None?
      ensures release.assets ==
        if done then old(release).assets[name := content]
        else if old(left) == 1 then old(release).assets - {name} else old(release).assets
    {
      if left == 0 { return false; }
      release := release.(assets := release.assets - {name});
      left := left - 1;
      if left == 0 { return false; }
      release := release.(assets := release.assets[name := content]);
      left := left - 1;
      return true;
    }

    /** Bring back the bytes an earlier attempt staged, or say there are none. */
    method RestoreStaged(plan: Plan) returns (outcome: Result<Option<Dist>, string>)
      ensures outcome.Success? && outcome.value.Some? ==>
                && Sealed(release) && release.draft
                && outcome.value.value == Dist(release.assets, release.manifest)
                && names <= release.assets.Keys
                && release.manifest == Some(ManifestFor(hash, names, plan, release.assets))
      ensures outcome == Success(None) <==> !Sealed(release) && (release.Release? ==> release.draft)
      ensures (&& Sealed(release) && release.draft && names <= release.assets.Keys
               && release.manifest == Some(ManifestFor(hash, names, plan, release.assets))) ==> outcome.Success?
    {
      if release.NoRelease? {
        return Success(None);
      }
      if !release.draft {
        return Failure("reserved release was already published");
      }
      if release.manifest.None? {
        return Success(None);
      }
      if !(names <= release.assets.Keys) || release.manifest.value != ManifestFor(hash, names, plan, release.assets) {
        return Failure("release manifest does not match the original package files and commit");
      }
      return Success(Some(Dist(release.assets, release.manifest)));
    }

    /** Put the files on the draft and seal it with their manifest. `Failure` is
        a refusal or a crash at any upload; it fails for no other reason. */
    method Stage(plan: Plan, dist: Dist) returns (outcome: Result<(), string>)
      modifies this`release, this`left
      ensures outcome.Success? <==> Stageable(hash, names, plan, dist, old(release)) && old(left) >= Cost(names, old(release))
      ensures Attempted(hash, names, plan, dist, old(release), release)
      ensures outcome.Success? ==> Sealed(release) && release.draft
      ensures outcome.Success? ==> names <= dist.files.Keys && left == old(left) - Cost(names, old(release))
      ensures outcome.Success? && !Sealed(old(release)) ==> release.manifest == Some(ManifestFor(hash, names, plan, dist.files))
    {
      if release.Release? && !release.draft {
        return Failure("refusing to replace published release assets");
      }
      if release.Release? && release.manifest.Some? {
        if !(names <= dist.files.Keys) || dist.manifest != Some(ManifestFor(hash, names, plan, dist.files)) {
          return Failure("release manifest does not match the original package files and commit");
        }
        return Success(());
      }
      if release.NoRelease? {
        if left == 0 { return Failure("crash"); }
        release := Release(true, map[], None);
        left := left - 1;
      }
      if !(names <= dist.files.Keys) { return Failure("a distribution file is missing"); }
      var sealed := UploadAndSeal(plan, dist.files);
      return if sealed then Success(()) else Failure("crash");
    }

    /** Upload the files, and their manifest last. */
    method UploadAndSeal(plan: Plan, files: map<string, Content>) returns (done: bool)
      requires names <= files.Keys && release.Release? && release.draft && release.manifest.None?
      modifies this`release, this`left
      ensures done <==> old(left) >= 2 * |names| + 1
      ensures done ==> left == old(left) - (2 * |names| + 1) && Holds(hash, names, plan, files, release)
      ensures release.Release? && release.draft && (!done ==> release.manifest.None?)
    {
      done := UploadAll(files);
      if !done || left == 0 { return false; }
      left := left - 1;
      release := release.(manifest := Some(ManifestFor(hash, names, plan, files)));
    }

    /** Upload every distribution file, in any order, until the job dies. */
    method UploadAll(files: map<string, Content>) returns (done: bool)
      requires names <= files.Keys && release.Release? && release.draft && release.manifest.None?
      modifies this`release, this`left
      ensures release.Release? && release.draft && release.manifest.None?
      ensures done <==> old(left) >= 2 * |names|
      ensures done ==> left == old(left) - 2 * |names|
      ensures done ==> forall n :: n in names ==> n in release.assets && release.assets[n] == files[n]
    {
      var todo := names;
      while todo != {}
        invariant todo <= names
        invariant left + 2 * (|names| - |todo|) == old(left)
        invariant release.Release? && release.draft && release.manifest.None?
        invariant forall n :: n in names - todo ==> n in release.assets && release.assets[n] == files[n]
        decreases todo
      {
        var n :| n in todo;
        var uploaded := Upload(n, files[n]);
        if !uploaded {
          Fewer(todo, names);
          return false;
        }
        todo := todo - {n};
      }
      return true;
    }

    /** The release job: bring back what was staged or take what was built, stage
        it, and publish when staging succeeded. `done` is a publication, which
        happens exactly when it may and the job lives long enough; a release that
        carried no manifest is then the built files under their manifest, and one
        that did is the bytes staged before. */
    method Job(plan: Plan, built: Dist) returns (done: bool)
      modifies this`release, this`left
      ensures done <==> Publishable(hash, names, plan, built, old(release)) && old(left) > Cost(names, old(release))
      ensures done ==> Sealed(release) && !release.draft
      ensures done && !Sealed(old(release)) ==> Holds(hash, names, plan, built.files, release)
      ensures done && Sealed(old(release)) ==> release == old(release).(draft := false)
      ensures exists mid :: JobMoves(hash, names, Attempt(plan, Used(old(release), built)), old(release), mid, release) && (done || release == mid)
    {
      ghost var first := release;
      var restored := RestoreStaged(plan);
      if restored.Failure? {
        assert JobMoves(hash, names, Attempt(plan, Used(first, built)), first, release, release);
        return false;
      }
      var dist := restored.value.GetOr(built);
      assert dist == Used(first, built);
      var staged := Stage(plan, dist);
      assert JobMoves(hash, names, Attempt(plan, dist), first, release, release);
      if staged.Failure? || left == 0 {
        return false;
      }
      ghost var mid := release;
      left := left - 1;
      release := release.(draft := false);
      assert JobMoves(hash, names, Attempt(plan, dist), first, mid, release);
      return true;
    }
  }

  lemma {:induction false} Fewer(part: set<string>, whole: set<string>)
    requires part <= whole
    ensures |part| <= |whole|
  {
    assert whole == part + (whole - part);
  }

  /** What a job stages: the bytes staged before, when there are any, else what it
      built. */
  function Used(r: Release, built: Dist): Dist {
    if Sealed(r) then Dist(r.assets, r.manifest) else built
  }

  /** Whether a job for this plan may publish: there is no publication yet, and
      either the staged bytes are this plan's or every file was built. */
  ghost predicate Publishable(hash: Hash, names: set<string>, plan: Plan, built: Dist, r: Release) {
    && (r.Release? ==> r.draft)
    && (if Sealed(r) then names <= r.assets.Keys && r.manifest == Some(ManifestFor(hash, names, plan, r.assets))
        else names <= built.files.Keys)
  }

  /** The release is these files, under their manifest for this plan. */
  ghost predicate Holds(hash: Hash, names: set<string>, plan: Plan, files: map<string, Content>, r: Release) {
    && r.Release? && names <= files.Keys && r.manifest == Some(ManifestFor(hash, names, plan, files))
    && forall n :: n in names ==> n in r.assets && r.assets[n] == files[n]
  }

  /** Whether the release may be staged with these files. */
  ghost predicate Stageable(hash: Hash, names: set<string>, plan: Plan, dist: Dist, r: Release) {
    && names <= dist.files.Keys && (r.Release? ==> r.draft)
    && (Sealed(r) ==> dist.manifest == Some(ManifestFor(hash, names, plan, dist.files)))
  }

  /** Changes a staging makes: the draft, each file taken away and put, the seal. */
  function Cost(names: set<string>, r: Release): nat {
    if Sealed(r) then 0 else (if r.NoRelease? then 1 else 0) + 2 * |names| + 1
  }

  /** What one staging attempt, finished or cut off, may do to a release. */
  ghost predicate Attempted(hash: Hash, names: set<string>, plan: Plan, dist: Dist, r: Release, r': Release) {
    && (Sealed(r) || (r.Release? && !r.draft) ==> r' == r)
    && (r.Release? ==> r'.Release? && r'.draft == r.draft)
    && (r.NoRelease? && r'.Release? ==> r'.draft)
    && (!Sealed(r) && Sealed(r') ==>
          && names <= dist.files.Keys
          && r'.manifest == Some(ManifestFor(hash, names, plan, dist.files))
          && (forall n :: n in names ==> n in r'.assets && r'.assets[n] == dist.files[n]))
  }

  datatype Attempt = Attempt(plan: Plan, dist: Dist)

  /** One job: a staging attempt, and a publication after one that succeeded. */
  ghost predicate JobMoves(hash: Hash, names: set<string>, a: Attempt, r: Release, mid: Release, r': Release) {
    && Attempted(hash, names, a.plan, a.dist, r, mid)
    && (r' == mid || (Sealed(mid) && mid.draft && r' == mid.(draft := false)))
  }

  ghost predicate Moves(hash: Hash, names: set<string>, r: Release, r': Release) {
    exists a: Attempt, mid: Release :: JobMoves(hash, names, a, r, mid, r')
  }

  /** A history of one release: what each serialised job left behind. */
  ghost predicate History(hash: Hash, names: set<string>, rs: seq<Release>) {
    && rs != [] && rs[0] == NoRelease
    && (forall i :: 0 <= i < |rs| - 1 ==> Moves(hash, names, rs[i], rs[i + 1]))
  }

  /** In every history, a release carrying the manifest holds exactly the files
      the manifest describes, a published release carries the manifest, and
      from the moment it does neither changes again, whatever was rebuilt. */
  lemma {:induction false} SealedBytesAreFinal(hash: Hash, names: set<string>, rs: seq<Release>, i: nat, j: nat)
    requires History(hash, names, rs) && i <= j < |rs|
    ensures Complete(hash, names, rs[j])
    ensures rs[j].Release? && !rs[j].draft ==> Sealed(rs[j])
    ensures Sealed(rs[i]) ==> Sealed(rs[j]) && rs[j].assets == rs[i].assets && rs[j].manifest == rs[i].manifest
    decreases j
  {
    if j > 0 {
      SealedBytesAreFinal(hash, names, rs, if i < j then i else j - 1, j - 1);
    }
  }
}

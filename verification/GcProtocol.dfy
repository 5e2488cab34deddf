/** One run's directory, the sweeps that remove it and the resumes that work in
    it, as the atomic actions each of them takes. Any number of sweeps and
    resumes interleave; any of them may crash at any point. */
module GcProtocol {
  datatype RunState =
    | Created | Provisioning | Decomposing | Building
    | Gating | Delivering | Reviewing | Fixing | AwaitingCi | Landing
    | Planning | Executing | Judging | Publishing
    | Clarifying | Proposing | ProviderHeld
    | Merged | Completed | Failed | Blocked | Cancelled | Gated | AwaitingReview | Held | AwaitingAnswers

  predicate Terminal(s: RunState) {
    match s
    case Merged | Completed | Failed | Blocked | Cancelled | Gated | AwaitingReview | Held | AwaitingAnswers => true
    case _ => false
  }

  predicate Resumable(s: RunState) {
    s != Merged && s != Completed && s != Gated
  }

  /** Where the run's record says its workspace is. Once recorded it stays. */
  datatype Workspace = Unrecorded | Inside | Elsewhere

  datatype Dir = Absent | Partial | Intact

  /** A `daemon.gc` event on the run. */
  datatype Marker = Marker(workspaceRemoved: bool, failed: bool)

  /** Where a sweep of this run stands; `flag` is what its marker says. */
  datatype Sweep =
    | Reading
    | Claiming(seen: Workspace)
    | Staging(flag: bool)
    | Renaming(flag: bool)
    | InPlace(flag: bool)
    | Reporting(flag: bool)
    | Clearing(flag: bool)

  /** Where a resume of this run stands; `from` is the state it read. */
  datatype Resume =
    | Opening
    | Guarding(from: RunState)
    | Entering(from: RunState)
    | Rechecking(from: RunState)
    | Backing(from: RunState)
    | Driving

  datatype World = World(
    state: RunState,
    workspace: Workspace,
    marks: seq<Marker>,
    dir: Dir,
    staged: Dir,
    sweeps: map<nat, Sweep>,
    resumes: map<nat, Resume>)

  datatype Step =
    | SweepArrives(i: nat)
    | ReadRecord(i: nat)
    | Claim(i: nat)
    | DropLeftover(i: nat, left: Dir)
    | Rename(i: nat, ok: bool)
    | RemoveInPlace(i: nat, left: Dir, ok: bool)
    | Report(i: nat)
    | DropStaged(i: nat, left: Dir)
    | ReclaimStaged(left: Dir)
    | SweepCrashes(i: nat)
    | ResumeArrives(r: nat)
    | Snapshot(r: nat)
    | Guard(r: nat)
    | Enter(r: nat)
    | Recheck(r: nat)
    | BackOut(r: nat)
    | Provision(r: nat, at: Workspace)
    | Progress(r: nat, to: RunState)
    | Finish(r: nat, to: RunState)
    | ResumeCrashes(r: nat)
    | Settle(to: RunState)

  /** Whether some marker says the workspace went: the resume guard. */
  predicate Pruned(marks: seq<Marker>) {
    exists k :: 0 <= k < |marks| && marks[k].workspaceRemoved
  }

  /** What deleting a tree may leave: nothing, or a part, or all of it. */
  predicate CanLeave(before: Dir, after: Dir) {
    after == Absent || (before != Absent && (after == Partial || after == before))
  }

  predicate At(w: World, i: nat) { i in w.sweeps }

  predicate Resuming(w: World, r: nat) { r in w.resumes }

  predicate Enabled(w: World, s: Step) {
    match s
    case SweepArrives(i) => !At(w, i)
    case ReadRecord(i) => At(w, i) && w.sweeps[i].Reading?
    case Claim(i) => At(w, i) && w.sweeps[i].Claiming?
    case DropLeftover(i, left) => At(w, i) && w.sweeps[i].Staging? && CanLeave(w.staged, left)
    case Rename(i, ok) => At(w, i) && w.sweeps[i].Renaming? && (ok ==> w.dir != Absent)
    case RemoveInPlace(i, left, ok) => At(w, i) && w.sweeps[i].InPlace? && CanLeave(w.dir, left) && (ok ==> w.dir != Absent && left == Absent)
    case Report(i) => At(w, i) && w.sweeps[i].Reporting?
    case DropStaged(i, left) => At(w, i) && w.sweeps[i].Clearing? && CanLeave(w.staged, left)
    case ReclaimStaged(left) => CanLeave(w.staged, left)
    case SweepCrashes(i) => At(w, i)
    case ResumeArrives(r) => !Resuming(w, r)
    case Snapshot(r) => Resuming(w, r) && w.resumes[r].Opening?
    case Guard(r) => Resuming(w, r) && w.resumes[r].Guarding?
    case Enter(r) => Resuming(w, r) && w.resumes[r].Entering?
    case Recheck(r) => Resuming(w, r) && w.resumes[r].Rechecking?
    case BackOut(r) => Resuming(w, r) && w.resumes[r].Backing?
    case Provision(r, at) => Resuming(w, r) && w.resumes[r].Driving? && at != Unrecorded
    case Progress(r, to) => Resuming(w, r) && w.resumes[r].Driving? && !Terminal(to)
    case Finish(r, to) => Resuming(w, r) && w.resumes[r].Driving? && Terminal(to)
    case ResumeCrashes(r) => Resuming(w, r)
    case Settle(to) => !Terminal(w.state) && Terminal(to)
  }

  function Sweeping(w: World, i: nat, pc: Sweep): World { w.(sweeps := w.sweeps[i := pc]) }
  function SweepLeaves(w: World, i: nat): World { w.(sweeps := w.sweeps - {i}) }
  function ResumeAt(w: World, r: nat, pc: Resume): World { w.(resumes := w.resumes[r := pc]) }
  function ResumeLeaves(w: World, r: nat): World { w.(resumes := w.resumes - {r}) }

  function Do(w: World, s: Step): World
    requires Enabled(w, s)
  {
    match s
    case SweepArrives(i) => Sweeping(w, i, Reading)
    case ReadRecord(i) => Sweeping(w, i, Claiming(w.workspace))
    case Claim(i) =>
      // One write transaction: the state check and the marker.
      var flag := w.sweeps[i].seen == Inside;
      if Terminal(w.state) then Sweeping(w.(marks := w.marks + [Marker(flag, false)]), i, Staging(flag))
      else SweepLeaves(w, i)
    case DropLeftover(i, left) => Sweeping(w.(staged := left), i, Renaming(w.sweeps[i].flag))
    case Rename(i, ok) =>
      if ok then Sweeping(w.(staged := w.dir, dir := Absent), i, Clearing(w.sweeps[i].flag))
      else Sweeping(w, i, InPlace(w.sweeps[i].flag))
    case RemoveInPlace(i, left, ok) =>
      if ok then SweepLeaves(w.(dir := left), i)
      else Sweeping(w.(dir := left), i, Reporting(w.sweeps[i].flag))
    case Report(i) => SweepLeaves(w.(marks := w.marks + [Marker(w.sweeps[i].flag, true)]), i)
    case DropStaged(i, left) => SweepLeaves(w.(staged := left), i)
    case ReclaimStaged(left) => w.(staged := left)
    case SweepCrashes(i) => SweepLeaves(w, i)
    case ResumeArrives(r) => ResumeAt(w, r, Opening)
    case Snapshot(r) => if Resumable(w.state) then ResumeAt(w, r, Guarding(w.state)) else ResumeLeaves(w, r)
    case Guard(r) =>
      if Pruned(w.marks) then ResumeLeaves(w, r)
      else if Terminal(w.resumes[r].from) then ResumeAt(w, r, Entering(w.resumes[r].from))
      else ResumeAt(w, r, Driving)
    case Enter(r) => ResumeAt(w.(state := Provisioning), r, Rechecking(w.resumes[r].from))
    case Recheck(r) =>
      if Pruned(w.marks) then ResumeAt(w, r, Backing(w.resumes[r].from)) else ResumeAt(w, r, Driving)
    case BackOut(r) => ResumeLeaves(w.(state := w.resumes[r].from), r)
    case Provision(r, at) =>
      if w.workspace != Unrecorded then w
      else w.(workspace := at, dir := if at == Inside then Intact else w.dir)
    case Progress(r, to) => w.(state := to)
    case Finish(r, to) => ResumeLeaves(w.(state := to), r)
    case ResumeCrashes(r) => ResumeLeaves(w, r)
    case Settle(to) => w.(state := to)
  }

  predicate Legal(w: World, steps: seq<Step>)
    decreases |steps|
  {
    steps == [] || (Enabled(w, steps[0]) && Legal(Do(w, steps[0]), steps[1..]))
  }

  function After(w: World, steps: seq<Step>): World
    requires Legal(w, steps)
    decreases |steps|
  {
    if steps == [] then w else After(Do(w, steps[0]), steps[1..])
  }

  /** A run whose directory is on disk and which nobody is sweeping or resuming. */
  predicate Untouched(w: World) {
    w.dir == Intact && w.staged == Absent && w.marks == [] && w.sweeps == map[] && w.resumes == map[]
  }

  lemma {:induction false} LegalSnoc(w: World, steps: seq<Step>, s: Step)
    requires Legal(w, steps) && Enabled(After(w, steps), s)
    ensures Legal(w, steps + [s]) && After(w, steps + [s]) == Do(After(w, steps), s)
    decreases |steps|
  {
    if steps != [] {
      assert (steps + [s])[1..] == steps[1..] + [s];
      LegalSnoc(Do(w, steps[0]), steps[1..], s);
    } else {
      assert Legal(Do(w, s), [s][1..]);
    }
  }

  /** The sweep a step belongs to, when it is a sweep's. */
  predicate IsBy(s: Step, me: nat) {
    match s
    case SweepArrives(i) => i == me
    case ReadRecord(i) => i == me
    case Claim(i) => i == me
    case DropLeftover(i, _) => i == me
    case Rename(i, _) => i == me
    case RemoveInPlace(i, _, _) => i == me
    case Report(i) => i == me
    case DropStaged(i, _) => i == me
    case SweepCrashes(i) => i == me
    case _ => false
  }

  // ---- never half-gone and unmarked ----

  predicate PastClaim(pc: Sweep) { !pc.Reading? && !pc.Claiming? }

  ghost predicate Marked(w: World) {
    && (w.dir != Intact || w.staged != Absent ==> w.marks != [])
    && (forall i :: i in w.sweeps && PastClaim(w.sweeps[i]) ==> w.marks != [])
  }

  lemma {:induction false} MarkedStep(w: World, s: Step)
    requires Marked(w) && Enabled(w, s)
    ensures Marked(Do(w, s))
  {
  }

  /** Whatever interleaves and wherever it crashes, a run directory that is not
      intact, and one waiting to be deleted, is durably marked. */
  lemma {:induction false} DamageIsMarked(w: World, steps: seq<Step>)
    requires Marked(w) && Legal(w, steps)
    ensures Marked(After(w, steps))
    decreases |steps|
  {
    if steps != [] {
      MarkedStep(w, steps[0]);
      DamageIsMarked(Do(w, steps[0]), steps[1..]);
    }
  }

  // ---- no resume works in a removed workspace ----

  /** A resume that will work in the directory unless its next guard stops it,
      and that believes the run is out of the terminal states. */
  predicate Open(pc: Resume) {
    pc.Driving? || pc.Rechecking? || (pc.Guarding? && !Terminal(pc.from))
  }

  ghost predicate SomeOpen(w: World, except: set<nat>) {
    exists r :: r in w.resumes && r !in except && Open(w.resumes[r])
  }

  ghost predicate SweepOk(w: World, pc: Sweep) {
    && (pc.Claiming? && pc.seen != Unrecorded ==> pc.seen == w.workspace)
    && (PastClaim(pc) ==> w.marks != [] && pc.flag == (w.workspace == Inside))
  }

  ghost predicate ResumeOk(w: World, pc: Resume) {
    && (pc.Driving? ==> !Pruned(w.marks))
    && (pc.Backing? ==> Pruned(w.marks))
    && (pc.Entering? || pc.Rechecking? || pc.Backing? ==> Terminal(pc.from))
  }

  /** The invariant while the run may still be resumed into its own directory:
      markers, sweeps and resumes agree on where the workspace is, and a resume
      that is open keeps the run out of the terminal states. */
  ghost predicate Core(w: World) {
    && (w.marks != [] ==> w.workspace != Unrecorded)
    && (forall k :: 0 <= k < |w.marks| ==> w.marks[k].workspaceRemoved == (w.workspace == Inside))
    && (forall i :: i in w.sweeps ==> SweepOk(w, w.sweeps[i]))
    && (forall r :: r in w.resumes ==> ResumeOk(w, w.resumes[r]))
    && (!Pruned(w.marks) && SomeOpen(w, {}) ==> !Terminal(w.state))
  }

  /** Some marker stops every resume, and none is past its guards. */
  ghost predicate Shut(w: World) {
    Pruned(w.marks) && forall r :: r in w.resumes ==> !w.resumes[r].Driving?
  }

  /** A resume that has read the run's state. */
  ghost predicate SomePast(w: World) {
    exists r :: r in w.resumes && !w.resumes[r].Opening?
  }

  /** The run is over for good. */
  ghost predicate Closed(w: World) {
    !Resumable(w.state) && !SomePast(w)
  }

  /** Nothing can be lost: the workspace is elsewhere, or the run can no longer be
      resumed, or the invariant holds. */
  ghost predicate Safe(w: World) {
    Marked(w) && (w.workspace == Elsewhere || Shut(w) || Closed(w) || Core(w))
  }

  /** A claim on a record read before the run had a workspace to name, while the
      run can still be resumed. Its marker does not stop a resume. */
  ghost predicate BlindClaim(w: World, s: Step) {
    && s.Claim? && At(w, s.i) && w.sweeps[s.i] == Claiming(Unrecorded) && Terminal(w.state)
    && w.workspace != Elsewhere && !Pruned(w.marks) && (Resumable(w.state) || SomePast(w))
  }

  /** The run is declared over, by a cancel or by another engine, while an
      unmarked resume is open that works, or will, in the run's directory. */
  ghost predicate PulledOut(w: World, s: Step) {
    && !Pruned(w.marks) && w.workspace != Elsewhere
    && (match s
        case Settle(_) => SomeOpen(w, {})
        case Finish(r, _) => SomeOpen(w, {r})
        case _ => false)
  }

  ghost predicate Hazard(w: World, s: Step) {
    BlindClaim(w, s) || PulledOut(w, s)
  }

  /** What must never be: a resume at work in a directory that is gone. */
  predicate Lost(w: World, r: nat) {
    r in w.resumes && w.resumes[r].Driving? && w.workspace == Inside && w.dir != Intact
  }

  lemma {:induction false} SafeIsNotLost(w: World, r: nat)
    requires Safe(w)
    ensures !Lost(w, r)
  {
    assert Core(w) && r in w.resumes ==> ResumeOk(w, w.resumes[r]);
    AnyMarkPrunes(w.marks);
  }

  lemma {:induction false} PrunedGrows(marks: seq<Marker>, m: Marker)
    ensures Pruned(marks + [m]) <==> Pruned(marks) || m.workspaceRemoved
  {
    var more := marks + [m];
    if Pruned(marks) {
      var k :| 0 <= k < |marks| && marks[k].workspaceRemoved;
      assert more[k] == marks[k];
    }
    assert more[|marks|] == m;
  }

  predicate IsSweeping(s: Step) {
    || s.SweepArrives? || s.ReadRecord? || s.DropLeftover? || s.Rename? || s.RemoveInPlace?
    || s.DropStaged? || s.ReclaimStaged? || s.SweepCrashes?
  }

  predicate IsOpening(s: Step) { s.ResumeArrives? || s.Snapshot? || s.Guard? || s.Enter? }

  predicate IsWorking(s: Step) { s.Recheck? || s.BackOut? || s.Provision? || s.Progress? || s.ResumeCrashes? }

  predicate IsMarking(s: Step) { s.Claim? || s.Report? }

  predicate IsEnding(s: Step) { s.Finish? || s.Settle? }

  lemma {:induction false} SweepStep(w: World, s: Step)
    requires Core(w) && Enabled(w, s) && IsSweeping(s)
    ensures Core(Do(w, s))
  {
    var w' := Do(w, s);
    assert w'.marks == w.marks && w'.resumes == w.resumes && w'.state == w.state && w'.workspace == w.workspace;
    assert SomeOpen(w', {}) <==> SomeOpen(w, {});
  }

  /** A marker that says where the workspace is keeps the invariant. */
  lemma {:induction false} MarkerStep(w: World, s: Step)
    requires Core(w) && Enabled(w, s) && IsMarking(s)
    requires !(s.Claim? && w.sweeps[s.i] == Claiming(Unrecorded) && Terminal(w.state) && w.workspace != Elsewhere)
    ensures Core(Do(w, s))
  {
    var w' := Do(w, s);
    assert SomeOpen(w', {}) <==> SomeOpen(w, {});
    if w'.marks != w.marks {
      var m := w'.marks[|w.marks|];
      PrunedGrows(w.marks, m);
      forall r | r in w'.resumes
        ensures ResumeOk(w', w'.resumes[r])
      {
        assert ResumeOk(w, w.resumes[r]);
        assert w.resumes[r].Driving? ==> Open(w.resumes[r]);
        AnyMarkPrunes(w.marks);
      }
    }
  }

  lemma {:induction false} ResumeOpens(w: World, s: Step)
    requires Core(w) && Enabled(w, s) && IsOpening(s)
    ensures Core(Do(w, s))
  {
  }

  lemma {:induction false} ResumeWorks(w: World, s: Step)
    requires Core(w) && Marked(w) && Enabled(w, s) && IsWorking(s)
    ensures Core(Do(w, s))
  {
  }

  lemma {:induction false} EndStep(w: World, s: Step)
    requires Core(w) && Enabled(w, s) && IsEnding(s)
    requires Pruned(w.marks) || !SomeOpen(w, if s.Finish? then {s.r} else {})
    ensures Core(Do(w, s))
  {
  }

  /** Out of the invariant, but only into a run that can no longer be resumed. */
  lemma {:induction false} CoreStep(w: World, s: Step)
    requires Core(w) && Marked(w) && w.workspace != Elsewhere && Enabled(w, s) && !Hazard(w, s)
    ensures var w' := Do(w, s); Core(w') || Shut(w') || Closed(w')
  {
    if IsMarking(s) {
      if s.Claim? && w.sweeps[s.i] == Claiming(Unrecorded) && Terminal(w.state) {
        BlindButHarmless(w, s);
      } else {
        MarkerStep(w, s);
      }
    } else if IsEnding(s) {
      EndStep(w, s);
    } else if IsSweeping(s) {
      SweepStep(w, s);
    } else if IsOpening(s) {
      ResumeOpens(w, s);
    } else {
      ResumeWorks(w, s);
    }
  }

  lemma {:induction false} BlindButHarmless(w: World, s: Step)
    requires Core(w) && s.Claim? && Enabled(w, s) && w.sweeps[s.i] == Claiming(Unrecorded) && Terminal(w.state)
    requires Pruned(w.marks) || (!Resumable(w.state) && !SomePast(w))
    ensures Shut(Do(w, s)) || Closed(Do(w, s))
  {
    PrunedGrows(w.marks, Marker(false, false));
    if Pruned(w.marks) {
      forall r | r in w.resumes
        ensures !w.resumes[r].Driving?
      {
        assert ResumeOk(w, w.resumes[r]);
      }
    }
  }

  lemma {:induction false} ShutStays(w: World, s: Step)
    requires Shut(w) && Enabled(w, s)
    ensures Shut(Do(w, s))
  {
    var w' := Do(w, s);
    if w'.marks != w.marks {
      PrunedGrows(w.marks, w'.marks[|w.marks|]);
    }
  }

  lemma {:induction false} ClosedStays(w: World, s: Step)
    requires Closed(w) && Enabled(w, s)
    ensures Closed(Do(w, s))
  {
  }

  lemma {:induction false} ElsewhereStays(w: World, s: Step)
    requires w.workspace == Elsewhere && Enabled(w, s)
    ensures Do(w, s).workspace == Elsewhere
  {
  }

  /** Every action that is not a hazard keeps the protocol safe. */
  lemma {:induction false} SafeStep(w: World, s: Step)
    requires Safe(w) && Enabled(w, s) && !Hazard(w, s)
    ensures Safe(Do(w, s))
  {
    MarkedStep(w, s);
    if w.workspace == Elsewhere {
      ElsewhereStays(w, s);
    } else if Shut(w) {
      ShutStays(w, s);
    } else if Closed(w) {
      ClosedStays(w, s);
    } else {
      CoreStep(w, s);
    }
  }

  ghost predicate HazardFree(w: World, steps: seq<Step>)
    requires Legal(w, steps)
    decreases |steps|
  {
    steps == [] || (!Hazard(w, steps[0]) && HazardFree(Do(w, steps[0]), steps[1..]))
  }

  /** In every interleaving without a hazard, no resume is ever at work in a
      removed workspace. */
  lemma {:induction false} ResumesAreNeverLost(w: World, steps: seq<Step>, r: nat)
    requires Safe(w) && Legal(w, steps) && HazardFree(w, steps)
    ensures Safe(After(w, steps)) && !Lost(After(w, steps), r)
    decreases |steps|
  {
    if steps == [] {
      SafeIsNotLost(w, r);
    } else {
      SafeStep(w, steps[0]);
      ResumesAreNeverLost(Do(w, steps[0]), steps[1..], r);
    }
  }

  lemma {:induction false} UntouchedIsSafe(w: World)
    requires Untouched(w)
    ensures Safe(w)
  {
  }

  lemma {:induction false} AnyMarkPrunes(marks: seq<Marker>)
    ensures marks != [] && (forall k :: 0 <= k < |marks| ==> marks[k].workspaceRemoved) ==> Pruned(marks)
  {
    if marks != [] && forall k :: 0 <= k < |marks| ==> marks[k].workspaceRemoved {
      assert marks[0].workspaceRemoved;
    }
  }

  /** A resume at work in the run's own directory came first: no sweep has
      claimed the run, and a claim made now backs off and changes nothing. */
  lemma {:induction false} FirstResumeWins(w: World, r: nat, i: nat)
    requires Safe(w) && r in w.resumes && w.resumes[r].Driving? && w.workspace == Inside
    ensures w.marks == [] && w.dir == Intact
    ensures forall k :: k in w.sweeps ==> !PastClaim(w.sweeps[k])
    ensures Enabled(w, Claim(i)) ==> Do(w, Claim(i)) == SweepLeaves(w, i)
  {
    assert !w.resumes[r].Opening?;
    assert Core(w);
    assert ResumeOk(w, w.resumes[r]);
    AnyMarkPrunes(w.marks);
    forall k | k in w.sweeps
      ensures !PastClaim(w.sweeps[k])
    {
      assert SweepOk(w, w.sweeps[k]);
    }
    assert Open(w.resumes[r]);
    assert SomeOpen(w, {});
  }

  // ---- each hazard is real ----

  /** `steps`, none of them a hazard, take the directory from under a resume. */
  ghost predicate Loses(w: World, steps: seq<Step>, r: nat) {
    Legal(w, steps) && HazardFree(w, steps) && Lost(After(w, steps), r)
  }

  /** A loss can follow without any further hazard. */
  ghost predicate CanLose(w: World) {
    exists steps, r :: Loses(w, steps, r)
  }

  lemma {:induction false} LosesCons(w: World, s: Step, rest: seq<Step>, r: nat)
    requires Enabled(w, s) && !Hazard(w, s) && Loses(Do(w, s), rest, r)
    ensures Loses(w, [s] + rest, r)
  {
    assert ([s] + rest)[1..] == rest;
  }

  /** One step back from a loss. */
  lemma {:induction false} Before(w: World, s: Step)
    requires Enabled(w, s) && !Hazard(w, s) && CanLose(Do(w, s))
    ensures CanLose(w)
  {
    var rest, r :| Loses(Do(w, s), rest, r);
    LosesCons(w, s, rest, r);
  }

  lemma {:induction false} LostAlready(w: World, r: nat)
    requires Lost(w, r)
    ensures CanLose(w)
  {
    assert Loses(w, [], r);
  }

  /** A sweep past its claim takes the directory from under a resume at work. */
  lemma {:induction false} ThenRemoved(w: World, i: nat, r: nat)
    requires At(w, i) && w.sweeps[i].Staging? && w.dir == Intact
    requires r in w.resumes && w.resumes[r].Driving? && w.workspace == Inside
    ensures CanLose(w)
  {
    var w1 := Do(w, DropLeftover(i, Absent));
    LostAlready(Do(w1, Rename(i, true)), r);
    Before(w1, Rename(i, true));
    Before(w, DropLeftover(i, Absent));
  }

  /** Nothing says where the workspace is, or it is in the directory, which is
      whole. */
  ghost predicate Whole(w: World) {
    w.dir == Intact && w.workspace != Elsewhere && !Pruned(w.marks)
  }

  lemma {:induction false} ThenProvisioned(w: World, i: nat, r: nat)
    requires Whole(w) && At(w, i) && w.sweeps[i].Staging? && Resuming(w, r) && w.resumes[r].Driving?
    ensures CanLose(w)
  {
    ThenRemoved(Do(w, Provision(r, Inside)), i, r);
    Before(w, Provision(r, Inside));
  }

  lemma {:induction false} ThenEntered(w: World, i: nat, r: nat)
    requires Whole(w) && At(w, i) && w.sweeps[i].Staging? && Resuming(w, r) && w.resumes[r].Entering?
    ensures CanLose(w)
  {
    var w1 := Do(w, Enter(r));
    ThenProvisioned(Do(w1, Recheck(r)), i, r);
    Before(w1, Recheck(r));
    Before(w, Enter(r));
  }

  lemma {:induction false} ThenGuarded(w: World, i: nat, r: nat)
    requires Whole(w) && At(w, i) && w.sweeps[i].Staging? && Resuming(w, r)
    requires w.resumes[r].Guarding? && Terminal(w.resumes[r].from)
    ensures CanLose(w)
  {
    ThenEntered(Do(w, Guard(r)), i, r);
    Before(w, Guard(r));
  }

  lemma {:induction false} ThenArrived(w: World, i: nat, r: nat)
    requires Whole(w) && At(w, i) && w.sweeps[i].Staging? && !Resuming(w, r)
    requires Resumable(w.state) && Terminal(w.state)
    ensures CanLose(w)
  {
    var w1 := Do(w, ResumeArrives(r));
    ThenGuarded(Do(w1, Snapshot(r)), i, r);
    Before(w1, Snapshot(r));
    Before(w, ResumeArrives(r));
  }

  lemma {:induction false} SomeoneNew(taken: set<nat>) returns (r: nat)
    ensures r !in taken
    ensures forall k :: k in taken ==> k < r
  {
    if taken == {} {
      r := 0;
    } else {
      var k :| k in taken;
      var rest := SomeoneNew(taken - {k});
      r := if rest > k then rest else k + 1;
      assert forall j :: j in taken ==> j == k || j in taken - {k};
    }
  }

  /** In a safe world a blind claim meets the invariant: the directory is whole,
      and no resume is open. */
  lemma {:induction false} BlindMeetsCore(w: World, i: nat)
    requires Safe(w) && BlindClaim(w, Claim(i))
    ensures Core(w) && w.dir == Intact && w.staged == Absent && w.marks == []
    ensures forall r :: r in w.resumes ==> !Open(w.resumes[r]) && !w.resumes[r].Backing?
  {
    AnyMarkPrunes(w.marks);
    forall r | r in w.resumes
      ensures !Open(w.resumes[r]) && !w.resumes[r].Backing?
    {
      assert ResumeOk(w, w.resumes[r]);
      assert Open(w.resumes[r]) ==> SomeOpen(w, {});
    }
  }

  /** After any blind claim in a safe world a loss can follow. */
  lemma {:induction false} BlindClaimLoses(w: World, i: nat)
    requires Safe(w) && BlindClaim(w, Claim(i))
    ensures CanLose(Do(w, Claim(i)))
  {
    BlindMeetsCore(w, i);
    PrunedGrows(w.marks, Marker(false, false));
    var w' := Do(w, Claim(i));
    if SomePast(w) {
      var r :| r in w.resumes && !w.resumes[r].Opening?;
      if w.resumes[r].Guarding? {
        ThenGuarded(w', i, r);
      } else {
        ThenEntered(w', i, r);
      }
    } else {
      var r := SomeoneNew(w.resumes.Keys);
      ThenArrived(w', i, r);
    }
  }

  /** A resume at work in a run declared over: a sweep that reads the record now
      takes its directory. */
  lemma {:induction false} ThenSwept(w: World, r: nat)
    requires Whole(w) && Terminal(w.state) && Resuming(w, r) && w.resumes[r].Driving? && w.workspace == Inside
    ensures CanLose(w)
  {
    var i := SomeoneNew(w.sweeps.Keys);
    var w1 := Do(w, SweepArrives(i));
    var w2 := Do(w1, ReadRecord(i));
    ThenRemoved(Do(w2, Claim(i)), i, r);
    Before(w2, Claim(i));
    Before(w1, ReadRecord(i));
    Before(w, SweepArrives(i));
  }

  lemma {:induction false} ThenDriven(w: World, r: nat)
    requires Whole(w) && Terminal(w.state) && Resuming(w, r) && w.resumes[r].Driving?
    ensures CanLose(w)
  {
    ThenSwept(Do(w, Provision(r, Inside)), r);
    Before(w, Provision(r, Inside));
  }

  /** An open resume of a run declared over goes on to work. */
  lemma {:induction false} ThenOpen(w: World, r: nat)
    requires Whole(w) && Terminal(w.state) && Resuming(w, r) && Open(w.resumes[r])
    ensures CanLose(w)
  {
    match w.resumes[r]
    case Driving => ThenDriven(w, r);
    case Rechecking(_) =>
      ThenDriven(Do(w, Recheck(r)), r);
      Before(w, Recheck(r));
    case Guarding(_) =>
      ThenDriven(Do(w, Guard(r)), r);
      Before(w, Guard(r));
  }

  /** In a safe world a run declared over under an open resume meets the invariant. */
  lemma {:induction false} PulledOutMeetsCore(w: World, s: Step)
    requires Safe(w) && Enabled(w, s) && PulledOut(w, s)
    ensures Core(w) && w.dir == Intact
  {
    AnyMarkPrunes(w.marks);
    var r :| r in w.resumes && Open(w.resumes[r]);
    assert !w.resumes[r].Opening?;
  }

  /** After any end declared under an open resume in a safe world a loss can follow. */
  lemma {:induction false} PullingOutLoses(w: World, s: Step)
    requires Safe(w) && Enabled(w, s) && PulledOut(w, s)
    ensures CanLose(Do(w, s))
  {
    PulledOutMeetsCore(w, s);
    var r :| r in w.resumes && r !in (if s.Finish? then {s.r} else {}) && Open(w.resumes[r]);
    ThenOpen(Do(w, s), r);
  }

  /** The hazards are exact: in a safe world, a step is one of the two if and only
      if, after it and with no further hazard, a resume can lose its directory. */
  lemma {:induction false} HazardIsExact(w: World, s: Step)
    requires Safe(w) && Enabled(w, s)
    ensures Hazard(w, s) <==> CanLose(Do(w, s))
    ensures Safe(Do(w, s)) <==> !Hazard(w, s)
  {
    if BlindClaim(w, s) {
      BlindClaimLoses(w, s.i);
    } else if PulledOut(w, s) {
      PullingOutLoses(w, s);
    } else {
      SafeStep(w, s);
    }
    if Safe(Do(w, s)) {
      SafeCannotLose(Do(w, s));
    }
  }

  lemma {:induction false} SafeCannotLose(w: World)
    requires Safe(w)
    ensures !CanLose(w)
  {
    forall steps, r | Loses(w, steps, r)
      ensures false
    {
      ResumesAreNeverLost(w, steps, r);
    }
  }
}

/** Removing one run's directory, as the sweep does it: the marker first, then
    the rename out of `runs/`, then the deletion. Between any two of its own
    actions every other sweep, resume, cancel and crash may act. */
module RunGc {
  import opened GcProtocol

  /** `None`, `False` and `True` of the source: the run left the terminal
      states; the marker stands and the removal failed; it is gone. */
  datatype Removal = Kept | NotRemoved | Removed

  /** What the file system lets a sweep do: rename, delete in place, and what is
      left of a tree when it does not let a deletion finish. */
  datatype FileSystem = FileSystem(canRename: bool, canDelete: bool, leftover: Dir, kept: Dir, partial: Dir)

  /** What a deletion leaves. */
  function Leave(before: Dir, left: Dir): Dir { if CanLeave(before, left) then left else Absent }

  /** The steps that are the sweep's own. */
  function Own(steps: seq<Step>, me: nat): seq<Step> {
    if steps == [] then []
    else Own(steps[..|steps| - 1], me) + if IsBy(steps[|steps| - 1], me) then [steps[|steps| - 1]] else []
  }

  lemma {:induction false} OwnMore(a: seq<Step>, b: seq<Step>, me: nat)
    ensures Own(a + b, me) == Own(a, me) + Own(b, me)
    decreases |b|
  {
    if b == [] {
      assert a + b == a;
    } else {
      var front, last := b[..|b| - 1], b[|b| - 1];
      assert (a + b)[..|a + b| - 1] == a + front && (a + b)[|a + b| - 1] == last;
      OwnMore(a, front, me);
    }
  }

  lemma {:induction false} NotOwn(steps: seq<Step>, me: nat)
    requires forall k :: 0 <= k < |steps| ==> !IsBy(steps[k], me)
    ensures Own(steps, me) == []
    decreases |steps|
  {
    if steps != [] {
      NotOwn(steps[..|steps| - 1], me);
    }
  }

  /** One of the sweep's own steps has the outcome that the file system and the
      directory, as it was at that moment, give it. */
  ghost predicate HonestAt(start: World, trace: seq<Step>, k: nat, me: nat, fs: FileSystem)
    requires k < |trace|
  {
    IsBy(trace[k], me) ==>
      && Legal(start, trace[..k])
      && var w := After(start, trace[..k]);
        match trace[k]
        case DropLeftover(_, left) => left == Leave(w.staged, fs.leftover)
        case Rename(_, ok) => ok <==> fs.canRename && w.dir != Absent
        case DropStaged(_, left) => left == Leave(w.staged, fs.kept)
        case RemoveInPlace(_, left, ok) =>
          (ok <==> fs.canDelete && w.dir != Absent) && left == if ok then Absent else Leave(w.dir, fs.partial)
        case _ => true
  }

  ghost predicate Honest(start: World, trace: seq<Step>, from: nat, me: nat, fs: FileSystem) {
    forall k :: from <= k < |trace| ==> HonestAt(start, trace, k, me, fs)
  }

  lemma {:induction false} HonestOn(start: World, trace: seq<Step>, longer: seq<Step>, from: nat, me: nat, fs: FileSystem)
    requires Honest(start, trace, from, me, fs) && trace <= longer
    requires forall k :: |trace| <= k < |longer| ==> HonestAt(start, longer, k, me, fs)
    ensures Honest(start, longer, from, me, fs)
  {
    forall k | from <= k < |longer|
      ensures HonestAt(start, longer, k, me, fs)
    {
      if k < |trace| {
        assert HonestAt(start, trace, k, me, fs);
        assert longer[..k] == trace[..k];
      }
    }
  }

  /** A removal: what lay in the way is dropped and the directory renamed away; then
      the renamed copy is deleted, or, if it could not be renamed, the directory
      where it is. */
  ghost predicate IsRemoval(own: seq<Step>, me: nat, removed: bool) {
    && |own| == 3 && own[0].DropLeftover? && own[1].Rename? && own[0].i == own[1].i == me
    && if own[1].ok then removed && own[2].DropStaged? && own[2].i == me
       else own[2].RemoveInPlace? && own[2].i == me && own[2].ok == removed
  }

  /** The claim was made when the run was not terminal. */
  ghost predicate TurnedAway(start: World, trace: seq<Step>, me: nat) {
    && trace != [] && trace[|trace| - 1] == Claim(me)
    && Legal(start, trace[..|trace| - 1]) && !Terminal(After(start, trace[..|trace| - 1]).state)
  }

  class Host {
    var world: World
    ghost const start: World
    ghost var trace: seq<Step>

    /** The world is what the recorded actions made of an untouched run. */
    ghost predicate Valid()
      reads this
    {
      Marked(start) && Legal(start, trace) && After(start, trace) == world
    }

    constructor (run: World)
      requires Untouched(run)
      ensures Valid() && world == run && trace == []
    {
      world, start, trace := run, run, [];
    }

    /** One atomic action. */
    method Act(s: Step)
      requires Valid() && Enabled(world, s)
      modifies this
      ensures Valid()
      ensures world == Do(old(world), s) && trace == old(trace) + [s]
    {
      LegalSnoc(start, trace, s);
      world := Do(world, s);
      trace := trace + [s];
    }

    /** Anyone else acts, any number of times. */
    method Others(me: nat)
      requires Valid()
      modifies this
      ensures Valid() && old(trace) <= trace
      ensures forall k :: |old(trace)| <= k < |trace| ==> !IsBy(trace[k], me)
      ensures me in world.sweeps <==> me in old(world).sweeps
      ensures me in world.sweeps ==> world.sweeps[me] == old(world).sweeps[me]
      ensures old(world).marks <= world.marks
    {
      var n: nat := *;
      while n > 0
        invariant Valid() && old(trace) <= trace
        invariant forall k :: |old(trace)| <= k < |trace| ==> !IsBy(trace[k], me)
        invariant me in world.sweeps <==> me in old(world).sweeps
        invariant me in world.sweeps ==> world.sweeps[me] == old(world).sweeps[me]
        invariant old(world).marks <= world.marks
      {
        var s: Step := *;
        if Enabled(world, s) && !IsBy(s, me) {
          Act(s);
        }
        n := n - 1;
      }
    }

    /** The sweep's own steps since `from` are those, and their outcomes honest. */
    ghost predicate Did(from: nat, me: nat, fs: FileSystem, own: seq<Step>)
      reads this
    {
      from <= |trace| && Own(trace[from..], me) == own && Honest(start, trace, from, me, fs)
    }

    /** A step of the sweep's own. */
    method Own1(s: Step, me: nat, fs: FileSystem, ghost from: nat, ghost own: seq<Step>)
      requires Valid() && Enabled(world, s) && IsBy(s, me) && Did(from, me, fs, own)
      requires HonestAt(start, trace + [s], |trace|, me, fs)
      modifies this
      ensures Valid() && world == Do(old(world), s) && trace == old(trace) + [s]
      ensures Did(from, me, fs, own + [s])
    {
      ghost var before := trace;
      Act(s);
      assert trace[from..] == before[from..] + [s];
      OwnMore(before[from..], [s], me);
      HonestOn(start, before, trace, from, me, fs);
    }

    /** Others act in between. */
    method Meanwhile(me: nat, fs: FileSystem, ghost from: nat, ghost own: seq<Step>)
      requires Valid() && Did(from, me, fs, own)
      modifies this
      ensures Valid() && old(trace) <= trace && Did(from, me, fs, own)
      ensures me in world.sweeps <==> me in old(world).sweeps
      ensures me in world.sweeps ==> world.sweeps[me] == old(world).sweeps[me]
      ensures old(world).marks <= world.marks
    {
      ghost var before := trace;
      Others(me);
      assert trace[from..] == before[from..] + trace[|before|..];
      NotOwn(trace[|before|..], me);
      OwnMore(before[from..], trace[|before|..], me);
      HonestOn(start, before, trace, from, me, fs);
    }

    /** Clear a leftover of the same name out of the way, as far as it goes. */
    method DropWhatWasStaged(me: nat, fs: FileSystem, ghost from: nat, ghost own: seq<Step>) returns (s: Step)
      requires Valid() && me in world.sweeps && world.sweeps[me].Staging? && Did(from, me, fs, own)
      modifies this
      ensures Valid() && old(trace) <= trace && s.DropLeftover? && s.i == me && Did(from, me, fs, own + [s])
      ensures me in world.sweeps && world.sweeps[me] == Renaming(old(world).sweeps[me].flag)
      ensures world.marks == old(world).marks
    {
      s := DropLeftover(me, Leave(world.staged, fs.leftover));
      Own1(s, me, fs, from, own);
    }

    /** Try to rename the directory out of `runs/`. */
    method RenameAway(me: nat, fs: FileSystem, ghost from: nat, ghost own: seq<Step>) returns (s: Step)
      requires Valid() && me in world.sweeps && world.sweeps[me].Renaming? && Did(from, me, fs, own)
      modifies this
      ensures Valid() && old(trace) <= trace && s.Rename? && s.i == me && Did(from, me, fs, own + [s])
      ensures me in world.sweeps && (if s.ok then world.sweeps[me].Clearing? else world.sweeps[me].InPlace?)
      ensures world.marks == old(world).marks
    {
      s := Rename(me, fs.canRename && world.dir != Absent);
      Own1(s, me, fs, from, own);
    }

    /** Delete the staged copy; what stays of it is only disk to reclaim. */
    method DeleteStaged(me: nat, fs: FileSystem, ghost from: nat, ghost own: seq<Step>) returns (s: Step)
      requires Valid() && me in world.sweeps && world.sweeps[me].Clearing? && Did(from, me, fs, own)
      modifies this
      ensures Valid() && old(trace) <= trace && s.DropStaged? && s.i == me && Did(from, me, fs, own + [s])
      ensures me !in world.sweeps && world.marks == old(world).marks
    {
      s := DropStaged(me, Leave(world.staged, fs.kept));
      Own1(s, me, fs, from, own);
    }

    /** Delete the directory where it is. It may be left half-deleted when the
        file system does not let it finish, and there may be nothing to delete. */
    method DeleteInPlace(me: nat, fs: FileSystem, ghost from: nat, ghost own: seq<Step>) returns (s: Step)
      requires Valid() && me in world.sweeps && world.sweeps[me].InPlace? && Did(from, me, fs, own)
      modifies this
      ensures Valid() && old(trace) <= trace && s.RemoveInPlace? && s.i == me && Did(from, me, fs, own + [s])
      ensures if s.ok then me !in world.sweeps else me in world.sweeps && world.sweeps[me].Reporting?
      ensures world.marks == old(world).marks
    {
      var ok := fs.canDelete && world.dir != Absent;
      s := RemoveInPlace(me, if ok then Absent else Leave(world.dir, fs.partial), ok);
      Own1(s, me, fs, from, own);
    }

    /** Rename the directory away and delete it, or delete it where it is. Each
        step is taken once, in this order, with the outcome the file system and
        the directory at that moment give it; nothing else decides the answer. */
    method Remove(me: nat, fs: FileSystem, ghost from: nat, ghost own: seq<Step>) returns (removed: bool, ghost steps: seq<Step>)
      requires Valid() && me in world.sweeps && world.sweeps[me].Staging? && Did(from, me, fs, own)
      modifies this
      ensures Valid() && old(trace) <= trace && old(world).marks <= world.marks
      ensures Did(from, me, fs, own + steps) && IsRemoval(steps, me, removed)
      ensures removed ==> me !in world.sweeps
      ensures !removed ==> me in world.sweeps && world.sweeps[me].Reporting?
    {
      Meanwhile(me, fs, from, own);
      var s1 := DropWhatWasStaged(me, fs, from, own);
      Meanwhile(me, fs, from, own + [s1]);
      var s2 := RenameAway(me, fs, from, own + [s1]);
      Meanwhile(me, fs, from, own + [s1] + [s2]);
      var s3: Step;
      if s2.ok {
        s3 := DeleteStaged(me, fs, from, own + [s1] + [s2]);
        removed := true;
      } else {
        s3 := DeleteInPlace(me, fs, from, own + [s1] + [s2]);
        removed := s3.ok;
      }
      steps := [s1, s2, s3];
      assert own + [s1] + [s2] + [s3] == own + steps;
    }

    /** Read the record and claim the run, in one write with the marker; `false`
        when the run had left the terminal states. */
    method MarkFirst(me: nat, fs: FileSystem) returns (claimed: bool)
      requires Valid() && me !in world.sweeps
      modifies this
      ensures Valid() && old(trace) <= trace
      ensures Did(|old(trace)|, me, fs, [SweepArrives(me), ReadRecord(me), Claim(me)])
      ensures claimed <==> me in world.sweeps
      ensures claimed ==> world.sweeps[me].Staging? && world.marks != []
      ensures !claimed ==> TurnedAway(start, trace, me)
    {
      ghost var from := |trace|;
      assert trace[from..] == [];
      Step1(SweepArrives(me), me, fs, from, []);
      Meanwhile(me, fs, from, [SweepArrives(me)]);
      Step1(ReadRecord(me), me, fs, from, [SweepArrives(me)]);
      Meanwhile(me, fs, from, [SweepArrives(me), ReadRecord(me)]);
      ghost var before := trace;
      Step1(Claim(me), me, fs, from, [SweepArrives(me), ReadRecord(me)]);
      claimed := me in world.sweeps;
      assert trace[..|trace| - 1] == before;
    }

    /** A step with only one outcome. */
    method Step1(s: Step, me: nat, fs: FileSystem, ghost from: nat, ghost own: seq<Step>)
      requires Valid() && Enabled(world, s) && Did(from, me, fs, own)
      requires s == SweepArrives(me) || s == ReadRecord(me) || s == Claim(me) || s == Report(me)
      modifies this
      ensures Valid() && world == Do(old(world), s) && trace == old(trace) + [s]
      ensures Did(from, me, fs, own + [s])
    {
      Own1(s, me, fs, from, own);
    }

    /** Mark one run's directory as removed, then remove it. Whatever the others
        do meanwhile, a directory that is not intact is marked. Its own steps are
        exactly the claim, the removal if the claim stood, and the report if that
        failed. */
    method MarkAndRemove(me: nat, fs: FileSystem) returns (outcome: Removal, ghost steps: seq<Step>)
      requires Valid() && me !in world.sweeps
      modifies this
      ensures Valid() && old(trace) <= trace && me !in world.sweeps
      ensures world.dir != Intact || world.staged != Absent ==> world.marks != []
      ensures Did(|old(trace)|, me, fs, [SweepArrives(me), ReadRecord(me), Claim(me)] + steps)
      ensures match outcome
        case Kept => steps == [] && TurnedAway(start, trace, me)
        case Removed => IsRemoval(steps, me, true) && world.marks != []
        case NotRemoved =>
          && |steps| == 4 && IsRemoval(steps[..3], me, false) && steps[3] == Report(me)
          && world.marks != [] && world.marks[|world.marks| - 1].failed
    {
      ghost var from := |trace|;
      ghost var claim := [SweepArrives(me), ReadRecord(me), Claim(me)];
      var claimed := MarkFirst(me, fs);
      outcome, steps := Kept, [];
      assert claim + [] == claim;
      if claimed {
        var removed: bool;
        removed, steps := Remove(me, fs, from, claim);
        outcome := if removed then Removed else NotRemoved;
        if !removed {
          Meanwhile(me, fs, from, claim + steps);
          Step1(Report(me), me, fs, from, claim + steps);
          assert claim + steps + [Report(me)] == claim + (steps + [Report(me)]);
          assert (steps + [Report(me)])[..3] == steps;
          steps := steps + [Report(me)];
        }
      }
      DamageIsMarked(start, trace);
    }
  }
}

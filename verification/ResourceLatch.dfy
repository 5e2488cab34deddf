/** The worker's resource watch: edge-triggered warnings, and the diagnosis a
    failed job is reported with. */
module ResourceLatch {
  import opened Wrappers

  datatype Sample = Sample(disk: Option<real>, mem: Option<real>, load: Option<real>)

  datatype Thresholds = Thresholds(diskWarn: real, diskAbort: real, memWarn: real, memAbort: real)

  datatype Level = Calm | Warn | Abort

  function Severity(l: Level): nat {
    match l
    case Calm => 0
    case Warn => 1
    case Abort => 2
  }

  /** A threshold of zero is switched off. */
  predicate Past(used: Option<real>, threshold: real) {
    used.Some? && threshold > 0.0 && used.value >= threshold
  }

  function Classify(s: Sample, t: Thresholds): Level {
    if Past(s.disk, t.diskAbort) then Abort
    else if Past(s.mem, t.memAbort) then Abort
    else if Past(s.disk, t.diskWarn) then Warn
    else if Past(s.mem, t.memWarn) then Warn
    else Calm
  }

  /** The level of one resource on its own. */
  function LevelOf(used: Option<real>, warn: real, abort: real): Level {
    match used
    case None => Calm
    case Some(u) =>
      if abort > 0.0 && abort <= u then Abort else if warn > 0.0 && warn <= u then Warn else Calm
  }

  /** A sample is as bad as the worse of disk and memory. */
  lemma {:induction false} LevelIsTheWorse(s: Sample, t: Thresholds)
    ensures var disk, mem := LevelOf(s.disk, t.diskWarn, t.diskAbort), LevelOf(s.mem, t.memWarn, t.memAbort);
      && (Classify(s, t) == disk || Classify(s, t) == mem)
      && Severity(Classify(s, t)) >= Severity(disk) && Severity(Classify(s, t)) >= Severity(mem)
    ensures Severity(Calm) < Severity(Warn) < Severity(Abort)
  {
  }

  datatype Diagnosis =
    | DiskExhausted(used: Option<real>, threshold: real)
    | MemoryExhausted(used: Option<real>, threshold: real)

  function AbortMessage(s: Sample, t: Thresholds): Diagnosis {
    if Past(s.disk, t.diskAbort) then DiskExhausted(s.disk, t.diskAbort) else MemoryExhausted(s.mem, t.memAbort)
  }

  // ---- what is remembered, said of the whole history ----

  predicate Hits(s: Sample, t: Thresholds, diskOnly: bool) {
    if diskOnly then Past(s.disk, t.diskAbort) else Classify(s, t) == Abort
  }

  /** The first sample that hits, or the length. */
  function First(seen: seq<Sample>, t: Thresholds, diskOnly: bool): (i: nat)
    ensures i <= |seen|
    ensures forall j :: 0 <= j < i ==> !Hits(seen[j], t, diskOnly)
    ensures i < |seen| ==> Hits(seen[i], t, diskOnly)
  {
    if seen == [] || Hits(seen[0], t, diskOnly) then 0 else 1 + First(seen[1..], t, diskOnly)
  }

  /** The first sample past the disk limit if there is one, else the first past
      any limit. */
  function Diagnosed(seen: seq<Sample>, t: Thresholds): Option<Diagnosis> {
    var d, a := First(seen, t, true), First(seen, t, false);
    if d < |seen| then Some(AbortMessage(seen[d], t))
    else if a < |seen| then Some(AbortMessage(seen[a], t))
    else None
  }

  function LevelAfter(seen: seq<Sample>, t: Thresholds): Level {
    if seen == [] then Calm else Classify(seen[|seen| - 1], t)
  }

  /** The levels at which severity strictly rose from the sample before. */
  function Rises(seen: seq<Sample>, t: Thresholds): seq<Level> {
    if seen == [] then []
    else
      var front, level := seen[..|seen| - 1], LevelAfter(seen, t);
      Rises(front, t) + if Severity(level) > Severity(LevelAfter(front, t)) then [level] else []
  }

  lemma {:induction false} FirstSnoc(seen: seq<Sample>, s: Sample, t: Thresholds, diskOnly: bool)
    ensures var i := First(seen, t, diskOnly);
      First(seen + [s], t, diskOnly) == if i < |seen| then i else if Hits(s, t, diskOnly) then |seen| else |seen| + 1
  {
    var i, j := First(seen, t, diskOnly), First(seen + [s], t, diskOnly);
    assert forall k :: 0 <= k < |seen| ==> (seen + [s])[k] == seen[k];
    assert (seen + [s])[|seen|] == s;
  }

  /** One more abort sample moves the diagnosis only where the latch does. */
  lemma {:induction false} DiagnosedSnoc(seen: seq<Sample>, s: Sample, t: Thresholds)
    ensures Diagnosed(seen + [s], t) ==
      if Classify(s, t) == Abort then Latched(Diagnosed(seen, t), s, t) else Diagnosed(seen, t)
  {
    FirstSnoc(seen, s, t, true);
    FirstSnoc(seen, s, t, false);
    var d, a := First(seen, t, true), First(seen, t, false);
    assert d < |seen| ==> (seen + [s])[d] == seen[d];
    assert a < |seen| ==> (seen + [s])[a] == seen[a];
    assert d < |seen| ==> Hits(seen[d], t, false);
  }

  /** What one sample makes of the latched diagnosis. */
  function Latched(latched: Option<Diagnosis>, s: Sample, t: Thresholds): Option<Diagnosis> {
    if latched.None? || (Past(s.disk, t.diskAbort) && !latched.value.DiskExhausted?) then Some(AbortMessage(s, t)) else latched
  }

  lemma {:induction false} DiagnosedMeans(seen: seq<Sample>, t: Thresholds)
    ensures Diagnosed(seen, t).Some? <==> exists k :: 0 <= k < |seen| && Classify(seen[k], t) == Abort
    ensures Diagnosed(seen, t).Some? ==>
      (Diagnosed(seen, t).value.DiskExhausted? <==> exists k :: 0 <= k < |seen| && Past(seen[k].disk, t.diskAbort))
  {
    var d, a := First(seen, t, true), First(seen, t, false);
    if d < |seen| {
      assert Past(seen[d].disk, t.diskAbort);
      assert Classify(seen[d], t) == Abort;
    }
    if a < |seen| {
      assert Classify(seen[a], t) == Abort;
    }
    assert forall k :: 0 <= k < |seen| && Past(seen[k].disk, t.diskAbort) ==> Hits(seen[k], t, true);
    assert forall k :: 0 <= k < |seen| && Classify(seen[k], t) == Abort ==> Hits(seen[k], t, false);
  }

  /** The diagnosis is that of one sample, with its figure and the limit it passed:
      the first past the disk limit, or, when there is none, the first past the
      memory limit. */
  lemma {:induction false} DiagnosedFigures(seen: seq<Sample>, t: Thresholds) returns (k: nat)
    requires Diagnosed(seen, t).Some?
    ensures k < |seen|
    ensures match Diagnosed(seen, t).value
      case DiskExhausted(used, limit) =>
        && used == seen[k].disk && limit == t.diskAbort && Past(used, limit)
        && forall j :: 0 <= j < k ==> !Past(seen[j].disk, t.diskAbort)
      case MemoryExhausted(used, limit) =>
        && used == seen[k].mem && limit == t.memAbort && Past(used, limit)
        && (forall j :: 0 <= j < |seen| ==> !Past(seen[j].disk, t.diskAbort))
        && forall j :: 0 <= j < k ==> !Past(seen[j].mem, t.memAbort)
  {
    var d, a := First(seen, t, true), First(seen, t, false);
    assert forall j :: 0 <= j < d ==> !Hits(seen[j], t, true);
    assert forall j :: 0 <= j < a ==> !Hits(seen[j], t, false);
    k := if d < |seen| then d else a;
    assert Hits(seen[k], t, d < |seen|);
  }

  // ---- the watch ----

  datatype JobResult =
    | Done(output: string)
    | Failed(kind: string, message: string)
    | Exhausted(diagnosis: Diagnosis, underlying: JobResult)

  class Runner {
    const thresholds: Thresholds
    var level: Level
    var latched: Option<Diagnosis>
    var warnings: seq<Level>
    ghost var seen: seq<Sample>

    ghost predicate Valid()
      reads this
    {
      && level == LevelAfter(seen, thresholds)
      && latched == Diagnosed(seen, thresholds)
      && warnings == Rises(seen, thresholds)
    }

    constructor (t: Thresholds)
      ensures Valid() && thresholds == t && seen == []
    {
      thresholds := t;
      level, latched, warnings, seen := Calm, None, [], [];
    }

    /** One sample taken; a sample that measured nothing is passed over. */
    method SampleAndEmit(sample: Sample)
      requires Valid()
      modifies this
      ensures Valid()
      ensures seen == if sample == Sample(None, None, None) then old(seen) else old(seen) + [sample]
    {
      if sample == Sample(None, None, None) {
        return;
      }
      var now := Classify(sample, thresholds);
      DiagnosedSnoc(seen, sample, thresholds);
      if Severity(now) > Severity(level) {
        warnings := warnings + [now];
      }
      if now == Abort {
        LatchAbort(sample);
      }
      level := now;
      seen := seen + [sample];
    }

    method LatchAbort(sample: Sample)
      modifies this`latched
      ensures latched == Latched(old(latched), sample, thresholds)
    {
      if latched.None? || (Past(sample.disk, thresholds.diskAbort) && !latched.value.DiskExhausted?) {
        latched := Some(AbortMessage(sample, thresholds));
      }
    }

    /** The result to write: an ok one as it is; a failed one under the diagnosis
        of the whole run, when some sample went past a limit. */
    method Finish(result: JobResult) returns (r: JobResult)
      requires Valid()
      ensures result.Done? ==> r == result
      ensures !result.Done? ==>
        if exists k :: 0 <= k < |seen| && Classify(seen[k], thresholds) == Abort
        then Diagnosed(seen, thresholds).Some? && r == Exhausted(Diagnosed(seen, thresholds).value, result)
        else r == result
    {
      DiagnosedMeans(seen, thresholds);
      if latched.Some? && !result.Done? {
        return Exhausted(latched.value, result);
      }
      return result;
    }
  }
}

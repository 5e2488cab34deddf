/** The gate in front of a deployment: a state file with a floor, the time of
    the last finish and an in-progress flag, rewritten by every start and
    finish. */
module DeployGate {
  import opened Versions
  import opened Wrappers

  const COOLDOWN_S := 1800

  /** The state file. Reading an unreadable one stops every command. */
  datatype Stored =
    | Missing
    | State(finishedAt: nat, blockedThrough: Option<Version>, inProgress: bool)
    | Unreadable

  datatype Decision = Deploy | Current | Older | Blocked | Cooldown | Refused

  function Decide(current: Version, target: Version, s: Stored, now: nat, manual: bool): Decision {
    if s.Unreadable? then Refused
    else if s.State? && s.inProgress then (if manual then Deploy else Refused)
    else if current == target then Current
    else if manual then Deploy
    else if Below(target, current) then Older
    else if s.State? && s.blockedThrough.Some? && AtMost(target, s.blockedThrough.value) then Blocked
    else if s.State? && now - s.finishedAt < COOLDOWN_S then Cooldown
    else Deploy
  }

  /** `deploy-start`. A manual one also blocks everything released so far. */
  function Started(s: Stored, target: Version, manual: bool, latest: Version): Stored {
    if s.Unreadable? then s
    else
      var floor := if s.State? && s.blockedThrough.Some? then Later(s.blockedThrough.value, target) else target;
      State(if s.State? then s.finishedAt else 0,
            Some(if manual then Later(floor, latest) else floor),
            true)
  }

  /** `deploy-finish`. Without an earlier start there is nothing to complete,
      and the file it writes is refused from then on. */
  function Finished(s: Stored, now: nat, healthy: bool): Stored {
    match s
    case State(_, floor, _) => State(now, floor, !healthy)
    case _ => Unreadable
  }

  /** A deployment that was started, with what held at that moment. */
  datatype Deployment = Deployment(
    target: Version,
    manual: bool,
    at: nat,
    released: set<Version>,
    after: Last,
    lastFinish: Option<nat>)

  /** What happened last: nothing yet, a start, or a finish. */
  datatype Last = Nothing | Start | Ended(healthy: bool)

  /** The state file, and the history beside it. */
  datatype Gate = Gate(stored: Stored, deployments: seq<Deployment>, finishes: seq<nat>, last: Last)

  /** One job: a check and, when it decides so, the start that follows it; or a
      finish. A crash is an attempt or a finish that does not happen. */
  datatype Event =
    | Attempt(current: Version, target: Version, manual: bool, now: nat, released: set<Version>)
    | Finish(now: nat, healthy: bool)

  ghost predicate Sensible(e: Event) {
    e.Attempt? ==> e.released != {}
  }

  function LastOf(finishes: seq<nat>): Option<nat> {
    if finishes == [] then None else Some(finishes[|finishes| - 1])
  }

  ghost function Next(g: Gate, e: Event): Gate
    requires Sensible(e)
  {
    match e
    case Attempt(current, target, manual, now, released) =>
      if Decide(current, target, g.stored, now, manual) != Deploy then g
      else
        Gate(Started(g.stored, target, manual, Greatest(released)),
             g.deployments + [Deployment(target, manual, now, released, g.last, LastOf(g.finishes))],
             g.finishes,
             Start)
    case Finish(now, healthy) =>
      if g.stored.Unreadable? then g
      else Gate(Finished(g.stored, now, healthy), g.deployments, g.finishes + [now], Ended(healthy))
  }

  ghost function After(g: Gate, events: seq<Event>): Gate
    requires forall k :: 0 <= k < |events| ==> Sensible(events[k])
    decreases |events|
  {
    if events == [] then g else After(Next(g, events[0]), events[1..])
  }

  const FRESH := Gate(Missing, [], [], Nothing)

  /** The floor covers everything it has to cover. */
  ghost predicate Covers(floor: Version, d: Deployment) {
    AtMost(d.target, floor) && (d.manual ==> forall v :: v in d.released ==> AtMost(v, floor))
  }

  /** The floor is no higher than something set it. */
  ghost predicate Sets(floor: Version, d: Deployment) {
    floor == d.target || (d.manual && floor in d.released)
  }

  /** What an automatic deployment owes to everything before it. */
  ghost predicate Respects(later: Deployment, earlier: Deployment) {
    !later.manual ==> Below(earlier.target, later.target) && (earlier.manual ==> later.target !in earlier.released)
  }

  /** Nothing was started before, or the last start was finished in health. */
  predicate Settled(last: Last) { last == Nothing || last == Ended(true) }

  ghost predicate Rested(d: Deployment) {
    !d.manual ==> Settled(d.after) && (d.lastFinish.Some? ==> d.at - d.lastFinish.value >= COOLDOWN_S)
  }

  ghost predicate Ordered(ds: seq<Deployment>) {
    && (forall i, j :: 0 <= i < j < |ds| ==> Respects(ds[j], ds[i]))
    && (forall j :: 0 <= j < |ds| ==> Rested(ds[j]))
  }

  ghost predicate Guarded(g: Gate) {
    && Ordered(g.deployments)
    && (g.stored.Missing? ==> g.deployments == [] && g.finishes == [] && g.last == Nothing)
    && (g.stored.State? ==>
          && g.stored.blockedThrough.Some?
          && (g.stored.inProgress <==> !Settled(g.last))
          && (forall d :: d in g.deployments ==> Covers(g.stored.blockedThrough.value, d))
          && (exists d :: d in g.deployments && Sets(g.stored.blockedThrough.value, d))
          && (g.finishes == [] ==> g.stored.finishedAt == 0)
          && (g.finishes != [] ==> LastOf(g.finishes) == Some(g.stored.finishedAt)))
  }

  /** Whether the floor did not move back. */
  predicate FloorHolds(before: Stored, after: Stored) {
    before.State? && before.blockedThrough.Some? ==>
      after.State? && after.blockedThrough.Some? && AtMost(before.blockedThrough.value, after.blockedThrough.value)
  }

  lemma {:induction false} NextIsGuarded(g: Gate, e: Event)
    requires Guarded(g) && Sensible(e)
    ensures Guarded(Next(g, e)) && FloorHolds(g.stored, Next(g, e).stored)
    ensures g.deployments <= Next(g, e).deployments
  {
    if e.Attempt? && Next(g, e) != g {
      StartIsGuarded(g, e);
    }
  }

  lemma {:induction false} StartIsGuarded(g: Gate, e: Event)
    requires Guarded(g) && Sensible(e) && e.Attempt? && Next(g, e) != g
    ensures Guarded(Next(g, e)) && FloorHolds(g.stored, Next(g, e).stored)
  {
    var g' := Next(g, e);
    var d := g'.deployments[|g.deployments|];
    forall i | 0 <= i < |g.deployments|
      ensures Respects(d, g.deployments[i])
    {
      assert g.deployments[i] in g.deployments;
    }
    FloorIsSet(g, e);
  }

  /** The new floor is the old one, the target or the latest release. */
  lemma {:induction false} FloorIsSet(g: Gate, e: Event)
    requires Guarded(g) && Sensible(e) && e.Attempt? && !g.stored.Unreadable?
    ensures var d := Deployment(e.target, e.manual, e.now, e.released, g.last, LastOf(g.finishes));
      var floor := Started(g.stored, e.target, e.manual, Greatest(e.released)).blockedThrough.value;
      exists x :: x in g.deployments + [d] && Sets(floor, x)
  {
    var d := Deployment(e.target, e.manual, e.now, e.released, g.last, LastOf(g.finishes));
    var floor := Started(g.stored, e.target, e.manual, Greatest(e.released)).blockedThrough.value;
    assert d in g.deployments + [d];
    if !Sets(floor, d) {
      var x :| x in g.deployments && Sets(g.stored.blockedThrough.value, x);
      assert x in g.deployments + [d];
    }
  }

  /** What the history holds against an automatic deployment of `target`. */
  ghost predicate HeldBack(g: Gate, target: Version) {
    exists d :: d in g.deployments && HeldBackBy(d, target)
  }

  ghost predicate HeldBackBy(d: Deployment, target: Version) {
    AtMost(target, d.target) || (d.manual && exists v :: v in d.released && AtMost(target, v))
  }

  /** The gate opens to an automatic deployment exactly when the state can be
      read, nothing was started before or the last start was finished in health,
      the target is newer than what is installed, than everything started and than
      everything released at a manual start, and, after a first deployment, the
      cooldown of the last finish is over: nothing else ever holds one back. */
  lemma {:induction false} GateOpensExactly(g: Gate, current: Version, target: Version, now: nat)
    requires Guarded(g)
    ensures Decide(current, target, g.stored, now, false) == Deploy <==>
      && !g.stored.Unreadable? && Settled(g.last)
      && Below(current, target) && !HeldBack(g, target) && !Cooling(g, now)
  {
    if g.stored.State? {
      HeldBackByFloor(g, target);
    }
  }

  /** Inside the cooldown of the last finish. */
  predicate Cooling(g: Gate, now: nat) {
    g.deployments != [] && now - LastOf(g.finishes).GetOr(0) < COOLDOWN_S
  }

  /** A manual deployment goes ahead exactly when the state can be read and there is
      something to change or to recover. */
  lemma {:induction false} ManualOpensExactly(g: Gate, current: Version, target: Version, now: nat)
    requires Guarded(g)
    ensures Decide(current, target, g.stored, now, true) == Deploy <==>
      !g.stored.Unreadable? && (current != target || !Settled(g.last))
  {
  }

  /** Every other answer names the reason, the first of these that holds. */
  lemma {:induction false} RefusalsNameTheReason(g: Gate, current: Version, target: Version, now: nat, manual: bool)
    requires Guarded(g)
    ensures var d := Decide(current, target, g.stored, now, manual);
      && (d == Refused <==> g.stored.Unreadable? || (!manual && !Settled(g.last)))
      && (d == Current <==> !g.stored.Unreadable? && Settled(g.last) && current == target)
      && (d.Older? || d.Blocked? || d.Cooldown? ==> !manual && !g.stored.Unreadable? && Settled(g.last))
      && (d == Older <==> !manual && !g.stored.Unreadable? && Settled(g.last) && Below(target, current))
      && (d == Blocked <==> !manual && !g.stored.Unreadable? && Settled(g.last) && Below(current, target) && HeldBack(g, target))
      && (d == Cooldown <==> !manual && !g.stored.Unreadable? && Settled(g.last) && Below(current, target) && !HeldBack(g, target) && Cooling(g, now))
  {
    if g.stored.State? {
      HeldBackByFloor(g, target);
    }
  }

  lemma {:induction false} HeldBackByFloor(g: Gate, target: Version)
    requires Guarded(g) && g.stored.State?
    ensures HeldBack(g, target) <==> AtMost(target, g.stored.blockedThrough.value)
  {
    var floor := g.stored.blockedThrough.value;
    if AtMost(target, floor) {
      var d :| d in g.deployments && Sets(floor, d);
      assert HeldBackBy(d, target);
    }
    if HeldBack(g, target) {
      var d :| d in g.deployments && HeldBackBy(d, target);
      assert Covers(floor, d);
    }
  }

  /** Over every sequence of jobs: the floor never falls; an automatic
      deployment targets a version above every one started before it, one that
      was not released when any earlier manual deployment started, and starts
      neither while another is in progress nor inside the cooldown of the last
      finish. */
  lemma {:induction false} GateHolds(g: Gate, events: seq<Event>)
    requires Guarded(g)
    requires forall k :: 0 <= k < |events| ==> Sensible(events[k])
    ensures Guarded(After(g, events)) && g.deployments <= After(g, events).deployments
    ensures FloorHolds(g.stored, After(g, events).stored)
    decreases |events|
  {
    if events != [] {
      NextIsGuarded(g, events[0]);
      GateHolds(Next(g, events[0]), events[1..]);
    }
  }

  lemma {:induction false} FreshIsGuarded()
    ensures Guarded(FRESH)
  {
  }

  // ---- a finish with nothing started ----

  /** A check that starts the very first deployment. */
  predicate OpensFirst(e: Event) {
    e.Attempt? && e.current != e.target && (e.manual || Below(e.current, e.target))
  }

  /** Some finish comes before anything was started. */
  ghost predicate FinishesFirst(events: seq<Event>) {
    exists i :: 0 <= i < |events| && events[i].Finish? && forall j :: 0 <= j < i ==> !OpensFirst(events[j])
  }

  lemma {:induction false} FinishesFirstStep(events: seq<Event>)
    requires events != []
    ensures FinishesFirst(events) <==> events[0].Finish? || (!OpensFirst(events[0]) && FinishesFirst(events[1..]))
  {
    var rest := events[1..];
    if FinishesFirst(events) && !events[0].Finish? {
      var i :| 0 <= i < |events| && events[i].Finish? && forall j :: 0 <= j < i ==> !OpensFirst(events[j]);
      assert rest[i - 1] == events[i];
    }
    if !OpensFirst(events[0]) && FinishesFirst(rest) {
      var i :| 0 <= i < |rest| && rest[i].Finish? && forall j :: 0 <= j < i ==> !OpensFirst(rest[j]);
      assert events[i + 1] == rest[i];
      assert forall j :: 1 <= j < i + 1 ==> events[j] == rest[j - 1];
    }
  }

  /** Once there is a file, whether it can be read never changes. */
  lemma {:induction false} ReadableStays(g: Gate, events: seq<Event>)
    requires !g.stored.Missing? && forall k :: 0 <= k < |events| ==> Sensible(events[k])
    ensures !After(g, events).stored.Missing?
    ensures After(g, events).stored.Unreadable? <==> g.stored.Unreadable?
    ensures g.stored.Unreadable? ==> After(g, events) == g
    decreases |events|
  {
    if events != [] {
      ReadableStays(Next(g, events[0]), events[1..]);
    }
  }

  /** Over every sequence of jobs from the first: the state file ends up one that
      every command refuses exactly when some finish ran before anything had been
      started, and then nothing changes it again. */
  lemma {:induction false} JamsExactly(events: seq<Event>)
    requires forall k :: 0 <= k < |events| ==> Sensible(events[k])
    ensures After(FRESH, events).stored.Unreadable? <==> FinishesFirst(events)
    decreases |events|
  {
    if events != [] {
      FinishesFirstStep(events);
      if Next(FRESH, events[0]) == FRESH {
        JamsExactly(events[1..]);
      } else {
        ReadableStays(Next(FRESH, events[0]), events[1..]);
      }
    }
  }

  /** One finish on its own is enough: no deployment, manual or not, is ever
      let through after it. */
  lemma {:induction false} LoneFinishJams(now: nat, healthy: bool, later: seq<Event>, current: Version, target: Version, at: nat, manual: bool)
    requires forall k :: 0 <= k < |later| ==> Sensible(later[k])
    ensures var g := After(FRESH, [Finish(now, healthy)] + later);
      g.stored.Unreadable? && g.deployments == [] && Decide(current, target, g.stored, at, manual) == Refused
  {
    var events := [Finish(now, healthy)] + later;
    assert events[1..] == later;
    ReadableStays(Next(FRESH, events[0]), later);
  }
}

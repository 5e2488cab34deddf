/** Choosing the next release: which version, from which commit, and whether an
    interrupted one is finished first. */
module ReleasePlan {
  import opened Versions
  import opened Wrappers

  type Sha = string

  /** Whether the second commit is a strict descendant of the first. */
  type Ahead = (Sha, Sha) -> bool

  datatype Status = Unreleased | DraftOnly | Published(whole: bool)

  datatype Plan = New(version: Version, sha: Sha) | Resume(version: Version, sha: Sha) | Noop(version: Version, sha: Sha)

  const FIRST := Version(0, 1, 0)

  function Bump(v: Version): Version { v.(patch := v.patch + 1) }

  /** The plan for `sha`, from the tags and the state of the latest one's release. */
  function PlanFor(tags: map<Version, Sha>, status: Version -> Status, ahead: Ahead, sha: Sha): Result<Plan, string> {
    if tags == map[] then Success(New(FIRST, sha))
    else
      var latest := Greatest(tags.Keys);
      var reserved := tags[latest];
      if sha != reserved && !ahead(reserved, sha) then Failure("latest version is not an ancestor of the selected main commit")
      else if !status(latest).Published? then Success(Resume(latest, reserved))
      else if !status(latest).whole then Failure("release assets incomplete")
      else if sha == reserved then Success(Noop(latest, sha))
      else Success(New(Bump(latest), sha))
  }

  /** Tags are only made by reserving a plan, releases only published for a
      reserved version. */
  datatype Repo = Repo(tags: map<Version, Sha>, drafts: set<Version>, published: set<Version>, whole: set<Version>)

  function StatusIn(repo: Repo): Version -> Status {
    (v: Version) =>
      if v in repo.published then Published(v in repo.whole) else if v in repo.drafts then DraftOnly else Unreleased
  }

  function PlanIn(repo: Repo, ahead: Ahead, sha: Sha): Result<Plan, string> {
    PlanFor(repo.tags, StatusIn(repo), ahead, sha)
  }

  /** A publication checks that the release is whole. */
  function Released(repo: Repo, v: Version): Repo {
    repo.(drafts := repo.drafts - {v}, published := repo.published + {v}, whole := repo.whole + {v})
  }

  /** Carry a plan out: it may stop before reserving the tag, after it, or
      publish. */
  ghost function Carried(repo: Repo, plan: Plan, reserves: bool, publishes: bool): Repo {
    match plan
    case Noop(_, _) => repo
    case New(v, sha) =>
      if !reserves then repo
      else if publishes then Released(repo.(tags := repo.tags[v := sha]), v) else repo.(tags := repo.tags[v := sha])
    case Resume(v, _) => if publishes then Released(repo, v) else repo
  }

  /** One serialised pipeline run. */
  datatype Run = Run(sha: Sha, reserves: bool, publishes: bool)

  ghost function After(ahead: Ahead, repo: Repo, run: Run): Repo {
    match PlanIn(repo, ahead, run.sha)
    case Failure(_) => repo
    case Success(plan) => Carried(repo, plan, run.reserves, run.publishes)
  }

  ghost predicate Transitive(ahead: Ahead) {
    && (forall a, b, c :: ahead(a, b) && ahead(b, c) ==> ahead(a, c))
    && (forall a :: !ahead(a, a))
  }

  /** Only the greatest tag may be unpublished, and versions follow the history
      of main: a greater version is a strictly later commit. */
  ghost predicate Orderly(ahead: Ahead, repo: Repo) {
    && repo.published <= repo.tags.Keys
    && (forall u, v :: u in repo.tags && v in repo.tags && Below(u, v) ==>
          u in repo.published && ahead(repo.tags[u], repo.tags[v]))
  }

  /** What a plan made for `sha` promises of the repository it was made in: a new
      version is the least above all tags, which are published and behind `sha`;
      a resume has its tag's own commit, and that tag is the greatest and the only
      unpublished one; with nothing to do `sha` is released. */
  ghost predicate Sound(ahead: Ahead, repo: Repo, sha: Sha, plan: Plan) {
    match plan
    case New(v, c) =>
      && c == sha
      && (forall u :: u in repo.tags ==> Below(u, v) && u in repo.published && ahead(repo.tags[u], c))
      && (if repo.tags == map[] then v == Version(0, 1, 0)
          else forall w :: (forall u :: u in repo.tags ==> Below(u, w)) ==> AtMost(v, w))
      && (forall u :: IsLatest(repo, u) ==> u in repo.whole)
    case Resume(v, c) =>
      && v in repo.tags && v !in repo.published && repo.tags[v] == c && (c == sha || ahead(c, sha))
      && (forall u :: u in repo.tags && u != v ==> Below(u, v) && u in repo.published)
    case Noop(v, c) => IsLatest(repo, v) && v in repo.published && v in repo.whole && repo.tags[v] == c == sha
  }

  ghost predicate IsLatest(repo: Repo, v: Version) {
    v in repo.tags && forall u :: u in repo.tags ==> AtMost(u, v)
  }

  /** The latest release is out with files missing. */
  ghost predicate Maimed(repo: Repo) {
    exists u :: IsLatest(repo, u) && u in repo.published && u !in repo.whole
  }

  /** A commit off the line of some tag. */
  ghost predicate OffTheLine(ahead: Ahead, repo: Repo, sha: Sha) {
    exists u :: u in repo.tags && sha != repo.tags[u] && !ahead(repo.tags[u], sha)
  }

  /** A plan never reuses, skips back over or moves a version, and is refused only
      off the line or over a maimed release. */
  lemma {:induction false} PlanIsSound(ahead: Ahead, repo: Repo, sha: Sha)
    requires Transitive(ahead) && Orderly(ahead, repo)
    ensures match PlanIn(repo, ahead, sha)
      case Failure(_) => OffTheLine(ahead, repo, sha) || Maimed(repo)
      case Success(plan) => Sound(ahead, repo, sha, plan)
  {
    if repo.tags != map[] {
      var latest := Greatest(repo.tags.Keys);
      assert forall u :: u in repo.tags ==> AtMost(u, latest);
      assert IsLatest(repo, latest);
      forall u | IsLatest(repo, u) ensures u == latest {
        assert AtMost(u, latest) && AtMost(latest, u);
      }
      forall w | forall u :: u in repo.tags ==> Below(u, w)
        ensures AtMost(Bump(latest), w)
      {
        assert Below(latest, w);
      }
    }
  }

  /** Carrying out a sound plan, as far as it goes, keeps the repository orderly. */
  lemma {:induction false} CarriedIsOrderly(ahead: Ahead, repo: Repo, sha: Sha, plan: Plan, reserves: bool, publishes: bool)
    requires Transitive(ahead) && Orderly(ahead, repo) && Sound(ahead, repo, sha, plan)
    ensures var after := Carried(repo, plan, reserves, publishes);
      && Orderly(ahead, after) && repo.published <= after.published
      && forall u :: u in repo.tags ==> u in after.tags && after.tags[u] == repo.tags[u]
  {
  }

  lemma {:induction false} RunIsOrderly(ahead: Ahead, repo: Repo, run: Run)
    requires Transitive(ahead) && Orderly(ahead, repo)
    ensures Orderly(ahead, After(ahead, repo, run))
    ensures forall u :: u in repo.tags ==> u in After(ahead, repo, run).tags && After(ahead, repo, run).tags[u] == repo.tags[u]
    ensures repo.published <= After(ahead, repo, run).published
  {
    PlanIsSound(ahead, repo, run.sha);
    var plan := PlanIn(repo, ahead, run.sha);
    if plan.Success? {
      CarriedIsOrderly(ahead, repo, run.sha, plan.value, run.reserves, run.publishes);
    }
  }

  ghost function AfterAll(ahead: Ahead, repo: Repo, runs: seq<Run>): Repo
    decreases |runs|
  {
    if runs == [] then repo else AfterAll(ahead, After(ahead, repo, runs[0]), runs[1..])
  }

  /** However many runs, wherever each one stops and whatever main was: at most
      the greatest tag is unpublished, released commits form one strict chain,
      and no tag ever moves. */
  lemma {:induction false} ReleasesFormAChain(ahead: Ahead, repo: Repo, runs: seq<Run>)
    requires Transitive(ahead) && Orderly(ahead, repo)
    ensures var end := AfterAll(ahead, repo, runs);
      && Orderly(ahead, end)
      && repo.published <= end.published
      && forall u :: u in repo.tags ==> u in end.tags && end.tags[u] == repo.tags[u]
    decreases |runs|
  {
    if runs != [] {
      RunIsOrderly(ahead, repo, runs[0]);
      ReleasesFormAChain(ahead, After(ahead, repo, runs[0]), runs[1..]);
    }
  }

  // ---- waiting for main to settle ----

  const QUIET_S := 180.0
  const MAX_BATCH_S := 1800.0
  const POLL_S := 15.0

  /** What the waiting job does to learn of the world: it reads the clock, sleeps,
      and looks at main, which has moved or not since it last looked. */
  datatype Glance = Read(at: real) | Slept(seconds: real) | Saw(sha: Sha, moved: bool, at: real)

  /** The last time main was seen to have moved, among the glances from `from` to
      `n`, or -1. */
  ghost function LastMove(seen: seq<Glance>, from: nat, n: nat): (j: int)
    requires from <= n <= |seen|
    ensures j == -1 || (from <= j < n && seen[j].Saw? && seen[j].moved)
    ensures forall k :: from <= k < n && k > j && seen[k].Saw? ==> !seen[k].moved
    decreases n
  {
    if n == from then -1
    else if seen[n - 1].Saw? && seen[n - 1].moved then n - 1
    else LastMove(seen, from, n - 1)
  }

  lemma {:induction false} LastMoveStays(seen: seq<Glance>, longer: seq<Glance>, from: nat, n: nat)
    requires from <= n <= |seen| && seen <= longer
    ensures LastMove(seen, from, n) == LastMove(longer, from, n)
    decreases n
  {
    if n > from {
      LastMoveStays(seen, longer, from, n - 1);
    }
  }

  /** When main moved last, or when the waiting began. */
  ghost function MovedAt(seen: seq<Glance>, from: nat, n: nat, began: real): real
    requires from <= n <= |seen|
  {
    var j := LastMove(seen, from, n);
    if j == -1 then began else seen[j].at
  }

  /** The reading of the clock taken right after that. */
  ghost function RestartedAt(seen: seq<Glance>, from: nat, n: nat, began: real): real
    requires from <= n <= |seen|
  {
    var j := LastMove(seen, from, n);
    if j == -1 || j + 1 == |seen| || !seen[j + 1].Read? then began else seen[j + 1].at
  }

  /** The sleep at `k` was due: just before it the clock said that main had moved
      too recently, and that there was time left. */
  ghost predicate Due(seen: seq<Glance>, from: nat, k: nat, began: real)
    requires from <= k < |seen|
  {
    && k >= from + 3 && seen[k] == Slept(POLL_S) && seen[k - 2].Read? && seen[k - 1].Read?
    && seen[k - 2].at - RestartedAt(seen, from, k - 2, began) < QUIET_S
    && seen[k - 1].at - began < MAX_BATCH_S
  }

  /** Main is looked at after every sleep. */
  ghost predicate Looks(seen: seq<Glance>, from: nat) {
    forall k :: from <= k < |seen| && seen[k].Slept? ==> k + 1 < |seen| && seen[k + 1].Saw?
  }

  ghost predicate Waits(seen: seq<Glance>, from: nat, start: real, changed: real) {
    && from < |seen| && seen[from] == Read(start)
    && RestartedAt(seen, from, |seen|, start) == changed >= MovedAt(seen, from, |seen|, start)
    && (LastMove(seen, from, |seen|) != -1 ==>
        LastMove(seen, from, |seen|) + 1 < |seen| && seen[LastMove(seen, from, |seen|) + 1].Read?)
    && (forall k :: from <= k < |seen| && seen[k].Slept? ==> Due(seen, from, k, start))
  }

  /** A wait from `from` on: it began and ended at readings of the clock, main had
      been quiet long enough by then or the time was up, and every sleep in it was
      due, and followed by a look at main. */
  ghost predicate WaitedOut(seen: seq<Glance>, from: nat, began: real, ended: real) {
    && from < |seen| && seen[from] == Read(began) && seen[|seen| - 1] == Read(ended)
    && (ended - MovedAt(seen, from, |seen|, began) >= QUIET_S || ended - began >= MAX_BATCH_S)
    && (forall k :: from <= k < |seen| && seen[k].Slept? ==> Due(seen, from, k, began))
    && Looks(seen, from)
  }

  /** Earlier sleeps stay due. */
  lemma {:induction false} DueStays(seen: seq<Glance>, longer: seq<Glance>, from: nat, start: real)
    requires from < |seen| && seen <= longer
    requires LastMove(seen, from, |seen|) != -1 ==> LastMove(seen, from, |seen|) + 1 < |seen|
    requires forall k :: from <= k < |seen| && seen[k].Slept? ==> Due(seen, from, k, start)
    ensures forall k :: from <= k < |seen| && longer[k].Slept? ==> Due(longer, from, k, start)
  {
    forall k | from <= k < |seen| && longer[k].Slept?
      ensures Due(longer, from, k, start)
    {
      assert Due(seen, from, k, start);
      LastMoveStays(seen, longer, from, k - 2);
    }
  }

  /** A glance that is no sleep and sees no move changes nothing. */
  lemma {:induction false} Still(seen: seq<Glance>, longer: seq<Glance>, from: nat, start: real, changed: real)
    requires Waits(seen, from, start, changed)
    requires |longer| == |seen| + 1 && seen <= longer
    requires !longer[|seen|].Slept? && !(longer[|seen|].Saw? && longer[|seen|].moved)
    ensures Waits(longer, from, start, changed)
  {
    LastMoveStays(seen, longer, from, |seen|);
    DueStays(seen, longer, from, start);
  }

  /** A sleep after two readings that say so is due. */
  lemma {:induction false} SleptOn(seen: seq<Glance>, read: seq<Glance>, longer: seq<Glance>, from: nat, start: real, changed: real, t1: real, t2: real)
    requires Waits(seen, from, start, changed) && Waits(read, from, start, changed)
    requires read == seen + [Read(t1)] + [Read(t2)] && longer == read + [Slept(POLL_S)]
    requires t1 - changed < QUIET_S && t2 - start < MAX_BATCH_S
    ensures Waits(longer, from, start, changed)
  {
    LastMoveStays(read, longer, from, |read|);
    LastMoveStays(seen, longer, from, |seen|);
    DueStays(read, longer, from, start);
    assert Due(longer, from, |read|, start);
  }

  /** After a move the clock is read again, and the quiet time starts there. */
  lemma {:induction false} Moved(seen: seq<Glance>, saw: seq<Glance>, longer: seq<Glance>, from: nat, start: real, changed: real)
    requires |saw| == |seen| + 1 && seen <= saw && saw[|seen|].Saw? && saw[|seen|].moved && saw[|seen|].at <= changed
    requires longer == saw + [Read(changed)]
    requires from < |seen| && seen[from] == Read(start)
    requires exists before :: Waits(seen, from, start, before)
    ensures Waits(longer, from, start, changed)
  {
    var before :| Waits(seen, from, start, before);
    assert LastMove(longer, from, |longer|) == |seen|;
    DueStays(seen, longer, from, start);
  }

  /** Time and main as the waiting job sees them: sleeping passes at least the
      time asked for, and main may have moved whenever it is looked at. */
  class Outside {
    var now: real
    var main: Sha
    ghost var seen: seq<Glance>

    constructor (now: real, main: Sha)
      ensures this.now == now && this.main == main && seen == []
    {
      this.now, this.main, seen := now, main, [];
    }

    method Clock() returns (t: real)
      modifies this`now, this`seen
      ensures now == t >= old(now) && seen == old(seen) + [Read(t)]
    {
      var wait: real := *;
      t := if wait > 0.0 then now + wait else now;
      now := t;
      seen := seen + [Read(t)];
    }

    method Sleep(seconds: real)
      requires seconds >= 0.0
      modifies this`now, this`seen
      ensures now >= old(now) + seconds && seen == old(seen) + [Slept(seconds)]
    {
      var extra: real := *;
      now := now + seconds + if extra > 0.0 then extra else 0.0;
      seen := seen + [Slept(seconds)];
    }

    method Head() returns (sha: Sha)
      modifies this`main, this`seen
      ensures main == sha && seen == old(seen) + [Saw(sha, sha != old(main), now)]
    {
      sha := *;
      seen := seen + [Saw(sha, sha != main, now)];
      main := sha;
    }

    /** Wait until main has been quiet, or long enough. However often main moves,
        the wait ends, after at most 120 polls, on the commit main was last seen
        at: when by the clock main has not moved for the quiet time, or the whole
        wait has taken the longest time allowed. And it sleeps only while neither
        is so. */
    method AwaitQuiet(first: Sha) returns (sha: Sha, polls: nat, ghost began: real, ghost ended: real)
      requires first == main
      modifies this
      ensures polls <= 120 && sha == main
      ensures old(now) <= began <= ended <= now
      ensures old(seen) <= seen && WaitedOut(seen, |old(seen)|, began, ended)
    {
      ghost var from := |seen|;
      var start := Clock();
      var changed := start;
      began, ended := start, start;
      sha, polls := first, 0;
      while true
        invariant Waiting(old(seen), start, changed) && Looks(seen, from)
        invariant now - start >= POLL_S * polls as real
        invariant polls <= 120 && sha == main
        decreases 121 - polls
      {
        ghost var s0 := seen;
        var t1 := Clock();
        ended := t1;
        Still(s0, seen, from, start, changed);
        if t1 - changed >= QUIET_S { break; }
        ghost var s1 := seen;
        var t2 := Clock();
        ended := t2;
        Still(s1, seen, from, start, changed);
        if t2 - start >= MAX_BATCH_S { break; }
        sha, changed := Poll(sha, changed, start, old(seen), s0, t1, t2);
        polls := polls + 1;
      }
    }

    /** Sleep, and look again; when main has moved, the quiet time starts over. */
    method Poll(sha: Sha, changed: real, ghost start: real, ghost before: seq<Glance>, ghost s0: seq<Glance>, ghost t1: real, ghost t2: real)
      returns (sha': Sha, changed': real)
      requires Waiting(before, start, changed) && sha == main && Looks(seen, |before|)
      requires Waits(s0, |before|, start, changed) && seen == s0 + [Read(t1)] + [Read(t2)]
      requires t1 - changed < QUIET_S && t2 - start < MAX_BATCH_S
      modifies this
      ensures Waiting(before, start, changed') && sha' == main && now >= old(now) + POLL_S
      ensures Looks(seen, |before|)
    {
      ghost var from, s2 := |before|, seen;
      sha', changed' := sha, changed;
      Sleep(POLL_S);
      SleptOn(s0, s2, seen, from, start, changed, t1, t2);
      ghost var s3 := seen;
      var current := Head();
      if current != sha {
        ghost var s4 := seen;
        sha' := current;
        changed' := Clock();
        Moved(s3, s4, seen, from, start, changed');
      } else {
        Still(s3, seen, from, start, changed);
      }
    }

    /** Between two polls: `changed` is the reading after main's last move. */
    ghost predicate Waiting(before: seq<Glance>, start: real, changed: real)
      reads this
    {
      Waits(seen, |before|, start, changed) && before <= seen && now >= changed >= start
    }

    /** One batch. Main is read, and may move while the job waits; an operator may
        have tagged in the meantime, so `later` need not be `repo`. The plan is
        sound for main as it was last seen, in the repository as it was last read;
        so a new version is above every tag there is by then, and carrying it out
        keeps that repository orderly. Only a batch that would number a new
        release by itself waits. */
    method Batch(manual: bool, repo: Repo, later: Repo, ahead: Ahead) returns (plan: Result<Plan, string>, waited: bool, ghost initial: Sha)
      modifies this
      ensures old(seen) < seen && seen[|old(seen)|].Saw? && seen[|old(seen)|].sha == initial
      ensures !waited ==> main == initial && |seen| == |old(seen)| + 1
      ensures waited <==> !manual && var p := PlanIn(repo, ahead, initial); p.Success? && p.value.New?
      ensures Transitive(ahead) ==> Promised(ahead, if waited then later else repo, main, plan)
      ensures waited ==> exists from, began, ended :: |old(seen)| <= from && WaitedOut(seen, from, began, ended)
      ensures waited && Transitive(ahead) && Orderly(ahead, repo) ==> forall u :: u in repo.tags ==> u in repo.published
      ensures !waited && plan.Success? && plan.value.New? ==> manual
    {
      var sha := Head();
      initial := sha;
      waited := false;
      plan := PlanIn(repo, ahead, sha);
      PlanIsPromised(ahead, repo, sha);
      if !manual && plan.Success? && plan.value.New? {
        waited := true;
        ghost var from := |seen|;
        var frozen, _, began, ended := AwaitQuiet(sha);
        assert WaitedOut(seen, from, began, ended);
        plan := PlanIn(later, ahead, frozen);
        PlanIsPromised(ahead, later, frozen);
      }
    }
  }

  /** What a plan made for `sha` in an orderly repository is good for. */
  ghost predicate Promised(ahead: Ahead, repo: Repo, sha: Sha, plan: Result<Plan, string>) {
    Orderly(ahead, repo) ==>
      match plan
      case Failure(_) => OffTheLine(ahead, repo, sha) || Maimed(repo)
      case Success(p) =>
        && Sound(ahead, repo, sha, p)
        && forall reserves, publishes :: Orderly(ahead, Carried(repo, p, reserves, publishes))
  }

  lemma {:induction false} PlanIsPromised(ahead: Ahead, repo: Repo, sha: Sha)
    ensures Transitive(ahead) ==> Promised(ahead, repo, sha, PlanIn(repo, ahead, sha))
  {
    if Transitive(ahead) && Orderly(ahead, repo) {
      PlanIsSound(ahead, repo, sha);
      var plan := PlanIn(repo, ahead, sha);
      if plan.Success? {
        forall reserves, publishes
          ensures Orderly(ahead, Carried(repo, plan.value, reserves, publishes))
        {
          CarriedIsOrderly(ahead, repo, sha, plan.value, reserves, publishes);
        }
      }
    }
  }
}

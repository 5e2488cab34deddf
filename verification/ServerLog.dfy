/** What an observer of the resident worker sees: every line it reads and
    writes, every fork, file read and signal, in order. A job's history is
    legal when the automaton below accepts it; the lemmas read the promises
    of the wire protocol off an accepted history. */
module ServerLog {
  import opened Lines
  import opened Wrappers

  const CANCEL_GRACE_S := 2.0

  datatype Outcome = ResultFile | Lost(exitCode: int)

  datatype Entry =
    | Ready
    | Received(line: Bytes)
    | Started(job: string, tools: bool)
    | Read(job: string, content: Bytes)
    | Unread(job: string)
    | Forwarded(job: string, text: string)
    | ToolFile(job: string)
    | Term(job: string, at: real)
    | Kill(job: string, at: real)
    | Exited(job: string)
    | Finished(job: string, outcome: Outcome)
    | Refused(job: string)
    | Complaint
    | Eof

  /** Decoding and trimming of one line; the host's codec decides it. */
  type Decoder = Bytes -> string

  /** A child is alive until the system hands over its exit; then its file is
      looked at once more. */
  datatype Stage = Alive | Gone | Drained

  /** A job id's state. A running job carries the time of its SIGTERM, the part
      of its events file read so far, the lines forwarded from it, its stage, and
      whether it asked for host tools. */
  datatype Life =
    | Idle
    | Running(term: Option<real>, seen: Bytes, sent: seq<string>, stage: Stage, tools: bool)
    | Broken

  function AfterLook(s: Stage): Stage { if s == Gone then Drained else s }

  predicate IsStart(e: Entry, id: string) { e.Started? && e.job == id }

  /** The lines worth forwarding: decoded, trimmed, blank ones dropped. */
  function Shown(text: Decoder, lines: seq<Bytes>): seq<string> {
    if lines == [] then []
    else (if text(lines[0]) == "" then [] else [text(lines[0])]) + Shown(text, lines[1..])
  }

  function Due(text: Decoder, seen: Bytes): seq<string> {
    Shown(text, Complete(seen))
  }

  lemma {:induction false} ShownDistributes(text: Decoder, a: seq<Bytes>, b: seq<Bytes>)
    ensures Shown(text, a + b) == Shown(text, a) + Shown(text, b)
  {
    if a == [] {
      assert a + b == b;
    } else {
      assert (a + b)[1..] == a[1..] + b;
      ShownDistributes(text, a[1..], b);
    }
  }

  lemma {:induction false} ShownFrom(text: Decoder, lines: seq<Bytes>, k: nat)
    requires k < |lines|
    ensures Shown(text, lines[k..]) == (if text(lines[k]) == "" then [] else [text(lines[k])]) + Shown(text, lines[k + 1..])
  {
    assert lines[k..][1..] == lines[k + 1..];
  }

  /** Reading more of the file makes due exactly the lines that are complete
      once the unfinished line is put in front of the new bytes. */
  lemma {:induction false} DueExtends(text: Decoder, seen: Bytes, chunk: Bytes)
    ensures Due(text, seen + chunk) == Due(text, seen) + Due(text, Rest(seen) + chunk)
    ensures Rest(seen + chunk) == Rest(Rest(seen) + chunk)
  {
    FramingIsIncremental(seen, chunk);
    ShownDistributes(text, Complete(seen), Complete(Rest(seen) + chunk));
  }

  lemma {:induction false} DueGrows(text: Decoder, a: Bytes, b: Bytes)
    requires a <= b
    ensures Due(text, a) <= Due(text, b)
  {
    assert b == a + b[|a|..];
    DueExtends(text, a, b[|a|..]);
  }

  function Advance(text: Decoder, life: Life, id: string, e: Entry): Life {
    match e
    case Started(j, tools) =>
      if j != id then life else if life.Idle? then Running(None, [], [], Alive, tools) else Broken
    case Read(j, content) =>
      if j != id then life
      else if life.Running? && life.stage != Drained && life.seen <= content then life.(seen := content, stage := AfterLook(life.stage))
      else Broken
    case Unread(j) =>
      if j != id then life
      else if life.Running? && life.stage != Drained then life.(stage := AfterLook(life.stage))
      else Broken
    case Forwarded(j, t) =>
      if j != id then life
      else if life.Running? && life.sent + [t] <= Due(text, life.seen) then life.(sent := life.sent + [t])
      else Broken
    case Term(j, at) =>
      if j != id then life
      else if life.Running? && life.stage == Alive && life.term.None? then life.(term := Some(at))
      else Broken
    case Kill(j, at) =>
      if j != id then life
      else if life.Running? && life.stage == Alive && life.term.Some? && at - life.term.value > CANCEL_GRACE_S then life
      else Broken
    case Exited(j) =>
      if j != id then life
      else if life.Running? && life.stage == Alive then life.(stage := Gone)
      else Broken
    case Finished(j, _) =>
      if j != id then life
      else if life.Running? && life.stage == Drained && life.sent == Due(text, life.seen) then Idle
      else Broken
    case _ => life
  }

  function LifeOf(text: Decoder, log: seq<Entry>, id: string): Life {
    if log == [] then Idle
    else Advance(text, LifeOf(text, log[..|log| - 1], id), id, log[|log| - 1])
  }

  /** `LifeOf` under a name that is not unfolded where only its steps matter. */
  function Status(text: Decoder, log: seq<Entry>, id: string): Life {
    LifeOf(text, log, id)
  }

  /** Kinds of entry that are counted. `jobOf` names the job a received line
      asks for, when it asks for one. */
  datatype Kind = JobMessage(id: string) | Start(id: string) | Finish(id: string) | Refusal(id: string) | Sigterm(id: string)

  type Requests = Bytes -> Option<string>

  predicate Matches(jobOf: Requests, k: Kind, e: Entry) {
    match k
    case JobMessage(id) => e.Received? && jobOf(e.line) == Some(id)
    case Start(id) => IsStart(e, id)
    case Finish(id) => e.Finished? && e.job == id
    case Refusal(id) => e == Refused(id)
    case Sigterm(id) => e.Term? && e.job == id
  }

  function Tally(jobOf: Requests, log: seq<Entry>, k: Kind): nat {
    if log == [] then 0
    else Tally(jobOf, log[..|log| - 1], k) + (if Matches(jobOf, k, log[|log| - 1]) then 1 else 0)
  }

  /** The lines read from stdin, in order. */
  function ReceivedLines(log: seq<Entry>): seq<Bytes> {
    if log == [] then []
    else
      ReceivedLines(log[..|log| - 1]) +
      (if log[|log| - 1].Received? then [log[|log| - 1].line] else [])
  }

  /** Everything forwarded for one job id, over all its starts. */
  function ForwardedFor(log: seq<Entry>, id: string): seq<string> {
    if log == [] then []
    else
      ForwardedFor(log[..|log| - 1], id) +
      (if log[|log| - 1].Forwarded? && log[|log| - 1].job == id then [log[|log| - 1].text] else [])
  }

  /** The events file of `id` as it was last read. */
  function LastRead(log: seq<Entry>, id: string): Bytes {
    if log == [] then []
    else if log[|log| - 1].Read? && log[|log| - 1].job == id then log[|log| - 1].content
    else LastRead(log[..|log| - 1], id)
  }

  /** The exact answers of the protocol: a finished job or a refused request. */
  function Answers(jobOf: Requests, log: seq<Entry>, id: string): nat {
    Tally(jobOf, log, Finish(id)) + Tally(jobOf, log, Refusal(id))
  }

  /** Every request naming `id` was either started or refused, except the one
      still being handled. */
  ghost predicate Admitted(jobOf: Requests, log: seq<Entry>, id: string, owed: Option<string>) {
    id != "" ==>
      Tally(jobOf, log, JobMessage(id)) ==
      Tally(jobOf, log, Start(id)) + Tally(jobOf, log, Refusal(id)) + (if owed == Some(id) then 1 else 0)
  }

  ghost predicate AllAdmitted(jobOf: Requests, log: seq<Entry>, owed: Option<string>) {
    forall id :: Admitted(jobOf, log, id, owed)
  }

  /** A request is owed an answer when it names a job. */
  function Owed(asked: Option<string>): Option<string> {
    if asked == Some("") then None else asked
  }

  /** Entries that neither make nor settle a request. */
  predicate Quiet(e: Entry) {
    !e.Received? && !e.Started? && !e.Refused?
  }

  ghost predicate NoStartAfterEof(log: seq<Entry>) {
    log == [] ||
    (NoStartAfterEof(log[..|log| - 1]) && (log[|log| - 1].Started? ==> Eof !in log[..|log| - 1]))
  }

  /** What the server does of its own accord about jobs. */
  predicate IsBackground(e: Entry) {
    e.Read? || e.Unread? || e.Forwarded? || e.Kill? || e.Exited? || e.Finished?
  }

  /** How often the server did anything else. */
  function Loud(log: seq<Entry>): nat {
    if log == [] then 0 else Loud(log[..|log| - 1]) + if IsBackground(log[|log| - 1]) then 0 else 1
  }

  /** Only background entries were added. */
  ghost predicate Unheard(log: seq<Entry>, log': seq<Entry>) {
    log <= log' && Loud(log') == Loud(log)
  }

  lemma {:induction false} LoudGrows(log: seq<Entry>, log': seq<Entry>)
    requires log <= log'
    ensures Loud(log) <= Loud(log')
    decreases |log'|
  {
    if |log'| > |log| {
      LoudGrows(log, log'[..|log'| - 1]);
    } else {
      assert log' == log;
    }
  }

  lemma {:induction false} UnheardMeans(log: seq<Entry>, log': seq<Entry>)
    requires Unheard(log, log')
    ensures forall k :: |log| <= k < |log'| ==> IsBackground(log'[k])
    ensures ReceivedLines(log') == ReceivedLines(log) && (Eof in log' <==> Eof in log)
    decreases |log'|
  {
    if |log'| > |log| {
      var front, e := log'[..|log'| - 1], log'[|log'| - 1];
      LoudGrows(log, front);
      UnheardMeans(log, front);
      assert log' == front + [e];
    } else {
      assert log' == log;
    }
  }

  // ---- what one more entry does ----

  /** A request is owed from the line that makes it to its start or refusal. */
  lemma {:induction false} AdmittedStep(jobOf: Requests, log: seq<Entry>, e: Entry, owed: Option<string>)
    requires AllAdmitted(jobOf, log, owed)
    ensures Quiet(e) ==> AllAdmitted(jobOf, log + [e], owed)
    ensures e.Received? && owed == None ==> AllAdmitted(jobOf, log + [e], Owed(jobOf(e.line)))
    ensures (e.Started? || e.Refused?) && owed == Owed(Some(e.job)) ==> AllAdmitted(jobOf, log + [e], None)
  {
    assert (log + [e])[..|log|] == log;
    forall id
      ensures Quiet(e) ==> Admitted(jobOf, log + [e], id, owed)
      ensures e.Received? && owed == None ==> Admitted(jobOf, log + [e], id, Owed(jobOf(e.line)))
      ensures (e.Started? || e.Refused?) && owed == Owed(Some(e.job)) ==> Admitted(jobOf, log + [e], id, None)
    {
      assert Admitted(jobOf, log, id, owed);
    }
  }

  /** Quiet entries leave every request where it was. */
  lemma {:induction false} QuietKeeps(jobOf: Requests, log: seq<Entry>, log': seq<Entry>, owed: Option<string>)
    requires AllAdmitted(jobOf, log, owed) && NoStartAfterEof(log)
    requires log <= log' && forall k :: |log| <= k < |log'| ==> Quiet(log'[k])
    ensures AllAdmitted(jobOf, log', owed) && NoStartAfterEof(log')
    decreases |log'|
  {
    if |log'| > |log| {
      var front, e := log'[..|log'| - 1], log'[|log'| - 1];
      QuietKeeps(jobOf, log, front, owed);
      AdmittedStep(jobOf, front, e, owed);
      assert log' == front + [e];
    } else {
      assert log' == log;
    }
  }

  lemma {:induction false} PrefixLives(text: Decoder, log: seq<Entry>, id: string, n: nat)
    requires n <= |log| && !LifeOf(text, log, id).Broken?
    ensures !LifeOf(text, log[..n], id).Broken?
    decreases |log|
  {
    if n == |log| {
      assert log[..n] == log;
    } else {
      var front := log[..|log| - 1];
      PrefixLives(text, front, id, n);
      assert front[..n] == log[..n];
    }
  }

  lemma {:induction false} LifeStep(text: Decoder, log: seq<Entry>, id: string, n: nat)
    requires n < |log|
    ensures LifeOf(text, log[..n + 1], id) == Advance(text, LifeOf(text, log[..n], id), id, log[n])
  {
    assert log[..n + 1][..n] == log[..n];
  }

  // ---- the promises ----

  /** A start is answered by exactly one finish once the job is gone, and is
      sent at most one SIGTERM. */
  lemma {:induction false} StartsAreFinished(text: Decoder, jobOf: Requests, log: seq<Entry>, id: string)
    requires !LifeOf(text, log, id).Broken?
    ensures Tally(jobOf, log, Start(id)) ==
            Tally(jobOf, log, Finish(id)) + (if LifeOf(text, log, id).Running? then 1 else 0)
    ensures Tally(jobOf, log, Sigterm(id)) +
            (if LifeOf(text, log, id).Running? && LifeOf(text, log, id).term.None? then 1 else 0)
            <= Tally(jobOf, log, Start(id))
    decreases |log|
  {
    if log != [] {
      PrefixLives(text, log, id, |log| - 1);
      StartsAreFinished(text, jobOf, log[..|log| - 1], id);
    }
  }

  /** Requests handled so far are answers given so far, plus one when the job
      is still running. */
  lemma {:induction false} AnsweredExactlyOnce(text: Decoder, jobOf: Requests, log: seq<Entry>, id: string)
    requires id != ""
    requires !LifeOf(text, log, id).Broken?
    requires Admitted(jobOf, log, id, None)
    ensures Tally(jobOf, log, JobMessage(id)) ==
            Answers(jobOf, log, id) + (if LifeOf(text, log, id).Running? then 1 else 0)
  {
    StartsAreFinished(text, jobOf, log, id);
  }

  /** What has been forwarded against what has been read, for an id started at
      most once. */
  ghost predicate Mirrors(text: Decoder, life: Life, sent: seq<string>, read: Bytes, starts: nat) {
    match life
    case Idle => sent == Due(text, read) && (starts == 0 ==> sent == [] && read == [])
    case Running(_, seen, forwarded, _, _) => starts == 1 && sent == forwarded && read == seen && sent <= Due(text, read)
    case Broken => false
  }

  lemma {:induction false} MirrorsStep(text: Decoder, life: Life, sent: seq<string>, read: Bytes, starts: nat, id: string, e: Entry)
    requires Mirrors(text, life, sent, read, starts)
    requires !Advance(text, life, id, e).Broken? && (IsStart(e, id) ==> starts == 0)
    ensures Mirrors(text, Advance(text, life, id, e),
                    sent + (if e.Forwarded? && e.job == id then [e.text] else []),
                    if e.Read? && e.job == id then e.content else read,
                    starts + if IsStart(e, id) then 1 else 0)
  {
    if e.Read? && e.job == id {
      DueGrows(text, life.seen, e.content);
    }
  }

  /** While an id has been started at most once, what was forwarded for it is
      what its events file held: a prefix of the complete non-blank lines of
      everything read, in order, and all of them once the job is answered. */
  lemma {:induction false} ForwardsTheFile(text: Decoder, jobOf: Requests, log: seq<Entry>, id: string)
    requires !LifeOf(text, log, id).Broken?
    requires Tally(jobOf, log, Start(id)) <= 1
    ensures Mirrors(text, LifeOf(text, log, id), ForwardedFor(log, id), LastRead(log, id), Tally(jobOf, log, Start(id)))
    ensures ForwardedFor(log, id) <= Due(text, LastRead(log, id))
    ensures LifeOf(text, log, id).Idle? ==> ForwardedFor(log, id) == Due(text, LastRead(log, id))
    decreases |log|
  {
    if log != [] {
      var front, e := log[..|log| - 1], log[|log| - 1];
      PrefixLives(text, log, id, |log| - 1);
      ForwardsTheFile(text, jobOf, front, id);
      MirrorsStep(text, LifeOf(text, front, id), ForwardedFor(front, id), LastRead(front, id),
                  Tally(jobOf, front, Start(id)), id, e);
    }
  }

  // ---- life by life ----

  /** What was last read of the job's file since it was last started. */
  function LifeRead(log: seq<Entry>, id: string): Bytes {
    if log == [] || IsStart(log[|log| - 1], id) then []
    else if log[|log| - 1].Read? && log[|log| - 1].job == id then log[|log| - 1].content
    else LifeRead(log[..|log| - 1], id)
  }

  /** For every life of the id that was answered, in order, the lines due of what
      that life last read. */
  function Past(text: Decoder, log: seq<Entry>, id: string): seq<string> {
    if log == [] then []
    else
      var front, e := log[..|log| - 1], log[|log| - 1];
      Past(text, front, id) + if e.Finished? && e.job == id then Due(text, LifeRead(front, id)) else []
  }

  /** `Past` under a name that is not unfolded where only its steps matter. */
  function Earlier(text: Decoder, log: seq<Entry>, id: string): seq<string> {
    Past(text, log, id)
  }

  lemma {:induction false} EarlierStep(text: Decoder, log: seq<Entry>, e: Entry, id: string)
    ensures Earlier(text, log + [e], id) ==
      Earlier(text, log, id) + if e.Finished? && e.job == id then Due(text, LifeRead(log, id)) else []
  {
    assert (log + [e])[..|log|] == log;
  }

  /** What has been forwarded against the lives answered and the one running. */
  ghost predicate ByLives(text: Decoder, life: Life, forwarded: seq<string>, past: seq<string>, read: Bytes) {
    match life
    case Idle => forwarded == past
    case Running(_, seen, sent, _, _) => seen == read && sent <= Due(text, read) && forwarded == past + sent
    case Broken => false
  }

  lemma {:induction false} ByLivesStep(text: Decoder, life: Life, forwarded: seq<string>, past: seq<string>, read: Bytes, id: string, e: Entry)
    requires ByLives(text, life, forwarded, past, read) && !Advance(text, life, id, e).Broken?
    ensures ByLives(text, Advance(text, life, id, e),
                    forwarded + (if e.Forwarded? && e.job == id then [e.text] else []),
                    past + (if e.Finished? && e.job == id then Due(text, read) else []),
                    if IsStart(e, id) then [] else if e.Read? && e.job == id then e.content else read)
  {
    if e.Read? && e.job == id {
      DueGrows(text, read, e.content);
    }
  }

  /** A job that is running and has not been started again is in the same life. */
  lemma {:induction false} SameLifeSameEarlier(text: Decoder, log: seq<Entry>, log': seq<Entry>, id: string)
    requires Unheard(log, log') && Status(text, log', id).Running?
    ensures Status(text, log, id).Running? && Earlier(text, log', id) == Earlier(text, log, id)
    decreases |log'|
  {
    if |log'| > |log| {
      var front, e := log'[..|log'| - 1], log'[|log'| - 1];
      LoudGrows(log, front);
      assert log' == front + [e] && IsBackground(e);
      EarlierStep(text, front, e, id);
      SameLifeSameEarlier(text, log, front, id);
    } else {
      assert log' == log;
    }
  }

  /** However often an id is started, what was forwarded for it is, life by life,
      what was due of the file as that life last read it; for the life still
      running, the part of it sent so far. */
  lemma {:induction false} ForwardsLifeByLife(text: Decoder, log: seq<Entry>, id: string)
    requires !LifeOf(text, log, id).Broken?
    ensures ByLives(text, LifeOf(text, log, id), ForwardedFor(log, id), Past(text, log, id), LifeRead(log, id))
    decreases |log|
  {
    if log != [] {
      var front, e := log[..|log| - 1], log[|log| - 1];
      PrefixLives(text, log, id, |log| - 1);
      ForwardsLifeByLife(text, front, id);
      ByLivesStep(text, LifeOf(text, front, id), ForwardedFor(front, id), Past(text, front, id), LifeRead(front, id), id, e);
    }
  }

  /** An answer closes a life: what that life read is due in full. */
  lemma {:induction false} AnswerAdds(text: Decoder, log: seq<Entry>, id: string, outcome: Outcome)
    requires Status(text, log, id).Running?
    ensures Earlier(text, log + [Finished(id, outcome)], id) == Earlier(text, log, id) + Due(text, Status(text, log, id).seen)
  {
    EarlierStep(text, log, Finished(id, outcome), id);
    ForwardsLifeByLife(text, log, id);
  }

  /** Entries that only a running job can produce. */
  predicate OfRunning(e: Entry, id: string) {
    (e.Read? || e.Unread? || e.Forwarded? || e.Term? || e.Kill? || e.Exited? || e.Finished?) && e.job == id
  }

  lemma {:induction false} StaysIdle(text: Decoder, log: seq<Entry>, id: string, i: nat, j: nat)
    requires i <= j <= |log| && !LifeOf(text, log, id).Broken?
    requires LifeOf(text, log[..i], id).Idle?
    requires forall k :: i <= k < j ==> !IsStart(log[k], id)
    ensures LifeOf(text, log[..j], id).Idle?
    decreases j - i
  {
    if i < j {
      StaysIdle(text, log, id, i, j - 1);
      LifeStep(text, log, id, j - 1);
      PrefixLives(text, log, id, j);
    }
  }

  lemma {:induction false} FinishIdles(text: Decoder, log: seq<Entry>, id: string, i: nat)
    requires i < |log| && !LifeOf(text, log, id).Broken? && log[i].Finished? && log[i].job == id
    ensures LifeOf(text, log[..i + 1], id).Idle?
  {
    LifeStep(text, log, id, i);
    PrefixLives(text, log, id, i + 1);
  }

  lemma {:induction false} IdleProducesNothing(text: Decoder, log: seq<Entry>, id: string, j: nat)
    requires j < |log| && !LifeOf(text, log, id).Broken? && LifeOf(text, log[..j], id).Idle?
    ensures !OfRunning(log[j], id)
  {
    LifeStep(text, log, id, j);
    PrefixLives(text, log, id, j + 1);
  }

  /** Nothing of a job follows its final answer unless the id is started again:
      every forwarded line, and every signal, precedes the answer. */
  lemma {:induction false} NothingFollowsTheAnswer(text: Decoder, log: seq<Entry>, id: string, i: nat, j: nat)
    requires i < j < |log| && !LifeOf(text, log, id).Broken?
    requires log[i].Finished? && log[i].job == id && OfRunning(log[j], id)
    ensures exists k :: i < k < j && IsStart(log[k], id)
  {
    FinishIdles(text, log, id, i);
    if forall k :: i < k < j ==> !IsStart(log[k], id) {
      StaysIdle(text, log, id, i + 1, j);
      IdleProducesNothing(text, log, id, j);
    }
  }

  /** Entry `i` is the SIGTERM, at time `at`, of the job still running after
      `n` entries. */
  ghost predicate TermedAt(log: seq<Entry>, id: string, n: nat, at: real, i: nat) {
    && i < n <= |log|
    && log[i] == Term(id, at)
    && (forall k :: i < k < n ==> !IsStart(log[k], id) && !(log[k].Finished? && log[k].job == id))
  }

  lemma {:induction false} StillTermed(text: Decoder, life: Life, id: string, e: Entry)
    requires Advance(text, life, id, e).Running? && Advance(text, life, id, e).term.Some?
    ensures !IsStart(e, id) && !(e.Finished? && e.job == id)
    ensures e.Term? && e.job == id ==> Advance(text, life, id, e).term.value == e.at
    ensures !(e.Term? && e.job == id) ==> life.Running? && life.term == Advance(text, life, id, e).term
  {
  }

  lemma {:induction false} TermIsLogged(text: Decoder, log: seq<Entry>, id: string, n: nat) returns (i: nat)
    requires n <= |log| && !LifeOf(text, log, id).Broken?
    requires LifeOf(text, log[..n], id).Running? && LifeOf(text, log[..n], id).term.Some?
    ensures TermedAt(log, id, n, LifeOf(text, log[..n], id).term.value, i)
    decreases n
  {
    LifeStep(text, log, id, n - 1);
    var before := LifeOf(text, log[..n - 1], id);
    StillTermed(text, before, id, log[n - 1]);
    if log[n - 1].Term? && log[n - 1].job == id {
      i := n - 1;
    } else {
      i := TermIsLogged(text, log, id, n - 1);
    }
  }

  /** SIGKILL only ever follows the same job's SIGTERM by more than the grace. */
  lemma {:induction false} KillFollowsTheGrace(text: Decoder, log: seq<Entry>, id: string, j: nat) returns (i: nat, at: real)
    requires j < |log| && !LifeOf(text, log, id).Broken?
    requires log[j].Kill? && log[j].job == id
    ensures TermedAt(log, id, j, at, i) && log[j].at - at > CANCEL_GRACE_S
  {
    LifeStep(text, log, id, j);
    PrefixLives(text, log, id, j + 1);
    i := TermIsLogged(text, log, id, j);
    at := LifeOf(text, log[..j], id).term.value;
  }

  /** A look at the job's events file, whether or not it could be read. */
  predicate IsLook(e: Entry, id: string) {
    (e.Read? || e.Unread?) && e.job == id
  }

  /** Entries that start, signal or answer the job. */
  predicate Disturbs(e: Entry, id: string) {
    (e.Started? || e.Term? || e.Kill? || e.Finished?) && e.job == id
  }

  lemma {:induction false} StillGone(text: Decoder, life: Life, id: string, e: Entry)
    requires Advance(text, life, id, e).Running? && Advance(text, life, id, e).stage != Alive
    ensures e != Exited(id) && !(IsLook(e, id) && Advance(text, life, id, e).stage == Drained) ==>
      !Disturbs(e, id) && life.Running? && life.stage == Advance(text, life, id, e).stage
    ensures e == Exited(id) ==> Advance(text, life, id, e).stage == Gone
    ensures IsLook(e, id) ==> !Disturbs(e, id) && life.Running? && life.stage == Gone && Advance(text, life, id, e).stage == Drained
  {
  }

  /** Entry `i` is the exit of the job still unanswered after `n` entries. */
  ghost predicate HandedOver(log: seq<Entry>, id: string, n: nat, i: nat) {
    i < n <= |log| && log[i] == Exited(id) && forall m :: i < m < n ==> !Disturbs(log[m], id)
  }

  lemma {:induction false} HandedOverStill(log: seq<Entry>, id: string, n: nat, i: nat)
    requires n < |log| && HandedOver(log, id, n, i) && !Disturbs(log[n], id)
    ensures HandedOver(log, id, n + 1, i)
  {
  }

  lemma {:induction false} GoneMeans(text: Decoder, log: seq<Entry>, id: string, n: nat) returns (i: nat, k: nat)
    requires n <= |log| && !LifeOf(text, log, id).Broken?
    requires Status(text, log[..n], id).Running? && Status(text, log[..n], id).stage != Alive
    ensures HandedOver(log, id, n, i)
    ensures Status(text, log[..n], id).stage == Drained ==> i < k < n && IsLook(log[k], id)
    decreases n
  {
    var before, e := Status(text, log[..n - 1], id), log[n - 1];
    LifeStep(text, log, id, n - 1);
    StillGone(text, before, id, e);
    if e == Exited(id) {
      i, k := n - 1, 0;
    } else {
      i, k := GoneMeans(text, log, id, n - 1);
      HandedOverStill(log, id, n - 1, i);
      k := if IsLook(e, id) then n - 1 else k;
    }
  }

  /** Whatever the child wrote in its last moments goes first: between its exit
      and its answer its file is looked at again, and no signal is sent to it. */
  lemma {:induction false} AnswerFollowsALastLook(text: Decoder, log: seq<Entry>, id: string, j: nat) returns (i: nat, k: nat)
    requires j < |log| && !LifeOf(text, log, id).Broken?
    requires log[j].Finished? && log[j].job == id
    ensures HandedOver(log, id, j, i) && i < k < j && IsLook(log[k], id)
  {
    LifeStep(text, log, id, j);
    PrefixLives(text, log, id, j + 1);
    i, k := GoneMeans(text, log, id, j);
  }

  /** Entry `k` is the start of the job still running after `n` entries. */
  ghost predicate StartedAt(log: seq<Entry>, id: string, n: nat, tools: bool, k: nat) {
    k < n <= |log| && log[k] == Started(id, tools) && forall m :: k < m < n ==> !IsStart(log[m], id)
  }

  lemma {:induction false} SameTools(text: Decoder, life: Life, id: string, e: Entry)
    requires Advance(text, life, id, e).Running?
    ensures IsStart(e, id) ==> e.tools == Advance(text, life, id, e).tools
    ensures !IsStart(e, id) ==> life.Running? && life.tools == Advance(text, life, id, e).tools
  {
  }

  /** A running job's tools flag is that of its last start. */
  lemma {:induction false} ToolsFromStart(text: Decoder, log: seq<Entry>, id: string, n: nat) returns (k: nat)
    requires n <= |log| && !LifeOf(text, log, id).Broken? && LifeOf(text, log[..n], id).Running?
    ensures StartedAt(log, id, n, LifeOf(text, log[..n], id).tools, k)
    decreases n
  {
    LifeStep(text, log, id, n - 1);
    SameTools(text, LifeOf(text, log[..n - 1], id), id, log[n - 1]);
    if IsStart(log[n - 1], id) {
      k := n - 1;
    } else {
      k := ToolsFromStart(text, log, id, n - 1);
    }
  }
}

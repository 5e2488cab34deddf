/** What the resident worker owes its host, as relations between histories: what
    a line is answered by, what a turn of the loop adds, what a whole run is. */
module ServerSpec {
  import opened Lines
  import opened Wrappers
  import opened ServerLog

  datatype JobRequest = JobRequest(jobId: string, hostTools: bool)

  /** A line of stdin once decoded: what the dispatch looks at. A job message
      carries the id its job object names, if any, and the validated request,
      if it validates. */
  datatype Message =
    | Malformed
    | Env(exports: Option<map<string, string>>)
    | Job(named: Option<string>, request: Option<JobRequest>)
    | Tool(jobId: string, valid: bool)
    | Cancel(jobId: string)

  /** JSON decoding and validation of a trimmed, non-blank line. */
  type Reader = string -> Message

  /** What one turn of the loop finds on stdin. */
  datatype Wake = Nothing | Blocked | Chunk(data: Bytes) | EndOfInput

  /** The id a line's job request names. */
  function AskedJob(text: Decoder, read: Reader, line: Bytes): Option<string> {
    if text(line) != "" && read(text(line)).Job? then read(text(line)).named else None
  }

  /** A request that validates names the job it is for. */
  ghost predicate Consistent(read: Reader) {
    forall t :: read(t).Job? && read(t).request.Some? ==> read(t).named == Some(read(t).request.value.jobId)
  }

  /** The bytes that reached the server, up to the end of input. */
  function Fed(wakes: seq<Wake>): Bytes {
    if wakes == [] || wakes[0].EndOfInput? then []
    else (if wakes[0].Chunk? then wakes[0].data else []) + Fed(wakes[1..])
  }

  lemma {:induction false} FedSnoc(wakes: seq<Wake>, w: Wake)
    requires EndOfInput !in wakes
    ensures Fed(wakes + [w]) == Fed(wakes) + (if w.Chunk? then w.data else [])
  {
    if wakes == [] {
      assert [w][1..] == [];
    } else {
      assert (wakes + [w])[1..] == wakes[1..] + [w];
      FedSnoc(wakes[1..], w);
    }
  }

  lemma {:induction false} FedStops(wakes: seq<Wake>, w: Wake)
    requires EndOfInput in wakes
    ensures Fed(wakes + [w]) == Fed(wakes)
  {
    assert (wakes + [w])[0] == wakes[0];
    if !wakes[0].EndOfInput? {
      assert (wakes + [w])[1..] == wakes[1..] + [w];
      FedStops(wakes[1..], w);
    }
  }

  lemma {:induction false} FedStep(wakes: seq<Wake>, n: nat)
    requires n < |wakes|
    ensures EndOfInput in wakes[..n + 1] <==> EndOfInput in wakes[..n] || wakes[n].EndOfInput?
    ensures Fed(wakes[..n + 1]) ==
      if wakes[n].Chunk? && EndOfInput !in wakes[..n] then Fed(wakes[..n]) + wakes[n].data else Fed(wakes[..n])
  {
    assert wakes[..n + 1] == wakes[..n] + [wakes[n]];
    if EndOfInput in wakes[..n] {
      FedStops(wakes[..n], wakes[n]);
    } else {
      FedSnoc(wakes[..n], wakes[n]);
    }
  }

  /** What a line exports, if it does. */
  function ExportsOf(text: Decoder, read: Reader, line: Bytes): Option<map<string, string>> {
    if text(line) != "" && read(text(line)).Env? then read(text(line)).exports else None
  }

  /** The environment after the lines read: every export, later ones winning. */
  function EnvOf(text: Decoder, read: Reader, lines: seq<Bytes>): map<string, string> {
    if lines == [] then map[]
    else
      var front, more := EnvOf(text, read, lines[..|lines| - 1]), ExportsOf(text, read, lines[|lines| - 1]);
      if more.Some? then front + more.value else front
  }

  lemma {:induction false} EnvSnoc(text: Decoder, read: Reader, lines: seq<Bytes>, line: Bytes)
    ensures EnvOf(text, read, lines + [line]) ==
      var more := ExportsOf(text, read, line);
      if more.Some? then EnvOf(text, read, lines) + more.value else EnvOf(text, read, lines)
  {
    assert (lines + [line])[..|lines|] == lines;
  }

  // ---- what the system lets happen ----

  /** What one turn of the loop meets: whether the system lets each line's action
      be done; what each events file holds, when it can be read; which children
      have exited, what their files hold then, and what they left behind. */
  datatype Conditions = Conditions(
    can: nat -> bool,
    found: string -> Option<Bytes>,
    exits: set<string>,
    last: string -> Option<Bytes>,
    left: string -> Outcome)

  type Files = map<string, Bytes>

  function File(files: Files, id: string): Bytes {
    if id in files then files[id] else []
  }

  /** Events files only grow. */
  function Grown(file: Bytes, found: Option<Bytes>): Bytes {
    if found.Some? && file <= found.value then found.value else file
  }

  /** A look at a file, as it is logged. */
  function Look(id: string, file: Bytes, found: Option<Bytes>): Entry {
    if found.None? then Unread(id) else Read(id, Grown(file, found))
  }

  // ---- lines ----

  /** What a message adds to the history: `r` is its answer, if it gets one. */
  ghost predicate Reacts(text: Decoder, m: Message, can: bool, log: seq<Entry>, r: seq<Entry>) {
    match m
    case Malformed => r == [Complaint]
    case Env(None) => r == [Complaint]
    case Env(Some(_)) => r == []
    case Tool(id, valid) =>
      var life := Status(text, log, id);
      r == [if life.Running? && life.tools && valid && can then ToolFile(id) else Complaint]
    case Cancel(id) =>
      var life := Status(text, log, id);
      if !life.Running? then r == [Complaint]
      else if life.term.Some? then r == []
      else |r| == 1 && r[0].Term? && r[0].job == id
    case Job(named, request) =>
      r == [if request.Some? && !Status(text, log, request.value.jobId).Running? && can
              then Started(request.value.jobId, request.value.hostTools)
            else if named.Some? && named.value != "" then Refused(named.value) else Complaint]
  }

  /** What was added is what the message is answered by. */
  ghost predicate Reacted(text: Decoder, m: Message, can: bool, log: seq<Entry>, log': seq<Entry>) {
    log <= log' && Reacts(text, m, can, log, log'[|log|..])
  }

  lemma {:induction false} Adds(text: Decoder, m: Message, can: bool, log: seq<Entry>, log': seq<Entry>)
    requires log' == log || (|log'| == |log| + 1 && log <= log')
    ensures log' == log && Reacts(text, m, can, log, []) ==> Reacted(text, m, can, log, log')
    ensures log' != log && Reacts(text, m, can, log, [log'[|log|]]) ==> Reacted(text, m, can, log, log')
  {
    if log' == log {
      assert log'[|log|..] == [];
    } else {
      assert log'[|log|..] == [log'[|log|]];
    }
  }

  ghost predicate HandledOne(text: Decoder, read: Reader, log: seq<Entry>, line: Bytes, can: bool, log': seq<Entry>) {
    exists r :: log' == log + [Received(line)] + r && Answer(text, read, log, line, can, r)
  }

  ghost predicate Answer(text: Decoder, read: Reader, log: seq<Entry>, line: Bytes, can: bool, r: seq<Entry>) {
    if text(line) == "" then r == [] else Reacts(text, read(text(line)), can, log + [Received(line)], r)
  }

  lemma {:induction false} AnswersIt(text: Decoder, read: Reader, log: seq<Entry>, line: Bytes, can: bool, asked: seq<Entry>, log': seq<Entry>)
    requires asked == log + [Received(line)]
    requires if text(line) == "" then log' == asked else Reacted(text, read(text(line)), can, asked, log')
    ensures HandledOne(text, read, log, line, can, log')
  {
    var r := log'[|asked|..];
    assert log' == log + [Received(line)] + r && Answer(text, read, log, line, can, r);
  }

  /** The lines handled one after another, and nothing else done. */
  ghost predicate HandledAll(text: Decoder, read: Reader, log: seq<Entry>, lines: seq<Bytes>, can: nat -> bool, log': seq<Entry>)
    decreases |lines|
  {
    if lines == [] then log' == log
    else
      var n := |lines| - 1;
      var front, last, able := lines[..n], lines[n], can(n);
      exists mid :: HandledAll(text, read, log, front, can, mid) && HandledOne(text, read, mid, last, able, log')
  }

  lemma {:induction false} HandledNext(text: Decoder, read: Reader, log: seq<Entry>, lines: seq<Bytes>, can: nat -> bool,
                                       mid: seq<Entry>, line: Bytes, log': seq<Entry>)
    requires HandledAll(text, read, log, lines, can, mid) && HandledOne(text, read, mid, line, can(|lines|), log')
    ensures HandledAll(text, read, log, lines + [line], can, log')
  {
    assert (lines + [line])[..|lines|] == lines;
  }

  // ---- turns ----

  /** Only what the server does of its own accord was added. */
  ghost predicate Background(log: seq<Entry>, log': seq<Entry>) {
    log <= log' && forall k :: |log| <= k < |log'| ==> IsBackground(log'[k])
  }

  ghost predicate Has(log: seq<Entry>, from: nat, e: Entry) {
    exists k :: from <= k < |log| && log[k] == e
  }

  lemma {:induction false} HasStill(log: seq<Entry>, log': seq<Entry>, from: nat, e: Entry)
    requires log <= log' && Has(log, from, e)
    ensures Has(log', from, e)
  {
    var k :| from <= k < |log| && log[k] == e;
    assert log'[k] == e;
  }

  lemma {:induction false} HasEarlier(log: seq<Entry>, from: nat, to: nat, e: Entry)
    requires from <= to && Has(log, to, e)
    ensures Has(log, from, e)
  {
  }

  /** An answer, after a look. */
  ghost predicate Concluded(log: seq<Entry>, from: nat, look: Entry, finish: Entry) {
    exists i, j :: from <= i < j < |log| && log[i] == look && log[j] == finish
  }

  lemma {:induction false} ConcludedStill(log: seq<Entry>, log': seq<Entry>, from: nat, to: nat, look: Entry, finish: Entry)
    requires log <= log' && from <= to && Concluded(log, to, look, finish)
    ensures Concluded(log', from, look, finish)
  {
    var i, j :| to <= i < j < |log| && log[i] == look && log[j] == finish;
    assert log'[i] == look && log'[j] == finish;
  }

  /** What arrives on stdin: lines are handled; the end of input is noted and every
      job is then told to stop. */
  ghost predicate TookInput(text: Decoder, read: Reader, log: seq<Entry>, wake: Wake, can: nat -> bool, buffer: Bytes, log': seq<Entry>) {
    match wake
    case Chunk(data) => HandledAll(text, read, log, Complete(buffer + data), can, log')
    case EndOfInput =>
      && log + [Eof] <= log'
      && (forall k :: |log| < k < |log'| ==> log'[k].Term?)
      && (forall id :: Status(text, log', id).Running? ==> Status(text, log', id).term.Some?)
    case _ => log' == log
  }

  /** What a turn owes one job. */
  ghost predicate LookedAfter(text: Decoder, files: Files, log: seq<Entry>, cond: Conditions, files': Files, log': seq<Entry>, id: string) {
    if !Status(text, log, id).Running? then File(files', id) == File(files, id)
    else
      var once := Grown(File(files, id), cond.found(id));
      && Has(log', |log|, Look(id, File(files, id), cond.found(id)))
      && (if id in cond.exits then
            && Status(text, log', id).Idle?
            && Concluded(log', |log|, Look(id, once, cond.last(id)), Finished(id, cond.left(id)))
            && File(files', id) == Grown(once, cond.last(id))
          else Status(text, log', id).Running? && File(files', id) == once)
  }

  /** Every running job's file is looked at; those that exited are looked at again
      and answered; the others run on. */
  ghost predicate TendedAll(text: Decoder, files: Files, log: seq<Entry>, cond: Conditions, files': Files, log': seq<Entry>) {
    Background(log, log') && forall id :: LookedAfter(text, files, log, cond, files', log', id)
  }

  ghost predicate Turned(text: Decoder, read: Reader, files: Files, log: seq<Entry>, wake: Wake, cond: Conditions,
                         closing: bool, buffer: Bytes, files': Files, log': seq<Entry>) {
    exists mid ::
      && (if closing then mid == log else TookInput(text, read, log, wake, cond.can, buffer, mid))
      && TendedAll(text, files, mid, cond, files', log')
  }

  // ---- whole runs ----

  /** What `n` turns come to, from the greeting on. */
  ghost predicate Ran(text: Decoder, read: Reader, start: Files, wakes: seq<Wake>, conds: seq<Conditions>, n: nat, files: Files, log: seq<Entry>)
    requires n <= |wakes| && n <= |conds|
    decreases n
  {
    if n == 0 then log == [Ready] && files == start
    else
      var m := n - 1;
      var wake, cond, closing, buffer := wakes[m], conds[m], EndOfInput in wakes[..m], Rest(Fed(wakes[..m]));
      exists before: Files, log0: seq<Entry> ::
        Ran(text, read, start, wakes, conds, m, before, log0) && Turned(text, read, before, log0, wake, cond, closing, buffer, files, log)
  }

  // ---- starts are as asked ----

  /** Every start stands right after the line that asked for it, and has the tools
      flag of that request. */
  ghost predicate AsAsked(text: Decoder, read: Reader, log: seq<Entry>) {
    forall k :: 0 <= k < |log| && log[k].Started? ==> AskedAt(text, read, log, k)
  }

  ghost predicate AskedAt(text: Decoder, read: Reader, log: seq<Entry>, k: nat)
    requires k < |log| && log[k].Started?
  {
    && k > 0 && log[k - 1].Received? && text(log[k - 1].line) != ""
    && var m := read(text(log[k - 1].line)); m.Job? && m.request == Some(JobRequest(log[k].job, log[k].tools))
  }

  lemma {:induction false} HandledAsAsked(text: Decoder, read: Reader, log: seq<Entry>, line: Bytes, can: bool, log': seq<Entry>)
    requires AsAsked(text, read, log) && HandledOne(text, read, log, line, can, log')
    ensures AsAsked(text, read, log')
  {
    var r: seq<Entry> :| log' == log + [Received(line)] + r && Answer(text, read, log, line, can, r);
    var asked := log + [Received(line)];
    if r != [] && r[0].Started? {
      assert log' == asked + [r[0]];
      forall k | 0 <= k < |log'| && log'[k].Started?
        ensures AskedAt(text, read, log', k)
      {
        if k < |asked| {
          assert log'[k] == asked[k];
          assert AskedAt(text, read, asked, k);
          assert log'[k - 1] == asked[k - 1];
        } else {
          assert log'[k - 1] == Received(line);
        }
      }
    }
  }

  lemma {:induction false} AllHandledAsAsked(text: Decoder, read: Reader, log: seq<Entry>, lines: seq<Bytes>, can: nat -> bool, log': seq<Entry>)
    requires AsAsked(text, read, log) && HandledAll(text, read, log, lines, can, log')
    ensures AsAsked(text, read, log')
    decreases |lines|
  {
    if lines != [] {
      var mid :| HandledAll(text, read, log, lines[..|lines| - 1], can, mid)
        && HandledOne(text, read, mid, lines[|lines| - 1], can(|lines| - 1), log');
      AllHandledAsAsked(text, read, log, lines[..|lines| - 1], can, mid);
      HandledAsAsked(text, read, mid, lines[|lines| - 1], can(|lines| - 1), log');
    }
  }

  lemma {:induction false} TurnedAsAsked(text: Decoder, read: Reader, files: Files, log: seq<Entry>, wake: Wake, cond: Conditions,
                                         closing: bool, buffer: Bytes, files': Files, log': seq<Entry>)
    requires AsAsked(text, read, log) && Turned(text, read, files, log, wake, cond, closing, buffer, files', log')
    ensures AsAsked(text, read, log')
  {
    var mid :|
      && (if closing then mid == log else TookInput(text, read, log, wake, cond.can, buffer, mid))
      && TendedAll(text, files, mid, cond, files', log');
    if !closing {
      match wake
      case Chunk(data) => AllHandledAsAsked(text, read, log, Complete(buffer + data), cond.can, mid);
      case EndOfInput =>
        assert log <= mid && mid[|log|] == (log + [Eof])[|log|];
      case _ =>
    }
  }

  /** Over every run, a child is started only by a request, for the job it names and
      with the tools it asks for. */
  lemma {:induction false} RunsAsAsked(text: Decoder, read: Reader, start: Files, wakes: seq<Wake>, conds: seq<Conditions>, n: nat, files: Files, log: seq<Entry>)
    requires n <= |wakes| && n <= |conds| && Ran(text, read, start, wakes, conds, n, files, log)
    ensures AsAsked(text, read, log)
    decreases n
  {
    if n > 0 {
      var before: Files, log0: seq<Entry> :|
        && Ran(text, read, start, wakes, conds, n - 1, before, log0)
        && Turned(text, read, before, log0, wakes[n - 1], conds[n - 1],
                  EndOfInput in wakes[..n - 1], Rest(Fed(wakes[..n - 1])), files, log);
      RunsAsAsked(text, read, start, wakes, conds, n - 1, before, log0);
      TurnedAsAsked(text, read, before, log0, wakes[n - 1], conds[n - 1],
                    EndOfInput in wakes[..n - 1], Rest(Fed(wakes[..n - 1])), files, log);
    }
  }

  /** The tools flag by which a tool response is judged is the one asked for when
      the job now running was started. */
  lemma {:induction false} ToolsAsAsked(text: Decoder, read: Reader, log: seq<Entry>, id: string) returns (k: nat)
    requires AsAsked(text, read, log) && LifeOf(text, log, id).Running?
    ensures k < |log| && log[k].Started? && AskedAt(text, read, log, k) && StartedAt(log, id, |log|, LifeOf(text, log, id).tools, k)
  {
    assert log[..|log|] == log;
    k := ToolsFromStart(text, log, id, |log|);
  }
}

/** The resident worker: jobs in on stdin, their events and answers out on
    stdout, one forked child per job. What the operating system decides comes in
    as arguments: which bytes arrive, whether a call fails, what a child has
    appended to its file, whether it has exited; only the clock is read freely. */
module ResidentServer {
  import opened Lines
  import opened Wrappers
  import opened ServerLog
  import opened ServerSpec

  datatype Child = Child(hasTools: bool, offset: nat, partial: Bytes, cancelledAt: Option<real>)

  /** A row of the child table against what was logged about its job. Between
      the server's steps every running child is alive. */
  ghost predicate Agrees(text: Decoder, life: Life, row: Option<Child>, file: Bytes) {
    (life.Idle? && row.None?) || AgreesIn(text, life, row, file, Alive)
  }

  ghost predicate AgreesIn(text: Decoder, life: Life, row: Option<Child>, file: Bytes, stage: Stage) {
    && life.Running? && row.Some? && life.stage == stage
    && row.value.hasTools == life.tools
    && row.value.cancelledAt == life.term
    && row.value.offset == |life.seen|
    && row.value.partial == Rest(life.seen)
    && life.seen <= file
    && life.sent == Due(text, life.seen)
  }

  type Table = map<string, Child>

  function Row(children: Table, id: string): Option<Child> {
    if id in children then Some(children[id]) else None
  }

  /** The whole child table agrees with the history; `except` is the job in the
      middle of a step. */
  ghost predicate Tracked(text: Decoder, log: seq<Entry>, children: Table, files: Files, except: Option<string>) {
    forall id :: except != Some(id) ==> Agrees(text, Status(text, log, id), Row(children, id), File(files, id))
  }

  /** An entry that says nothing about jobs other than `id`. */
  predicate About(e: Entry, id: string) {
    match e
    case Started(j, _) => j == id
    case Read(j, _) => j == id
    case Unread(j) => j == id
    case Exited(j) => j == id
    case Forwarded(j, _) => j == id
    case Term(j, _) => j == id
    case Kill(j, _) => j == id
    case Finished(j, _) => j == id
    case _ => true
  }

  /** One entry about `id` leaves every other job as it was. */
  lemma {:induction false} OthersKeep(text: Decoder, log: seq<Entry>, children: Table, files: Files, id: string, e: Entry,
                                      children': Table, files': Files)
    requires Tracked(text, log, children, files, None) || Tracked(text, log, children, files, Some(id))
    requires About(e, id)
    requires children' - {id} == children - {id} && files' - {id} == files - {id}
    ensures Tracked(text, log + [e], children', files', Some(id))
    ensures Status(text, log + [e], id) == Advance(text, Status(text, log, id), id, e)
  {
    forall k | k != id
      ensures Agrees(text, Status(text, log + [e], k), Row(children', k), File(files', k))
    {
      assert Agrees(text, Status(text, log, k), Row(children, k), File(files, k));
      assert k in children <==> k in children - {id};
      assert k in children' <==> k in children' - {id};
      assert k in files <==> k in files - {id};
      assert k in files' <==> k in files' - {id};
    }
  }

  /** One entry about `id` keeps the table in agreement when `id`'s new row
      agrees with its new history. */
  lemma {:induction false} Keeps(text: Decoder, log: seq<Entry>, children: Table, files: Files, id: string, e: Entry,
                                 children': Table, files': Files)
    requires Tracked(text, log, children, files, None)
    requires About(e, id)
    requires children' - {id} == children - {id} && files' - {id} == files - {id}
    requires Agrees(text, Advance(text, Status(text, log, id), id, e), Row(children', id), File(files', id))
    ensures Tracked(text, log + [e], children', files', None)
  {
    OthersKeep(text, log, children, files, id, e, children', files');
  }

  lemma {:induction false} At(text: Decoder, log: seq<Entry>, children: Table, files: Files, id: string)
    requires Tracked(text, log, children, files, None)
    ensures Agrees(text, Status(text, log, id), Row(children, id), File(files, id))
  {
  }

  /** A row in the table is that of a job alive. */
  lemma {:induction false} Hold(text: Decoder, log: seq<Entry>, children: Table, files: Files, id: string)
    requires Tracked(text, log, children, files, None) && id in children
    ensures Tracked(text, log, children, files, Some(id))
    ensures AgreesIn(text, Status(text, log, id), Some(children[id]), File(files, id), Alive)
  {
    At(text, log, children, files, id);
  }

  /** The table is what the history says. */
  lemma {:induction false} RowIs(text: Decoder, log: seq<Entry>, children: Table, files: Files, id: string)
    requires Tracked(text, log, children, files, None)
    ensures id in children <==> Status(text, log, id).Running?
    ensures id !in children <==> Status(text, log, id).Idle?
    ensures id in children ==>
      children[id].hasTools == Status(text, log, id).tools && children[id].cancelledAt == Status(text, log, id).term
  {
    At(text, log, children, files, id);
  }

  /** A job's one SIGTERM is noted in its row. */
  lemma {:induction false} Signalled(text: Decoder, log: seq<Entry>, children: Table, files: Files, id: string, t: real)
    requires Tracked(text, log, children, files, None) && id in children && children[id].cancelledAt.None?
    ensures Tracked(text, log + [Term(id, t)], children[id := children[id].(cancelledAt := Some(t))], files, None)
  {
    At(text, log, children, files, id);
    var after := children[id := children[id].(cancelledAt := Some(t))];
    assert after - {id} == children - {id};
    Keeps(text, log, children, files, id, Term(id, t), after, files);
  }

  /** A job answered leaves the table. */
  lemma {:induction false} Leaves(text: Decoder, log: seq<Entry>, children: Table, files: Files, id: string, outcome: Outcome)
    requires Tracked(text, log, children, files, Some(id)) && id in children
    requires AgreesIn(text, Status(text, log, id), Some(children[id]), File(files, id), Drained)
    ensures Tracked(text, log + [Finished(id, outcome)], children - {id}, files, None)
  {
    var after := children - {id};
    assert after - {id} == children - {id};
    OthersKeep(text, log, children, files, id, Finished(id, outcome), after, files);
    Completes(text, log + [Finished(id, outcome)], after, files, id);
  }

  lemma {:induction false} SeenSplits(text: Decoder, life: Life, row: Child, file: Bytes, content: Bytes)
    requires life.Running? && AgreesIn(text, life, Some(row), file, life.stage) && file <= content
    ensures row.offset <= |content| && content == life.seen + content[row.offset..]
    ensures AgreesIn(text, life, Some(row), content, life.stage)
  {
  }

  /** A read that finds nothing new changes nothing but the stage. */
  lemma {:induction false} NothingNew(text: Decoder, life: Life, row: Child, content: Bytes)
    requires life.Running? && AgreesIn(text, life, Some(row), content, life.stage)
    requires content == life.seen + []
    ensures AgreesIn(text, life.(seen := content, stage := AfterLook(life.stage)), Some(row), content, AfterLook(life.stage))
    ensures row.offset == |content|
  {
    assert life.seen == content;
  }

  lemma {:induction false} SameOthers(a: Table, b: Table, id: string)
    requires a - {id} == b - {id}
    ensures forall k :: k != id ==> (k in a <==> k in b) && (k in a ==> a[k] == b[k])
  {
    forall k | k != id
      ensures (k in a <==> k in b) && (k in a ==> a[k] == b[k])
    {
      assert k in a <==> k in a - {id};
      assert k in b <==> k in b - {id};
    }
  }

  lemma {:induction false} Completes(text: Decoder, log: seq<Entry>, children: Table, files: Files, id: string)
    requires Tracked(text, log, children, files, Some(id))
    requires Agrees(text, Status(text, log, id), Row(children, id), File(files, id))
    ensures Tracked(text, log, children, files, None)
  {
    forall k
      ensures Agrees(text, Status(text, log, k), Row(children, k), File(files, k))
    {
      assert k != id ==> Some(k) != Some(id);
    }
  }

  /** A started job's row agrees with its new history. */
  lemma {:induction false} NewRow(text: Decoder, log: seq<Entry>, children: Table, files: Files, id: string, after: Table)
    requires Tracked(text, log, children, files, None) && id !in children
    requires id in after && after == children[id := after[id]]
    requires after[id].offset == 0 && after[id].partial == [] && after[id].cancelledAt == None
    ensures Tracked(text, log + [Started(id, after[id].hasTools)], after, files, None)
  {
    At(text, log, children, files, id);
    assert after - {id} == children - {id};
    Keeps(text, log, children, files, id, Started(id, after[id].hasTools), after, files);
  }

  /** A row or a file of the job in the middle of a step may change freely. */
  lemma {:induction false} OthersStay(text: Decoder, log: seq<Entry>, children: Table, files: Files, id: string,
                                      children': Table, files': Files)
    requires Tracked(text, log, children, files, None) || Tracked(text, log, children, files, Some(id))
    requires children' - {id} == children - {id} && files' - {id} == files - {id}
    ensures Tracked(text, log, children', files', Some(id))
  {
    forall k | k != id
      ensures Agrees(text, Status(text, log, k), Row(children', k), File(files', k))
    {
      assert Agrees(text, Status(text, log, k), Row(children, k), File(files, k));
      assert k in children <==> k in children - {id};
      assert k in children' <==> k in children' - {id};
      assert k in files <==> k in files - {id};
      assert k in files' <==> k in files' - {id};
    }
  }

  /** Forwarding moves no child in or out, cancels none, and answers nobody. */
  ghost predicate Forwarding(before: Table, log: seq<Entry>, after: Table, log': seq<Entry>) {
    && after.Keys == before.Keys
    && (forall k :: k in after ==> after[k].cancelledAt == before[k].cancelledAt && after[k].hasTools == before[k].hasTools)
    && Unheard(log, log')
  }

  /** The job was sent SIGKILL since entry `from`. */
  ghost predicate Killed(log: seq<Entry>, from: nat, id: string) {
    exists k :: from <= k < |log| && log[k].Kill? && log[k].job == id
  }

  lemma {:induction false} KilledStill(log: seq<Entry>, log': seq<Entry>, from: nat, id: string)
    requires log <= log' && Killed(log, from, id)
    ensures Killed(log', from, id)
  {
    var k :| from <= k < |log| && log[k].Kill? && log[k].job == id;
    assert log'[k] == log[k];
  }

  /** No request was read, and the end of input was not reached. */
  ghost predicate Silent(log: seq<Entry>, log': seq<Entry>) {
    && log <= log'
    && ReceivedLines(log') == ReceivedLines(log)
    && (Eof in log' <==> Eof in log)
  }

  lemma {:induction false} ThenFinished(looked: seq<Entry>, log: seq<Entry>, from: nat, look: Entry, finish: Entry)
    requires Has(looked, from, look) && log == looked + [finish]
    ensures Concluded(log, from, look, finish)
  {
    var i :| from <= i < |looked| && looked[i] == look;
    assert log[i] == look && log[|looked|] == finish;
  }

  lemma {:induction false} SameFiles(a: Files, b: Files, id: string)
    requires a - {id} == b - {id}
    ensures forall k :: k != id ==> File(a, k) == File(b, k)
  {
    forall k | k != id
      ensures File(a, k) == File(b, k)
    {
      assert k in a <==> k in a - {id};
      assert k in b <==> k in b - {id};
    }
  }

  /** What a pass over the files did for one job. */
  ghost predicate PumpedFor(children: Table, files: Files, from: nat, found: string -> Option<Bytes>, files': Files, log: seq<Entry>, id: string) {
    if id in children
    then Has(log, from, Look(id, File(files, id), found(id))) && File(files', id) == Grown(File(files, id), found(id))
    else File(files', id) == File(files, id)
  }

  lemma {:induction false} ForwardingOn(a: Table, log: seq<Entry>, b: Table, mid: seq<Entry>, c: Table, end: seq<Entry>)
    requires Forwarding(a, log, b, mid) && Forwarding(b, mid, c, end)
    ensures Forwarding(a, log, c, end)
  {
    forall k | k in c
      ensures c[k].cancelledAt == a[k].cancelledAt && c[k].hasTools == a[k].hasTools
    {
      assert k in b;
    }
  }

  /** A pass over the files, with `todo` still to come. */
  ghost predicate PumpedBut(children: Table, files: Files, from: nat, found: string -> Option<Bytes>, files': Files, log: seq<Entry>, todo: set<string>) {
    && (forall id :: id in todo ==> File(files', id) == File(files, id))
    && (forall id :: id !in todo ==> PumpedFor(children, files, from, found, files', log, id))
  }

  lemma {:induction false} PumpedNext(children: Table, files: Files, from: nat, found: string -> Option<Bytes>,
                                      held: Files, log: seq<Entry>, held': Files, log': seq<Entry>, todo: set<string>, id: string)
    requires PumpedBut(children, files, from, found, held, log, todo) && id in todo && todo <= children.Keys
    requires from <= |log| && log <= log' && held' - {id} == held - {id}
    requires File(held', id) == Grown(File(held, id), found(id))
    requires Has(log', |log|, Look(id, File(held, id), found(id)))
    ensures PumpedBut(children, files, from, found, held', log', todo - {id})
  {
    SameFiles(held, held', id);
    forall k | k !in todo - {id}
      ensures PumpedFor(children, files, from, found, held', log', k)
    {
      if k == id {
        HasEarlier(log', from, |log|, Look(id, File(files, id), found(id)));
      } else {
        assert PumpedFor(children, files, from, found, held, log, k);
        if k in children {
          HasStill(log, log', from, Look(k, File(files, k), found(k)));
        }
      }
    }
  }

  /** What reaping owes one child: SIGKILL when its grace was already over, and
      its answer when it has exited. */
  ghost predicate Reaped(before: Table, held: Files, at: real, from: nat, cond: Conditions, files: Files, log: seq<Entry>, id: string) {
    && (id in before && before[id].cancelledAt.Some? && at - before[id].cancelledAt.value > CANCEL_GRACE_S ==> Killed(log, from, id))
    && (if id in before && id in cond.exits then
          && File(files, id) == Grown(File(held, id), cond.last(id))
          && Concluded(log, from, Look(id, File(held, id), cond.last(id)), Finished(id, cond.left(id)))
        else File(files, id) == File(held, id))
  }

  lemma {:induction false} ReapedStill(before: Table, held: Files, at: real, from: nat, cond: Conditions,
                                       files: Files, log: seq<Entry>, files': Files, log': seq<Entry>, id: string)
    requires Reaped(before, held, at, from, cond, files, log, id)
    requires log <= log' && File(files', id) == File(files, id)
    ensures Reaped(before, held, at, from, cond, files', log', id)
  {
    if Killed(log, from, id) {
      KilledStill(log, log', from, id);
    }
    if id in before && id in cond.exits {
      ConcludedStill(log, log', from, from, Look(id, File(held, id), cond.last(id)), Finished(id, cond.left(id)));
    }
  }

  /** A pass of reaping, with `todo` still to come. */
  ghost predicate ReapedBut(before: Table, held: Files, at: real, from: nat, cond: Conditions, files: Files, log: seq<Entry>, todo: set<string>) {
    && (forall id :: id in todo ==> File(files, id) == File(held, id))
    && (forall id :: id !in todo ==> Reaped(before, held, at, from, cond, files, log, id))
  }

  lemma {:induction false} ReapedNext(before: Table, held: Files, at: real, from: nat, cond: Conditions, now: real, children: Table,
                                      files: Files, log: seq<Entry>, files': Files, log': seq<Entry>, todo: set<string>, id: string)
    requires ReapedBut(before, held, at, from, cond, files, log, todo) && id in todo
    requires from <= |log| && log <= log' && files' - {id} == files - {id} && now >= at
    requires id in before && id in children && children[id] == before[id]
    requires Reaped(children, files, now, |log|, cond, files', log', id)
    ensures ReapedBut(before, held, at, from, cond, files', log', todo - {id})
  {
    SameFiles(files, files', id);
    forall k | k !in todo - {id}
      ensures Reaped(before, held, at, from, cond, files', log', k)
    {
      if k != id {
        ReapedStill(before, held, at, from, cond, files, log, files', log', k);
      } else {
        if Killed(log', |log|, id) {
          assert Killed(log', from, id);
        }
        if id in cond.exits {
          ConcludedStill(log', log', from, |log|, Look(id, File(held, id), cond.last(id)), Finished(id, cond.left(id)));
        }
      }
    }
  }

  /** With `todo` still to be asked after, exactly those that exited have gone. */
  ghost predicate Remaining(first: Table, exits: set<string>, children: Table, todo: set<string>) {
    && todo <= children.Keys
    && forall k :: (k in children <==> k in first && (k in todo || k !in exits)) && (k in children ==> children[k] == first[k])
  }

  lemma {:induction false} RemainingNext(first: Table, exits: set<string>, before: Table, children: Table, todo: set<string>, id: string)
    requires Remaining(first, exits, before, todo) && id in todo
    requires children == if id in exits then before - {id} else before
    ensures Remaining(first, exits, children, todo - {id})
  {
  }

  lemma {:induction false} NoneRemaining(first: Table, exits: set<string>, children: Table)
    requires Remaining(first, exits, children, {})
    ensures children == first - exits
  {
  }

  predicate Overdue(child: Child, now: real) {
    child.cancelledAt.Some? && now - child.cancelledAt.value > CANCEL_GRACE_S
  }

  /** The two passes together are what a turn owes one job. */
  lemma {:induction false} LooksAfter(children: Table, table: Table, files: Files, held: Files, files': Files,
                                      log: seq<Entry>, pumped: seq<Entry>, log': seq<Entry>, at: real, cond: Conditions, id: string)
    requires log <= pumped <= log' && table.Keys == children.Keys
    requires PumpedBut(children, files, |log|, cond.found, held, pumped, {})
    requires ReapedBut(table, held, at, |pumped|, cond, files', log', {})
    ensures if id !in children then File(files', id) == File(files, id)
      else
        var once := Grown(File(files, id), cond.found(id));
        && Has(log', |log|, Look(id, File(files, id), cond.found(id)))
        && (if id in cond.exits then
              && Concluded(log', |log|, Look(id, once, cond.last(id)), Finished(id, cond.left(id)))
              && File(files', id) == Grown(once, cond.last(id))
            else File(files', id) == once)
  {
    assert PumpedFor(children, files, |log|, cond.found, held, pumped, id);
    assert Reaped(table, held, at, |pumped|, cond, files', log', id);
    if id in children {
      HasStill(pumped, log', |log|, Look(id, File(files, id), cond.found(id)));
      if id in cond.exits {
        ConcludedStill(log', log', |log|, |pumped|, Look(id, File(held, id), cond.last(id)), Finished(id, cond.left(id)));
      }
    }
  }

  /** The lines done and what is still in the buffer make up the input. */
  ghost predicate Cut(input: Bytes, done: seq<Bytes>, buffer: Bytes) {
    Complete(input) == done + Complete(buffer) && Rest(input) == Rest(buffer)
  }

  /** One more line taken off the buffer. */
  lemma {:induction false} LineStep(input: Bytes, done: seq<Bytes>, buffer: Bytes)
    requires NEWLINE in buffer && Cut(input, done, buffer)
    ensures var i := FirstNewline(buffer); i < |buffer| && Cut(input, done + [buffer[..i]], buffer[i + 1..])
  {
    var i := FirstNewline(buffer);
    assert done + ([buffer[..i]] + Complete(buffer[i + 1..])) == (done + [buffer[..i]]) + Complete(buffer[i + 1..]);
  }

  lemma {:induction false} NoLine(input: Bytes, done: seq<Bytes>, buffer: Bytes)
    requires NEWLINE !in buffer && Cut(input, done, buffer)
    ensures done == Complete(input) && buffer == Rest(input)
  {
    FirstNewlineIs(buffer, |buffer|);
    assert done + [] == done;
  }

  class Server {
    const text: Decoder
    const read: Reader
    ghost const jobOf: Requests

    var children: Table
    var environ: map<string, string>

    // The host's side: the events files and the monotonic clock.
    var files: Files
    var now: real

    // Everything read, written and signalled so far.
    ghost var log: seq<Entry>

    ghost predicate Codec() {
      && Consistent(read)
      && (forall line :: jobOf(line) == AskedJob(text, read, line))
    }

    /** `owed` is the request being handled, neither started nor refused yet. */
    ghost predicate Valid(owed: Option<string>)
      reads this
    {
      Codec() && Tracked(text, log, children, files, None) && Orderly(owed)
    }

    ghost predicate Orderly(owed: Option<string>)
      reads this
    {
      AllAdmitted(jobOf, log, owed) && NoStartAfterEof(log)
    }

    /** The table is what the history says of every job. */
    ghost predicate Live()
      reads this
    {
      Tracked(text, log, children, files, None)
    }

    /** In the middle of a step for the child `id`, which is in `stage`. */
    ghost predicate Holding(id: string, stage: Stage)
      reads this
    {
      && Tracked(text, log, children, files, Some(id))
      && id in children
      && AgreesIn(text, Status(text, log, id), Some(children[id]), File(files, id), stage)
    }

    constructor (text: Decoder, read: Reader, files: Files)
      requires Consistent(read)
      ensures Valid(None)
      ensures this.text == text && this.read == read && this.files == files
      ensures log == [] && children == map[] && environ == map[]
    {
      this.text, this.read := text, read;
      jobOf := (line: Bytes) => AskedJob(text, read, line);
      children, environ, log, this.files, now := map[], map[], [], files, 0.0;
    }

    /** Every export read is in the environment. */
    ghost predicate Exported()
      reads this
    {
      environ == EnvOf(text, read, ReceivedLines(log))
    }

    /** Add one entry to the history. */
    ghost method Note(e: Entry)
      modifies this`log
      ensures log == old(log) + [e]
      ensures ReceivedLines(log) == ReceivedLines(old(log)) + (if e.Received? then [e.line] else [])
      ensures Eof in log <==> Eof in old(log) || e.Eof?
      ensures Loud(log) == Loud(old(log)) + if IsBackground(e) then 0 else 1
    {
      assert (log + [e])[..|log|] == log;
      log := log + [e];
    }

    /** Requests are as they were before quiet entries. */
    lemma {:induction false} StillOrderly(before: seq<Entry>, owed: Option<string>)
      requires AllAdmitted(jobOf, before, owed) && NoStartAfterEof(before)
      requires before <= log && forall k :: |before| <= k < |log| ==> Quiet(log[k])
      ensures Orderly(owed)
    {
      QuietKeeps(jobOf, before, log, owed);
    }

    /** Nothing the server does of its own accord changes what was asked for. */
    lemma {:induction false} NobodyAsked(before: seq<Entry>)
      requires AllAdmitted(jobOf, before, None) && NoStartAfterEof(before) && Unheard(before, log)
      ensures Orderly(None) && ReceivedLines(log) == ReceivedLines(before) && (Eof in log <==> Eof in before)
    {
      UnheardMeans(before, log);
      StillOrderly(before, None);
    }

    /** The clock never goes back. */
    method Clock() returns (t: real)
      modifies this`now
      ensures now == t >= old(now)
    {
      var wait: real := *;
      t := if wait > 0.0 then now + wait else now;
      now := t;
    }

    // ---- forwarding ----

    /** Write out the non-blank lines, which are what is still due to `id`. */
    method Send(id: string, lines: seq<Bytes>, ghost life: Life) returns (wrote: bool)
      requires Tracked(text, log, children, files, Some(id))
      requires life.Running? && Status(text, log, id) == life
      requires Due(text, life.seen) == life.sent + Shown(text, lines)
      modifies this`log
      ensures Tracked(text, log, children, files, Some(id))
      ensures Status(text, log, id) == life.(sent := Due(text, life.seen))
      ensures Unheard(old(log), log)
    {
      wrote := false;
      ghost var sent := life.sent;
      assert lines[0..] == lines;
      for k := 0 to |lines|
        invariant Tracked(text, log, children, files, Some(id))
        invariant Status(text, log, id) == life.(sent := sent)
        invariant sent + Shown(text, lines[k..]) == Due(text, life.seen)
        invariant Unheard(old(log), log)
      {
        ShownFrom(text, lines, k);
        var written := SendLine(id, lines[k], life.(sent := sent));
        sent := sent + if text(lines[k]) == "" then [] else [text(lines[k])];
        wrote := wrote || written;
      }
      assert lines[|lines|..] == [] && sent + [] == sent;
    }

    /** Write one line out, unless it is blank. */
    method SendLine(id: string, line: Bytes, ghost life: Life) returns (wrote: bool)
      requires Tracked(text, log, children, files, Some(id))
      requires life.Running? && Status(text, log, id) == life
      requires text(line) != "" ==> life.sent + [text(line)] <= Due(text, life.seen)
      modifies this`log
      ensures Tracked(text, log, children, files, Some(id))
      ensures Status(text, log, id) == life.(sent := life.sent + if text(line) == "" then [] else [text(line)])
      ensures Unheard(old(log), log)
    {
      wrote := text(line) != "";
      if wrote {
        OthersKeep(text, log, children, files, id, Forwarded(id, text(line)), children, files);
        Note(Forwarded(id, text(line)));
      }
    }

    /** Open the events file and read it; `content` is all it holds by now. */
    method ReadFile(id: string, content: Bytes, ghost stage: Stage)
      requires Holding(id, stage) && stage != Drained && File(files, id) <= content
      modifies this`log, this`files
      ensures Tracked(text, log, children, files, Some(id))
      ensures files == old(files)[id := content] && log == old(log) + [Read(id, content)]
      ensures Status(text, log, id) == old(Status(text, log, id)).(seen := content, stage := AfterLook(stage))
    {
      var files' := files[id := content];
      assert files' - {id} == files - {id};
      OthersKeep(text, log, children, files, id, Read(id, content), children, files');
      files := files';
      Note(Read(id, content));
    }

    /** Move the child's offset past the bytes read, and send the lines they
        complete. `life` is where the job stood before the read. */
    method Absorb(id: string, chunk: Bytes, ghost life: Life) returns (wrote: bool)
      requires Tracked(text, log, children, files, Some(id)) && id in children
      requires life.Running? && AgreesIn(text, life, Some(children[id]), File(files, id), life.stage)
      requires File(files, id) == life.seen + chunk
      requires Status(text, log, id) == life.(seen := File(files, id), stage := AfterLook(life.stage))
      modifies this`children, this`log
      ensures Holding(id, AfterLook(life.stage))
      ensures children - {id} == old(children) - {id}
      ensures children[id] == old(children[id]).(offset := |File(files, id)|, partial := Rest(File(files, id)))
      ensures Unheard(old(log), log)
    {
      DueExtends(text, life.seen, chunk);
      ghost var now' := life.(seen := File(files, id), stage := AfterLook(life.stage));
      var child := children[id];
      var data := child.partial + chunk;
      var after := children[id := child.(offset := child.offset + |chunk|, partial := Rest(data))];
      assert after - {id} == children - {id};
      OthersStay(text, log, children, files, id, after, files);
      children := after;
      wrote := Send(id, Complete(data), now');
    }

    /** Forward the complete lines the child appended since last time. `found` is
        what the file holds by now, or nothing when it cannot be read. */
    method Forward(id: string, found: Option<Bytes>, ghost stage: Stage) returns (wrote: bool)
      requires Holding(id, stage) && stage != Drained
      modifies this`children, this`log, this`files
      ensures Holding(id, AfterLook(stage))
      ensures children - {id} == old(children) - {id} && files - {id} == old(files) - {id}
      ensures File(files, id) == Grown(File(old(files), id), found)
      ensures Unheard(old(log), log)
      ensures |log| > |old(log)| && log[|old(log)|] == Look(id, File(old(files), id), found)
      // A read that succeeded leaves nothing of the file unread; nothing else of
      // the row changes.
      ensures children[id].hasTools == old(children[id].hasTools) && children[id].cancelledAt == old(children[id].cancelledAt)
      ensures children[id].offset == if found.Some? then |File(files, id)| else old(children[id].offset)
    {
      if found.None? {
        CannotRead(id, stage);
        wrote := false;
      } else {
        wrote := Take(id, Grown(File(files, id), found), stage);
      }
    }

    method CannotRead(id: string, ghost stage: Stage)
      requires Holding(id, stage) && stage != Drained
      modifies this`log
      ensures Holding(id, AfterLook(stage))
      ensures log == old(log) + [Unread(id)]
    {
      OthersKeep(text, log, children, files, id, Unread(id), children, files);
      Note(Unread(id));
    }

    method Take(id: string, content: Bytes, ghost stage: Stage) returns (wrote: bool)
      requires Holding(id, stage) && stage != Drained && File(files, id) <= content
      modifies this`children, this`log, this`files
      ensures Holding(id, AfterLook(stage))
      ensures children - {id} == old(children) - {id}
      ensures files == old(files)[id := content]
      ensures Unheard(old(log), log)
      ensures |log| > |old(log)| && log[|old(log)|] == Read(id, content)
      ensures children[id].offset == |content|
      ensures children[id].hasTools == old(children[id].hasTools) && children[id].cancelledAt == old(children[id].cancelledAt)
    {
      ghost var life, from := Status(text, log, id), |log|;
      SeenSplits(text, life, children[id], File(files, id), content);
      ReadFile(id, content, stage);
      ghost var looked := log;
      assert looked[from] == Read(id, content) && File(files, id) == content;
      wrote := Deliver(id, content[children[id].offset..], life);
      assert log[from] == looked[from];
    }

    /** Nothing to do for a read that found nothing new. */
    method Deliver(id: string, chunk: Bytes, ghost life: Life) returns (wrote: bool)
      requires Tracked(text, log, children, files, Some(id)) && id in children
      requires life.Running? && AgreesIn(text, life, Some(children[id]), File(files, id), life.stage)
      requires File(files, id) == life.seen + chunk
      requires Status(text, log, id) == life.(seen := File(files, id), stage := AfterLook(life.stage))
      modifies this`children, this`log
      ensures Holding(id, AfterLook(life.stage))
      ensures children - {id} == old(children) - {id}
      ensures children[id] == old(children[id]).(offset := |File(files, id)|, partial := Rest(File(files, id)))
      ensures Unheard(old(log), log)
    {
      wrote := false;
      if chunk == [] {
        NothingNew(text, life, children[id], File(files, id));
      } else {
        wrote := Absorb(id, chunk, life);
      }
    }

    /** The server looks at every child's file. */
    method Pump(found: string -> Option<Bytes>)
      requires Live()
      modifies this`children, this`log, this`files
      ensures Live()
      ensures Forwarding(old(children), old(log), children, log)
      ensures PumpedBut(old(children), old(files), |old(log)|, found, files, log, {})
    {
      var todo := children.Keys;
      while todo != {}
        invariant todo <= old(children).Keys
        invariant Live() && Forwarding(old(children), old(log), children, log)
        invariant PumpedBut(old(children), old(files), |old(log)|, found, files, log, todo)
        decreases todo
      {
        var id :| id in todo;
        PumpNext(id, found, old(children), old(files), old(log), todo);
        todo := todo - {id};
      }
    }

    /** One more child, in a pass that began with `first`. */
    method PumpNext(id: string, found: string -> Option<Bytes>, ghost first: Table, ghost held: Files, ghost start: seq<Entry>, ghost todo: set<string>)
      requires Live() && id in todo && todo <= first.Keys
      requires Forwarding(first, start, children, log) && PumpedBut(first, held, |start|, found, files, log, todo)
      modifies this`children, this`log, this`files
      ensures Live()
      ensures Forwarding(first, start, children, log) && PumpedBut(first, held, |start|, found, files, log, todo - {id})
    {
      ghost var table, before, from := children, files, log;
      PumpOne(id, found(id));
      PumpedNext(first, held, |start|, found, before, from, files, log, todo, id);
      ForwardingOn(first, start, table, from, children, log);
    }

    method PumpOne(id: string, found: Option<Bytes>)
      requires Live() && id in children
      modifies this`children, this`log, this`files
      ensures Live()
      ensures Forwarding(old(children), old(log), children, log)
      ensures files - {id} == old(files) - {id} && File(files, id) == Grown(File(old(files), id), found)
      ensures Has(log, |old(log)|, Look(id, File(old(files), id), found))
    {
      Hold(text, log, children, files, id);
      var _ := Forward(id, found, Alive);
      Completes(text, log, children, files, id);
      assert children.Keys == (children - {id}).Keys + {id};
      assert old(children).Keys == (old(children) - {id}).Keys + {id};
      SameOthers(old(children), children, id);
    }

    // ---- cancelling ----

    /** The one SIGTERM a job gets, and the start of its grace period. */
    method Terminate(id: string)
      requires Live() && id in children && children[id].cancelledAt.None?
      modifies this`children, this`log, this`now
      ensures Live() && now >= old(now)
      ensures children == old(children)[id := old(children)[id].(cancelledAt := Some(now))]
      ensures log == old(log) + [Term(id, now)]
      ensures Silent(old(log), log)
    {
      var t := Clock();
      Signalled(text, log, children, files, id, t);
      children := children[id := children[id].(cancelledAt := Some(t))];
      Note(Term(id, t));
    }

    /** A cancel naming no running job is the caller's error. */
    method CancelJob(id: string) returns (ok: bool)
      requires Valid(None)
      modifies this`children, this`log, this`now
      ensures Valid(None) && now >= old(now)
      ensures ok <==> id in old(children)
      ensures !ok ==> children == old(children) && log == old(log)
      ensures ok ==> id in children && children[id].cancelledAt.Some? && children - {id} == old(children) - {id}
      ensures ok ==> if old(children)[id].cancelledAt.Some? then log == old(log) else log == old(log) + [Term(id, now)]
      ensures Silent(old(log), log)
    {
      ok := id in children;
      if ok && children[id].cancelledAt.None? {
        ghost var before := log;
        Terminate(id);
        StillOrderly(before, None);
      }
    }

    method CancelAll()
      requires Live()
      modifies this`children, this`log, this`now
      ensures Live()
      ensures children.Keys == old(children.Keys)
      ensures forall k :: k in children ==> children[k].cancelledAt.Some?
      ensures Silent(old(log), log) && now >= old(now)
      ensures forall k :: |old(log)| <= k < |log| ==> log[k].Term?
      ensures forall k :: k in children && old(children)[k].cancelledAt.Some? ==> children[k] == old(children)[k]
    {
      var todo := children.Keys;
      while todo != {}
        invariant todo <= children.Keys == old(children.Keys)
        invariant Live() && now >= old(now)
        invariant forall k :: |old(log)| <= k < |log| ==> log[k].Term?
        invariant forall k :: k in todo ==> children[k] == old(children)[k]
        invariant forall k :: k in children && old(children)[k].cancelledAt.Some? ==> children[k] == old(children)[k]
        invariant forall k :: k in children && k !in todo ==> children[k].cancelledAt.Some?
        invariant Silent(old(log), log)
        decreases todo
      {
        var id :| id in todo;
        if children[id].cancelledAt.None? {
          Terminate(id);
        }
        todo := todo - {id};
      }
    }

    /** SIGKILL, once the grace after the SIGTERM has passed and not before. */
    method KillIfOverdue(id: string)
      requires Live() && id in children
      modifies this`log, this`now
      ensures Live() && now >= old(now)
      ensures log == if children[id].cancelledAt.Some? && now - children[id].cancelledAt.value > CANCEL_GRACE_S
        then old(log) + [Kill(id, now)] else old(log)
      ensures Unheard(old(log), log)
    {
      if children[id].cancelledAt.Some? {
        var t := Clock();
        if t - children[id].cancelledAt.value > CANCEL_GRACE_S {
          At(text, log, children, files, id);
          Keeps(text, log, children, files, id, Kill(id, t), children, files);
          Note(Kill(id, t));
        }
      }
    }

    /** Take over an exited child: whatever it wrote in its last moments goes
        first. `last` is what its file holds, when it can be read. */
    method LastLook(id: string, last: Option<Bytes>)
      requires Live() && id in children
      modifies this`children, this`log, this`files
      ensures Holding(id, Drained)
      ensures children - {id} == old(children) - {id} && files - {id} == old(files) - {id}
      ensures File(files, id) == Grown(File(old(files), id), last)
      ensures last.Some? ==> children[id].offset == |File(files, id)|
      ensures Unheard(old(log), log)
      ensures Has(log, |old(log)|, Look(id, File(old(files), id), last))
    {
      ghost var from := |log|;
      HandOver(id);
      var _ := Forward(id, last, Gone);
      assert log[from + 1] == Look(id, File(old(files), id), last);
    }

    /** The system hands over the child's exit. */
    ghost method HandOver(id: string)
      requires Live() && id in children
      modifies this`log
      ensures Holding(id, Gone) && log == old(log) + [Exited(id)]
    {
      Hold(text, log, children, files, id);
      OthersKeep(text, log, children, files, id, Exited(id), children, files);
      Note(Exited(id));
    }

    /** Collect an exited child: its last lines, then its one answer, `left`. With
        that its file has been forwarded once more from the start, as far as it
        could be read. */
    method Collect(id: string, left: Outcome, last: Option<Bytes>)
      requires Live() && id in children
      modifies this`children, this`log, this`files
      ensures Live()
      ensures children == old(children) - {id} && files - {id} == old(files) - {id}
      ensures File(files, id) == Grown(File(old(files), id), last)
      ensures Unheard(old(log), log)
      ensures Concluded(log, |old(log)|, Look(id, File(old(files), id), last), Finished(id, left))
      ensures last.Some? ==> Earlier(text, log, id) == Earlier(text, old(log), id) + Due(text, File(files, id))
    {
      RowIs(text, log, children, files, id);
      LastLook(id, last);
      ghost var looked := log;
      SameLifeSameEarlier(text, old(log), log, id);
      AnswerAdds(text, log, id, left);
      assert last.Some? ==> Status(text, log, id).seen == File(files, id);
      Leaves(text, log, children, files, id, left);
      children := children - {id};
      Note(Finished(id, left));
      ThenFinished(looked, log, |old(log)|, Look(id, File(old(files), id), last), Finished(id, left));
    }

    /** Tend to one child. */
    method ReapOne(id: string, cond: Conditions)
      requires Live() && id in children
      modifies this`children, this`log, this`files, this`now
      ensures Live() && now >= old(now)
      ensures Reaped(old(children), old(files), old(now), |old(log)|, cond, files, log, id)
      ensures children == if id in cond.exits then old(children) - {id} else old(children)
      ensures files - {id} == old(files) - {id}
      ensures Unheard(old(log), log)
    {
      ghost var from := |log|;
      KillIfOverdue(id);
      ghost var killed := log;
      assert |killed| > from ==> killed[from].Kill? && killed[from].job == id;
      if id in cond.exits {
        Collect(id, cond.left(id), cond.last(id));
        if |killed| > from {
          KilledStill(killed, log, from, id);
        }
        ConcludedStill(log, log, from, |killed|, Look(id, File(old(files), id), cond.last(id)), Finished(id, cond.left(id)));
      }
    }

    /** Ask after every child. */
    method Reap(cond: Conditions)
      requires Live()
      modifies this`children, this`log, this`files, this`now
      ensures Live() && now >= old(now)
      ensures children == old(children) - cond.exits
      ensures ReapedBut(old(children), old(files), old(now), |old(log)|, cond, files, log, {})
      ensures Unheard(old(log), log)
    {
      var todo := children.Keys;
      while todo != {}
        invariant Remaining(old(children), cond.exits, children, todo)
        invariant Live() && now >= old(now)
        invariant ReapedBut(old(children), old(files), old(now), |old(log)|, cond, files, log, todo)
        invariant Unheard(old(log), log)
        decreases todo
      {
        var id :| id in todo;
        ghost var before, held, at, from := children, files, now, log;
        ReapOne(id, cond);
        ReapedNext(old(children), old(files), old(now), |old(log)|, cond, at, before, held, from, files, log, todo, id);
        RemainingNext(old(children), cond.exits, before, children, todo, id);
        todo := todo - {id};
      }
      NoneRemaining(old(children), cond.exits, children);
    }

    // ---- messages ----

    /** Start a job: validation, a duplicate id or the system may refuse it, and
        then nothing has changed. `forked` is whether the system lets it. */
    method Start(m: Message, forked: bool) returns (ok: bool)
      requires m.Job? && (m.request.Some? ==> m.named == Some(m.request.value.jobId))
      requires Valid(Owed(m.named)) && Eof !in log
      modifies this`children, this`log
      ensures ok <==> m.request.Some? && m.request.value.jobId !in old(children) && forked
      ensures ok ==> Valid(None)
      ensures ok ==> children == old(children)[m.request.value.jobId := Child(m.request.value.hostTools, 0, [], None)]
      ensures ok ==> log == old(log) + [Started(m.request.value.jobId, m.request.value.hostTools)]
      ensures !ok ==> children == old(children) && log == old(log)
      ensures Silent(old(log), log)
    {
      ok := false;
      if m.request.None? || m.request.value.jobId in children || !forked { return; }
      ok := true;
      Launch(m.request.value.jobId, m.request.value.hostTools);
    }

    method Launch(id: string, hasTools: bool)
      requires Valid(Owed(Some(id))) && Eof !in log && id !in children
      modifies this`children, this`log
      ensures Valid(None)
      ensures children == old(children)[id := Child(hasTools, 0, [], None)]
      ensures log == old(log) + [Started(id, hasTools)]
      ensures Silent(old(log), log)
    {
      var after := children[id := Child(hasTools, 0, [], None)];
      NewRow(text, log, children, files, id, after);
      AdmittedStep(jobOf, log, Started(id, hasTools), Owed(Some(id)));
      children := after;
      Note(Started(id, hasTools));
    }

    /** A job request: started, or answered as lost when it names a job, or
        reported as an error when it does not. */
    method JobLine(m: Message, forked: bool)
      requires m.Job? && (m.request.Some? ==> m.named == Some(m.request.value.jobId))
      requires Valid(Owed(m.named)) && Eof !in log
      modifies this`children, this`log
      ensures Valid(None)
      ensures Reacted(text, m, forked, old(log), log)
      ensures Silent(old(log), log)
    {
      RowOf(m);
      var ok := Start(m, forked);
      if !ok {
        Decline(m.named);
      }
      Adds(text, m, forked, old(log), log);
    }

    /** A request that was not started. */
    method Decline(named: Option<string>)
      requires Valid(Owed(named))
      modifies this`log
      ensures Valid(None)
      ensures log == old(log) + [if named.Some? && named.value != "" then Refused(named.value) else Complaint]
      ensures Silent(old(log), log)
    {
      if named.Some? && named.value != "" {
        var id := named.value;
        At(text, log, children, files, id);
        Keeps(text, log, children, files, id, Refused(id), children, files);
        AdmittedStep(jobOf, log, Refused(id), Owed(Some(id)));
        Note(Refused(id));
      } else {
        Complain();
      }
    }

    method Complain()
      requires Valid(None)
      modifies this`log
      ensures Valid(None)
      ensures log == old(log) + [Complaint]
      ensures Silent(old(log), log)
    {
      At(text, log, children, files, "");
      Keeps(text, log, children, files, "", Complaint, children, files);
      ghost var before := log;
      Note(Complaint);
      StillOrderly(before, None);
    }

    /** Place a host-tool response where a running job that asked for tools polls
        for it. `written` is whether the file system lets it. */
    method ToolLine(m: Message, written: bool) returns (ok: bool)
      requires Valid(None) && m.Tool?
      modifies this`log
      ensures Valid(None)
      ensures var life := old(Status(text, log, m.jobId)); ok <==> life.Running? && life.tools && m.valid && written
      ensures log == if ok then old(log) + [ToolFile(m.jobId)] else old(log)
      ensures Silent(old(log), log)
    {
      RowIs(text, log, children, files, m.jobId);
      ok := m.jobId in children && children[m.jobId].hasTools && m.valid && written;
      if ok {
        At(text, log, children, files, m.jobId);
        Keeps(text, log, children, files, m.jobId, ToolFile(m.jobId), children, files);
        ghost var before := log;
        Note(ToolFile(m.jobId));
        StillOrderly(before, None);
      }
    }

    /** A request read and not yet dealt with. */
    method Receive(line: Bytes)
      requires Valid(None) && Eof !in log
      modifies this`log
      ensures Valid(Owed(AskedJob(text, read, line))) && Eof !in log
      ensures log == old(log) + [Received(line)]
      ensures ReceivedLines(log) == ReceivedLines(old(log)) + [line]
    {
      At(text, log, children, files, "");
      Keeps(text, log, children, files, "", Received(line), children, files);
      assert jobOf(line) == AskedJob(text, read, line);
      AdmittedStep(jobOf, log, Received(line), None);
      Note(Received(line));
    }

    /** What a message comes to. */
    method Dispatch(m: Message, can: bool)
      requires m.Job? && m.request.Some? ==> m.named == Some(m.request.value.jobId)
      requires Valid(if m.Job? then Owed(m.named) else None) && Eof !in log
      modifies this`children, this`environ, this`log, this`now
      ensures Valid(None) && now >= old(now)
      ensures environ == if m.Env? && m.exports.Some? then old(environ) + m.exports.value else old(environ)
      ensures Reacted(text, m, can, old(log), log)
      ensures Silent(old(log), log)
    {
      match m {
        case Job(_, _) => JobLine(m, can);
        case Env(_) => EnvLine(m, can);
        case Tool(_, _) => ToolMessage(m, can);
        case Cancel(_) => CancelLine(m, can);
        case Malformed => MalformedLine(m, can);
      }
    }

    method MalformedLine(m: Message, can: bool)
      requires Valid(None) && m.Malformed?
      modifies this`log
      ensures Valid(None)
      ensures Reacted(text, m, can, old(log), log)
      ensures Silent(old(log), log)
    {
      Complain();
      Adds(text, m, can, old(log), log);
    }

    method EnvLine(m: Message, can: bool)
      requires Valid(None) && m.Env?
      modifies this`environ, this`log
      ensures Valid(None)
      ensures environ == if m.exports.Some? then old(environ) + m.exports.value else old(environ)
      ensures Reacted(text, m, can, old(log), log)
      ensures Silent(old(log), log)
    {
      if m.exports.Some? {
        environ := environ + m.exports.value;
      } else {
        Complain();
      }
      Adds(text, m, can, old(log), log);
    }

    method ToolMessage(m: Message, can: bool)
      requires Valid(None) && m.Tool?
      modifies this`log
      ensures Valid(None)
      ensures Reacted(text, m, can, old(log), log)
      ensures Silent(old(log), log)
    {
      var ok := ToolLine(m, can);
      if !ok { Complain(); }
      Adds(text, m, can, old(log), log);
    }

    method CancelLine(m: Message, can: bool)
      requires Valid(None) && m.Cancel?
      modifies this`children, this`log, this`now
      ensures Valid(None) && now >= old(now)
      ensures Reacted(text, m, can, old(log), log)
      ensures Silent(old(log), log)
    {
      RowOf(m);
      var ok := CancelJob(m.jobId);
      if !ok { Complain(); }
      Adds(text, m, can, old(log), log);
    }

    /** The row of the job a message names is what the history says. */
    lemma {:induction false} RowOf(m: Message)
      requires Live()
      ensures m.Cancel? ==> (m.jobId in children <==> Status(text, log, m.jobId).Running?)
      ensures m.Cancel? && m.jobId in children ==> children[m.jobId].cancelledAt == Status(text, log, m.jobId).term
      ensures m.Job? && m.request.Some? ==>
        (m.request.value.jobId in children <==> Status(text, log, m.request.value.jobId).Running?)
    {
      if m.Cancel? {
        RowIs(text, log, children, files, m.jobId);
      } else if m.Job? && m.request.Some? {
        RowIs(text, log, children, files, m.request.value.jobId);
      }
    }

    /** One line from the host. Whatever it holds, the server keeps serving, and
        the line gets exactly the answer it should. */
    method Handle(line: Bytes, can: bool)
      requires Valid(None) && Exported() && Eof !in log
      modifies this`children, this`environ, this`log, this`now
      ensures Valid(None) && Exported() && Eof !in log && now >= old(now)
      ensures HandledOne(text, read, old(log), line, can, log)
      ensures ReceivedLines(log) == ReceivedLines(old(log)) + [line]
    {
      Receive(line);
      EnvSnoc(text, read, ReceivedLines(old(log)), line);
      var t := text(line);
      ghost var asked := log;
      if t != "" {
        Dispatch(read(t), can);
      }
      AnswersIt(text, read, old(log), line, can, asked, log);
    }

    // ---- the loop ----

    /** Handle every complete line of the buffer and keep the rest. */
    method HandleLines(input: Bytes, can: nat -> bool) returns (buffer: Bytes)
      requires Valid(None) && Exported() && Eof !in log
      modifies this`children, this`environ, this`log, this`now
      ensures Valid(None) && Exported() && Eof !in log && now >= old(now)
      ensures buffer == Rest(input)
      ensures HandledAll(text, read, old(log), Complete(input), can, log)
      ensures ReceivedLines(log) == ReceivedLines(old(log)) + Complete(input)
    {
      buffer := input;
      var done: seq<Bytes> := [];
      while NEWLINE in buffer
        invariant InLines(old(log), done, can) && now >= old(now)
        invariant Cut(input, done, buffer)
        decreases |buffer|
      {
        var i := FirstNewline(buffer);
        LineStep(input, done, buffer);
        HandleOneMore(buffer[..i], can, old(log), done);
        done := done + [buffer[..i]];
        buffer := buffer[i + 1..];
      }
      NoLine(input, done, buffer);
    }

    /** The lines `done` have been handled since `start`. */
    ghost predicate InLines(start: seq<Entry>, done: seq<Bytes>, can: nat -> bool)
      reads this
    {
      && Valid(None) && Exported() && Eof !in log
      && HandledAll(text, read, start, done, can, log)
      && ReceivedLines(log) == ReceivedLines(start) + done
    }

    method HandleOneMore(line: Bytes, can: nat -> bool, ghost start: seq<Entry>, done: seq<Bytes>)
      requires InLines(start, done, can)
      modifies this`children, this`environ, this`log, this`now
      ensures InLines(start, done + [line], can) && now >= old(now)
    {
      ghost var mid := log;
      Handle(line, can(|done|));
      HandledNext(text, read, start, done, can, mid, line, log);
    }

    /** Every child still in the table has had its signal. */
    ghost predicate AllCancelled()
      reads this
    {
      forall id :: id in children ==> children[id].cancelledAt.Some?
    }

    /** Look after the children: their files first, then those that exited. */
    method Tend(cond: Conditions)
      requires Valid(None)
      modifies this`children, this`log, this`files, this`now
      ensures Valid(None)
      ensures children.Keys == old(children.Keys) - cond.exits
      ensures forall id :: id in children ==> children[id].cancelledAt == old(children)[id].cancelledAt
      ensures forall id :: id in old(children) && Overdue(old(children)[id], old(now)) ==> Killed(log, |old(log)|, id)
      ensures TendedAll(text, old(files), old(log), cond, files, log)
      ensures Silent(old(log), log)
    {
      Pump(cond.found);
      ghost var table, held, pumped := children, files, log;
      Reap(cond);
      UnheardMeans(old(log), log);
      StillOrderly(old(log), None);
      forall id
        ensures LookedAfter(text, old(files), old(log), cond, files, log, id)
      {
        RowIs(text, old(log), old(children), old(files), id);
        RowIs(text, log, children, files, id);
        LooksAfter(old(children), table, old(files), held, files, old(log), pumped, log, old(now), cond, id);
      }
      forall id | id in old(children) && Overdue(old(children)[id], old(now))
        ensures Killed(log, |old(log)|, id)
      {
        assert Reaped(table, held, old(now), |pumped|, cond, files, log, id);
      }
    }

    /** Take what arrived on stdin, if anything. */
    method TakeInput(wake: Wake, can: nat -> bool, buffer: Bytes, ghost fed: Bytes) returns (buffer': Bytes, closing': bool)
      requires Valid(None) && Exported() && Eof !in log
      requires ReceivedLines(log) == Complete(fed) && buffer == Rest(fed)
      modifies this`children, this`environ, this`log, this`now
      ensures Valid(None) && Exported() && (closing' <==> Eof in log) && (closing' <==> wake.EndOfInput?) && now >= old(now)
      ensures TookInput(text, read, old(log), wake, can, buffer, log)
      ensures var fed' := if wake.Chunk? then fed + wake.data else fed;
        ReceivedLines(log) == Complete(fed') && buffer' == Rest(fed')
      ensures closing' ==> AllCancelled()
    {
      buffer', closing' := buffer, false;
      match wake {
        case EndOfInput =>
          closing' := true;
          EndInput();
        case Chunk(data) =>
          FramingIsIncremental(fed, data);
          buffer' := HandleLines(buffer + data, can);
        case _ =>
      }
    }

    /** The end of input: every job is told to stop. */
    method EndInput()
      requires Valid(None) && Eof !in log
      modifies this`children, this`log, this`now
      ensures Valid(None) && Eof in log && now >= old(now) && AllCancelled()
      ensures ReceivedLines(log) == ReceivedLines(old(log))
      ensures old(log) + [Eof] <= log && forall k :: |old(log)| < k < |log| ==> log[k].Term?
      ensures forall id :: Status(text, log, id).Running? ==> Status(text, log, id).term.Some?
    {
      NoteEof();
      ghost var before := log;
      CancelAll();
      StillOrderly(before, None);
      AllTold();
    }

    method NoteEof()
      requires Valid(None) && Eof !in log
      modifies this`log
      ensures Valid(None) && Eof in log && log == old(log) + [Eof] && ReceivedLines(log) == ReceivedLines(old(log))
    {
      At(text, log, children, files, "");
      Keeps(text, log, children, files, "", Eof, children, files);
      ghost var before := log;
      Note(Eof);
      StillOrderly(before, None);
    }

    lemma {:induction false} AllTold()
      requires Live() && AllCancelled()
      ensures forall id :: Status(text, log, id).Running? ==> Status(text, log, id).term.Some?
    {
      forall id | Status(text, log, id).Running?
        ensures Status(text, log, id).term.Some?
      {
        RowIs(text, log, children, files, id);
      }
    }

    /** One turn of the loop. `fed` is the input so far: the lines handled are
        its complete lines and the buffer is what follows them. */
    method Turn(wake: Wake, cond: Conditions, buffer: Bytes, closing: bool, ghost fed: Bytes) returns (buffer': Bytes, closing': bool)
      requires Valid(None) && Exported() && (closing <==> Eof in log)
      requires ReceivedLines(log) == Complete(fed) && buffer == Rest(fed)
      requires closing ==> AllCancelled()
      modifies this
      ensures Valid(None) && Exported() && (closing' <==> Eof in log)
      ensures closing' <==> closing || wake.EndOfInput?
      ensures var fed' := if wake.Chunk? && !closing then fed + wake.data else fed;
        ReceivedLines(log) == Complete(fed') && buffer' == Rest(fed')
      ensures closing' ==> AllCancelled()
      ensures Turned(text, read, old(files), old(log), wake, cond, closing, buffer, files, log)
      // Once input has ended a child can only leave the table, and one whose grace
      // is over has been sent SIGKILL.
      ensures closing ==> children.Keys == old(children.Keys) - cond.exits
      ensures closing ==> forall id :: id in old(children) && Overdue(old(children)[id], old(now)) ==> Killed(log, |old(log)|, id)
    {
      buffer', closing' := buffer, closing;
      if !closing {
        buffer', closing' := TakeInput(wake, cond.can, buffer, fed);
      }
      ghost var mid := log;
      Tend(cond);
      assert TendedAll(text, old(files), mid, cond, files, log);
    }

    method Greet()
      requires Valid(None) && log == [] && children == map[] && environ == map[]
      modifies this`log
      ensures Valid(None) && Exported() && log == [Ready]
      ensures Eof !in log && ReceivedLines(log) == []
    {
      At(text, log, children, files, "");
      Keeps(text, log, children, files, "", Ready, children, files);
      ghost var before := log;
      Note(Ready);
      StillOrderly(before, None);
    }

    /** Where the loop stands after `n` wakes: what it handled and what it has in
        its buffer are fixed by the bytes it was fed, however they were cut up. */
    ghost predicate InStep(start: Files, wakes: seq<Wake>, conds: seq<Conditions>, n: nat, buffer: Bytes, closing: bool)
      requires n <= |wakes| && n <= |conds|
      reads this
    {
      && Valid(None) && Exported()
      && (closing <==> Eof in log)
      && (closing <==> EndOfInput in wakes[..n])
      && ReceivedLines(log) == Complete(Fed(wakes[..n]))
      && buffer == Rest(Fed(wakes[..n]))
      && (closing ==> AllCancelled())
      && Ran(text, read, start, wakes, conds, n, files, log)
    }

    method Step(ghost start: Files, wakes: seq<Wake>, conds: seq<Conditions>, n: nat, buffer: Bytes, closing: bool) returns (buffer': Bytes, closing': bool)
      requires n < |wakes| && n < |conds| && InStep(start, wakes, conds, n, buffer, closing)
      requires n > 0 ==> !(closing && children == map[])
      modifies this
      ensures InStep(start, wakes, conds, n + 1, buffer', closing')
      ensures LastTurn(start, wakes, conds, n + 1, old(log))
    {
      FedStep(wakes, n);
      SomeoneRuns();
      ghost var held, log0 := files, log;
      buffer', closing' := Turn(wakes[n], conds[n], buffer, closing, Fed(wakes[..n]));
      assert Turned(text, read, held, log0, wakes[n], conds[n], EndOfInput in wakes[..n], Rest(Fed(wakes[..n])), files, log);
    }

    /** Run for as long as the wakes last, or until the server exits: in the first
        turn after which input has ended and no child is left, and then every job
        is answered. `before` is the history up to the last turn. */
    method Run(wakes: seq<Wake>, conds: seq<Conditions>) returns (exited: bool, turns: nat, ghost before: seq<Entry>)
      requires Valid(None) && log == [] && children == map[] && environ == map[] && |conds| == |wakes|
      modifies this
      ensures turns <= |wakes| && (!exited ==> turns == |wakes|)
      ensures exists buffer, closing :: InStep(old(files), wakes, conds, turns, buffer, closing)
      ensures exited <==> turns > 0 && EndOfInput in wakes[..turns] && children == map[]
      ensures exited ==> forall id :: id != "" ==> Tally(jobOf, log, JobMessage(id)) == Answers(jobOf, log, id)
      ensures turns > 0 ==> LastTurn(old(files), wakes, conds, turns, before)
    {
      Greet();
      var buffer: Bytes, closing := [], false;
      exited, turns, before := false, 0, log;
      while turns < |wakes|
        invariant turns <= |wakes| && InStep(old(files), wakes, conds, turns, buffer, closing)
        invariant turns > 0 ==> !(closing && children == map[])
        invariant turns > 0 ==> LastTurn(old(files), wakes, conds, turns, before)
      {
        before := log;
        buffer, closing := Step(old(files), wakes, conds, turns, buffer, closing);
        turns := turns + 1;
        if closing && children == map[] {
          exited := true;
          forall id | id != ""
            ensures Tally(jobOf, log, JobMessage(id)) == Answers(jobOf, log, id)
          {
            Promises(id);
          }
          return;
        }
      }
    }

    /** The last of `n` turns led from `before` to the history there is, and was
        due: input had not ended then, or some child was still running. */
    ghost predicate LastTurn(start: Files, wakes: seq<Wake>, conds: seq<Conditions>, n: nat, before: seq<Entry>)
      requires 0 < n <= |wakes| && n <= |conds|
      reads this
    {
      var m := n - 1;
      var wake, cond, closing, buffer := wakes[m], conds[m], EndOfInput in wakes[..m], Rest(Fed(wakes[..m]));
      && (m > 0 && closing ==> exists id :: Status(text, before, id).Running?)
      && exists held: Files ::
        Ran(text, read, start, wakes, conds, m, held, before) && Turned(text, read, held, before, wake, cond, closing, buffer, files, log)
    }

    lemma {:induction false} SomeoneRuns()
      requires Live()
      ensures children != map[] ==> exists id :: Status(text, log, id).Running?
    {
      if children != map[] {
        var id :| id in children;
        RowIs(text, log, children, files, id);
      }
    }

    /** What holds of every job id, at every moment the server is between steps:
        its requests are its answers plus one while it runs, and what was
        forwarded for it is, life by life, what its file held when last read. */
    lemma {:induction false} Promises(id: string)
      requires Valid(None)
      ensures !LifeOf(text, log, id).Broken? && (LifeOf(text, log, id).Running? <==> id in children)
      ensures id != "" ==>
        Tally(jobOf, log, JobMessage(id)) == Answers(jobOf, log, id) + (if id in children then 1 else 0)
      ensures Tally(jobOf, log, Sigterm(id)) <= Tally(jobOf, log, Kind.Start(id))
      ensures ForwardedFor(log, id) == Past(text, log, id) + if id in children then Due(text, LifeRead(log, id)) else []
    {
      At(text, log, children, files, id);
      StartsAreFinished(text, jobOf, log, id);
      if id != "" {
        assert Admitted(jobOf, log, id, None);
        AnsweredExactlyOnce(text, jobOf, log, id);
      }
      ForwardsLifeByLife(text, log, id);
    }
  }

  /** A line asking for the job `id`, in this server's codec. */
  ghost predicate Asks(s: Server, request: Bytes, id: string) {
    s.text(request) != "" && s.read(s.text(request)) == Job(Some(id), Some(JobRequest(id, false)))
  }

  /** The server run on the same job twice: a reused id reads its file again from
      the start, so every line the file holds is forwarded twice. */
  method ReusedIdRepeatsItsLines(s: Server, request: Bytes, id: string, file: Bytes)
    requires s.Valid(None) && s.log == [] && s.children == map[] && s.environ == map[]
    requires Asks(s, request, id) && File(s.files, id) <= file
    modifies s
    ensures s.Valid(None) && File(s.files, id) == file
    ensures ForwardedFor(s.log, id) == Due(s.text, file) + Due(s.text, file)
  {
    assert Earlier(s.text, s.log, id) == [];
    OneLife(s, request, id, file);
    assert Earlier(s.text, s.log, id) == Due(s.text, file);
    OneLife(s, request, id, file);
    s.Promises(id);
  }

  /** One life: the request, and the exit of the child it started. */
  method OneLife(s: Server, request: Bytes, id: string, file: Bytes)
    requires s.Valid(None) && s.Exported() && Eof !in s.log && id !in s.children
    requires Asks(s, request, id) && File(s.files, id) <= file
    modifies s
    ensures s.Valid(None) && s.Exported() && Eof !in s.log && id !in s.children && File(s.files, id) == file
    ensures Earlier(s.text, s.log, id) == Earlier(s.text, old(s.log), id) + Due(s.text, file)
  {
    Begin(s, request, id);
    End(s, id, file);
  }

  method End(s: Server, id: string, file: Bytes)
    requires s.Valid(None) && s.Exported() && Eof !in s.log && id in s.children && File(s.files, id) <= file
    modifies s
    ensures s.Valid(None) && s.Exported() && Eof !in s.log && id !in s.children && File(s.files, id) == file
    ensures Earlier(s.text, s.log, id) == Earlier(s.text, old(s.log), id) + Due(s.text, file)
  {
    ghost var before := s.log;
    s.Collect(id, ResultFile, Some(file));
    s.NobodyAsked(before);
  }

  method Begin(s: Server, request: Bytes, id: string)
    requires s.Valid(None) && s.Exported() && Eof !in s.log && id !in s.children && Asks(s, request, id)
    modifies s
    ensures s.Valid(None) && s.Exported() && Eof !in s.log && id in s.children && s.files == old(s.files)
    ensures Earlier(s.text, s.log, id) == Earlier(s.text, old(s.log), id)
  {
    ghost var before := s.log;
    RowIs(s.text, s.log, s.children, s.files, id);
    s.Handle(request, true);
    StartsIt(s.text, s.read, before, request, id, s.log);
    RowIs(s.text, s.log, s.children, s.files, id);
  }

  /** A request for an idle job, with nothing in the way, starts it. */
  lemma {:induction false} StartsIt(text: Decoder, read: Reader, log: seq<Entry>, line: Bytes, id: string, log': seq<Entry>)
    requires text(line) != "" && read(text(line)) == Job(Some(id), Some(JobRequest(id, false)))
    requires HandledOne(text, read, log, line, true, log') && Status(text, log, id).Idle?
    ensures Status(text, log', id).Running? && Earlier(text, log', id) == Earlier(text, log, id)
  {
    var asked := log + [Received(line)];
    var r: seq<Entry> :| log' == log + [Received(line)] + r && Answer(text, read, log, line, true, r);
    assert log' == asked + [Started(id, false)];
    EarlierStep(text, log, Received(line), id);
    EarlierStep(text, asked, Started(id, false), id);
  }
}

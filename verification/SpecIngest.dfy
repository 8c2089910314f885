/** The spec ingester of tools/learn/ingest_spec.go: parseSpec with its two flush closures, against a
    definition that gives every anchor line its own record. */
module SpecIngest {

  import opened Prelude
  import opened Text
  import opened SpecRecords

  // ---- The parser ----

  datatype Pending =
    | Nothing
    | OpenTask(id: string, files: seq<string>, text: string)
    | OpenStep(seenAt: int, text: string)

  datatype Scan = Scan(records: seq<Record>, inLog: bool, pending: Pending)

  predicate Good(st: Scan) {
    (st.pending.OpenTask? ==> !st.inLog) && (st.pending.OpenStep? ==> st.inLog)
  }

  function FlushTo(env: Env, pending: Pending): seq<Record> {
    match pending
    case Nothing => []
    case OpenTask(id, files, text) => [TaskRecord(env, id, files, text)]
    case OpenStep(seenAt, text) => [StepRecord(env, seenAt, text)]
  }

  function Flush(env: Env, st: Scan): Scan {
    st.(records := st.records + FlushTo(env, st.pending), pending := Nothing)
  }

  /** One turn of the line loop. */
  function Feed(env: Env, st: Scan, line: string): Scan {
    if IsSection(line) then Flush(env, st).(inLog := OpensLog(line))
    else if st.inLog then
      match env.logHeader(line)
      case Some(h) => Flush(env, st).(pending := OpenStep(env.logTime(h.stamp), TrimSpace(h.name) + "\n"))
      case None =>
        if st.pending.OpenStep? then st.(pending := st.pending.(text := st.pending.text + line + "\n")) else st
    else
      match env.taskDone(line)
      case Some(t) => Flush(env, st).(pending := OpenTask(t.id, [], TaskHead(t)))
      case None =>
        if !st.pending.OpenTask? then st
        else if InBlock(env, line) then
          st.(pending := OpenTask(st.pending.id, st.pending.files + FilesOf(env, line), st.pending.text + line + "\n"))
        else Flush(env, st)
  }

  /** What the pending entry will have become when its block ends. */
  function Completed(env: Env, pending: Pending, lines: seq<string>, k: nat): Pending
    requires k <= |lines|
  {
    match pending
    case Nothing => Nothing
    case OpenTask(id, files, text) =>
      OpenTask(id, files + BlockFiles(env, lines, k), text + BlockText(env, lines, k))
    case OpenStep(seenAt, text) => OpenStep(seenAt, text + StepText(env, lines, k))
  }

  /** The records so far, the one that is being collected, and those of the lines to come. */
  function Total(env: Env, st: Scan, lines: seq<string>, k: nat): seq<Record>
    requires k <= |lines|
  {
    st.records + FlushTo(env, Completed(env, st.pending, lines, k)) + RecordsFrom(env, lines, k)
  }

  ghost predicate Follows(env: Env, st: Scan, lines: seq<string>, k: nat)
    requires k <= |lines|
  {
    Good(st) && st.inLog == InLog(lines, k) && Total(env, st, lines, k) == RecordsFrom(env, lines, 0)
  }

  /** Whether the line belongs to the block of the pending entry. */
  predicate Continues(env: Env, pending: Pending, line: string) {
    (pending.OpenTask? && InBlock(env, line)) || (pending.OpenStep? && InStep(env, line))
  }

  /** The block of the pending entry ends before line `k`. */
  lemma {:induction false} BlockEnds(env: Env, pending: Pending, lines: seq<string>, k: nat)
    requires k <= |lines|
    requires k < |lines| ==> !Continues(env, pending, lines[k])
    ensures Completed(env, pending, lines, k) == pending
  {
    match pending
    case Nothing =>
    case OpenTask(id, files, text) =>
      assert files + [] == files && text + "" == text;
    case OpenStep(seenAt, text) =>
      assert text + "" == text;
  }

  lemma {:induction false} BlockGoesOn(env: Env, st: Scan, lines: seq<string>, k: nat)
    requires k < |lines| && Good(st)
    requires Continues(env, st.pending, lines[k])
    ensures Completed(env, Feed(env, st, lines[k]).pending, lines, k + 1) == Completed(env, st.pending, lines, k)
  {
    var line := lines[k];
    match st.pending
    case OpenTask(id, files, text) =>
      var (moreFiles, moreText) := (BlockFiles(env, lines, k + 1), BlockText(env, lines, k + 1));
      assert files + (FilesOf(env, line) + moreFiles) == files + FilesOf(env, line) + moreFiles;
      assert text + (line + "\n" + moreText) == text + line + "\n" + moreText;
    case OpenStep(seenAt, text) =>
      var moreText := StepText(env, lines, k + 1);
      assert text + (line + "\n" + moreText) == text + line + "\n" + moreText;
  }

  lemma {:induction false} OpensEntry(env: Env, st: Scan, lines: seq<string>, k: nat)
    requires k < |lines| && Good(st) && st.inLog == InLog(lines, k) && IsAnchor(env, lines, k)
    ensures Feed(env, st, lines[k]).records == st.records + FlushTo(env, st.pending)
    ensures FlushTo(env, Completed(env, Feed(env, st, lines[k]).pending, lines, k + 1)) == [RecordAt(env, lines, k)]
  {
    assert [] + BlockFiles(env, lines, k + 1) == BlockFiles(env, lines, k + 1);
  }

  lemma {:induction false} Regroup(a: seq<Record>, b: seq<Record>, c: seq<Record>, d: seq<Record>)
    ensures a + b + (c + d) == (a + b) + c + d
    ensures (a + b) + [] + d == a + b + ([] + d)
  {
  }

  lemma {:induction false} FeedKeepsTotal(env: Env, st: Scan, lines: seq<string>, k: nat)
    requires k < |lines| && Good(st) && st.inLog == InLog(lines, k)
    ensures Total(env, Feed(env, st, lines[k]), lines, k + 1) == Total(env, st, lines, k)
  {
    var line := lines[k];
    var next := Feed(env, st, line);
    var rest := RecordsFrom(env, lines, k + 1);
    if IsAnchor(env, lines, k) {
      OpensEntry(env, st, lines, k);
      BlockEnds(env, st.pending, lines, k);
      Regroup(st.records, FlushTo(env, st.pending), [RecordAt(env, lines, k)], rest);
    } else {
      assert RecordsFrom(env, lines, k) == [] + rest == rest;
      if Continues(env, st.pending, line) {
        BlockGoesOn(env, st, lines, k);
      } else {
        BlockEnds(env, st.pending, lines, k);
        Regroup(st.records, FlushTo(env, st.pending), [], rest);
      }
    }
  }

  lemma {:induction false} FeedFollows(env: Env, st: Scan, lines: seq<string>, k: nat)
    requires k < |lines| && Follows(env, st, lines, k)
    ensures Follows(env, Feed(env, st, lines[k]), lines, k + 1)
  {
    FeedKeepsTotal(env, st, lines, k);
  }

  lemma {:induction false} StartFollows(env: Env, lines: seq<string>)
    ensures Follows(env, Scan([], false, Nothing), lines, 0)
  {
    assert [] + [] + RecordsFrom(env, lines, 0) == RecordsFrom(env, lines, 0);
  }

  lemma {:induction false} EndFollows(env: Env, st: Scan, lines: seq<string>)
    requires Follows(env, st, lines, |lines|)
    ensures Flush(env, st).records == RecordsFrom(env, lines, 0)
  {
    BlockEnds(env, st.pending, lines, |lines|);
    assert Flush(env, st).records + [] == Flush(env, st).records;
  }

  /** The variables of the parse and the two closures that flush them. */
  class Collector {
    const env: Env
    var records: seq<Record>
    var statusSeen: string
    var inTaskBlock: bool
    var taskID: string
    var taskFiles: seq<string>
    var taskBody: string
    var inExecLog: bool
    var curLogSeenAt: int
    var curLogBody: string
    var curLogHasHeader: bool

    constructor (env: Env)
      ensures this.env == env && Valid() && State() == Scan([], false, Nothing) && statusSeen == ""
    {
      this.env := env;
      records, statusSeen := [], "";
      inTaskBlock, taskID, taskFiles, taskBody := false, "", [], "";
      inExecLog, curLogSeenAt, curLogBody, curLogHasHeader := false, 0, "", false;
    }

    ghost predicate Valid()
      reads this
    {
      && (inTaskBlock ==> !inExecLog && !curLogHasHeader)
      && (curLogHasHeader ==> inExecLog)
      && (!inTaskBlock ==> taskFiles == [] && taskBody == "")
      && (!curLogHasHeader ==> curLogBody == "")
    }

    ghost function State(): Scan
      reads this
    {
      Scan(records, inExecLog,
           if inTaskBlock then OpenTask(taskID, taskFiles, taskBody)
           else if curLogHasHeader then OpenStep(curLogSeenAt, curLogBody)
           else Nothing)
    }

    method FlushTask()
      requires Valid()
      modifies this
      ensures Valid() && statusSeen == old(statusSeen)
      ensures State() == if old(inTaskBlock) then Flush(env, old(State())) else old(State())
    {
      if !inTaskBlock {
        return;
      }
      records := records + [TaskRecord(env, taskID, taskFiles, taskBody)];
      inTaskBlock, taskID, taskFiles, taskBody := false, "", [], "";
    }

    method FlushLog()
      requires Valid()
      modifies this
      ensures Valid() && statusSeen == old(statusSeen)
      ensures State() == if old(curLogHasHeader) then Flush(env, old(State())) else old(State())
    {
      if !curLogHasHeader {
        return;
      }
      records := records + [StepRecord(env, curLogSeenAt, curLogBody)];
      curLogSeenAt, curLogBody, curLogHasHeader := 0, "", false;
    }

    method EnterSection(line: string)
      requires Valid() && IsSection(line)
      modifies this
      ensures Valid() && State() == Feed(env, old(State()), line)
      ensures statusSeen == if env.status(line).Some? then env.status(line).value else old(statusSeen)
    {
      if inExecLog {
        FlushLog();
      }
      if inTaskBlock {
        FlushTask();
      }
      assert records + [] == records;
      inExecLog := "## Execution Log" <= line;
      var m := env.status(line);
      if m.Some? {
        statusSeen := m.value;
      }
    }

    method ReadLogLine(line: string)
      requires Valid() && !IsSection(line) && inExecLog
      modifies this
      ensures Valid() && statusSeen == old(statusSeen) && State() == Feed(env, old(State()), line)
    {
      var m := env.logHeader(line);
      if m.Some? {
        FlushLog();
        assert records + [] == records;
        curLogSeenAt, curLogHasHeader := env.logTime(m.value.stamp), true;
        assert "" + TrimSpace(m.value.name) == TrimSpace(m.value.name);
        curLogBody := curLogBody + TrimSpace(m.value.name);
        curLogBody := curLogBody + "\n";
        return;
      }
      if curLogHasHeader {
        curLogBody := curLogBody + line;
        curLogBody := curLogBody + "\n";
      }
    }

    method ReadTaskLine(line: string)
      requires Valid() && !IsSection(line) && !inExecLog
      modifies this
      ensures Valid() && statusSeen == old(statusSeen) && State() == Feed(env, old(State()), line)
    {
      var m := env.taskDone(line);
      if m.Some? {
        FlushTask();
        assert records + [] == records;
        inTaskBlock, taskID := true, m.value.id;
        var taskTitle := TrimSpace(m.value.title);
        assert "" + taskID == taskID && taskID + "" == taskID;
        assert taskID + " " + taskTitle == taskID + (" " + taskTitle);
        taskBody := taskBody + taskID;
        if taskTitle != "" {
          taskBody := taskBody + " ";
          taskBody := taskBody + taskTitle;
        }
        taskBody := taskBody + "\n";
        return;
      }
      if inTaskBlock {
        var files := env.filesLine(line);
        if files.Some? {
          taskFiles := taskFiles + files.value;
          taskBody := taskBody + line;
          taskBody := taskBody + "\n";
          return;
        }
        if line == "" {
          FlushTask();
          return;
        }
        if "- " <= line || "#" <= line {
          // A completed task would have been taken above, so nothing can reopen here.
          FlushTask();
          return;
        }
        assert taskFiles + [] == taskFiles;
        taskBody := taskBody + line;
        taskBody := taskBody + "\n";
      }
    }
  }

  method ParseSpec(env: Env, lines: seq<string>) returns (records: seq<Record>)
    ensures records == Expected(env, lines)
    ensures exists state, ks :: TellDocument(env, lines, records, state, ks)
  {
    var c := new Collector(env);
    StartFollows(env, lines);
    for i := 0 to |lines|
      invariant c.env == env && c.Valid() && Follows(env, c.State(), lines, i)
      invariant c.statusSeen == LastStatus(env, lines, i)
    {
      FeedFollows(env, c.State(), lines, i);
      if "## " <= lines[i] {
        c.EnterSection(lines[i]);
      } else if c.inExecLog {
        c.ReadLogLine(lines[i]);
      } else {
        c.ReadTaskLine(lines[i]);
      }
    }
    EndFollows(env, c.State(), lines);
    assert c.records + [] == c.records;
    if c.inTaskBlock {
      c.FlushTask();
    }
    if c.inExecLog {
      c.FlushLog();
    }
    records := c.records;
    assert [] + records == records;
    if StatusEmittedFor(env, c.statusSeen) {
      records := [StatusRecord(env, c.statusSeen)] + records;
    }
    ExpectedTells(env, lines);
  }
}

/** The records that parseSpec (tools/learn/ingest_spec.go) owes a document, and what each of them tells. */
module SpecRecords {

  import opened Prelude
  import opened Text
  import opened Picking

  datatype TaskLine = TaskLine(id: string, title: string)

  datatype LogHeader = LogHeader(name: string, stamp: string)

  /** The regular expressions, splitFiles, the TDD tokens, the clock, upper-casing and the sanitizer. */
  datatype Env = Env(
    source: string,
    now: int,
    status: string -> Option<string>,
    taskDone: string -> Option<TaskLine>,
    filesLine: string -> Option<seq<string>>,
    logHeader: string -> Option<LogHeader>,
    logTime: string -> int,
    tddTokens: string -> seq<string>,
    upper: string -> string,
    sanitize: string -> string)

  datatype Kind = StatusTransition | Task | TDDStep

  datatype Record = Record(source: string, kind: Kind, tokens: seq<string>, seenAt: int, body: string)

  function SanitizeAll(env: Env, tokens: seq<string>): seq<string> {
    seq(|tokens|, i requires 0 <= i < |tokens| => env.sanitize(tokens[i]))
  }

  function TaskRecord(env: Env, id: string, files: seq<string>, text: string): Record {
    Record(env.source, Task, SanitizeAll(env, [id] + files), env.now, env.sanitize(TrimNewlines(text)))
  }

  function StepRecord(env: Env, seenAt: int, text: string): Record {
    Record(env.source, TDDStep, SanitizeAll(env, env.tddTokens(text)), seenAt, env.sanitize(TrimNewlines(text)))
  }

  function StatusRecord(env: Env, state: string): Record {
    Record(env.source, StatusTransition, [env.sanitize(env.upper(state))], env.now, env.sanitize("Status: " + state))
  }

  predicate StatusEmittedFor(env: Env, state: string) {
    env.upper(TrimSpace(state)) in {"IN_PROGRESS", "DONE", "FAILED"}
  }

  // ---- What the records should be ----

  predicate IsSection(line: string) {
    "## " <= line
  }

  predicate OpensLog(line: string) {
    "## Execution Log" <= line
  }

  /** Whether line `k` lies in an execution log: whether the last section before it opened one. */
  predicate InLog(lines: seq<string>, k: nat)
    requires k <= |lines|
  {
    k > 0 && if IsSection(lines[k - 1]) then OpensLog(lines[k - 1]) else InLog(lines, k - 1)
  }

  /** The status of the last section heading before `k` that states one. */
  function LastStatus(env: Env, lines: seq<string>, k: nat): string
    requires k <= |lines|
  {
    if k == 0 then ""
    else if IsSection(lines[k - 1]) && env.status(lines[k - 1]).Some? then env.status(lines[k - 1]).value
    else LastStatus(env, lines, k - 1)
  }

  /** A line that belongs to the task block above it. */
  predicate InBlock(env: Env, line: string) {
    && !IsSection(line) && env.taskDone(line).None?
    && (env.filesLine(line).Some? || (line != "" && !("- " <= line) && !("#" <= line)))
  }

  function FilesOf(env: Env, line: string): seq<string> {
    if env.filesLine(line).Some? then env.filesLine(line).value else []
  }

  /** The files and the text of the block lines from `k` on. */
  function BlockFiles(env: Env, lines: seq<string>, k: nat): seq<string>
    requires k <= |lines|
    decreases |lines| - k
  {
    if k < |lines| && InBlock(env, lines[k]) then FilesOf(env, lines[k]) + BlockFiles(env, lines, k + 1) else []
  }

  function BlockText(env: Env, lines: seq<string>, k: nat): string
    requires k <= |lines|
    decreases |lines| - k
  {
    if k < |lines| && InBlock(env, lines[k]) then lines[k] + "\n" + BlockText(env, lines, k + 1) else ""
  }

  predicate InStep(env: Env, line: string) {
    !IsSection(line) && env.logHeader(line).None?
  }

  function StepText(env: Env, lines: seq<string>, k: nat): string
    requires k <= |lines|
    decreases |lines| - k
  {
    if k < |lines| && InStep(env, lines[k]) then lines[k] + "\n" + StepText(env, lines, k + 1) else ""
  }

  function TaskHead(t: TaskLine): string {
    t.id + (if TrimSpace(t.title) != "" then " " + TrimSpace(t.title) else "") + "\n"
  }

  /** The lines that are due a record: completed tasks outside the execution log, step headers inside it. */
  predicate IsAnchor(env: Env, lines: seq<string>, k: nat)
    requires k < |lines|
  {
    && !IsSection(lines[k])
    && if InLog(lines, k) then env.logHeader(lines[k]).Some? else env.taskDone(lines[k]).Some?
  }

  /** The record of an anchor: the line itself and the lines of its own block. */
  function RecordAt(env: Env, lines: seq<string>, k: nat): Record
    requires k < |lines| && IsAnchor(env, lines, k)
  {
    if InLog(lines, k) then
      var h := env.logHeader(lines[k]).value;
      StepRecord(env, env.logTime(h.stamp), TrimSpace(h.name) + "\n" + StepText(env, lines, k + 1))
    else
      var t := env.taskDone(lines[k]).value;
      TaskRecord(env, t.id, BlockFiles(env, lines, k + 1), TaskHead(t) + BlockText(env, lines, k + 1))
  }

  function RecordsFrom(env: Env, lines: seq<string>, k: nat): seq<Record>
    requires k <= |lines|
    decreases |lines| - k
  {
    if k == |lines| then []
    else (if IsAnchor(env, lines, k) then [RecordAt(env, lines, k)] else []) + RecordsFrom(env, lines, k + 1)
  }

  function Expected(env: Env, lines: seq<string>): seq<Record> {
    var state := LastStatus(env, lines, |lines|);
    (if StatusEmittedFor(env, state) then [StatusRecord(env, state)] else []) + RecordsFrom(env, lines, 0)
  }

  // ---- One record per anchor, in document order ----

  function Anchors(env: Env, lines: seq<string>, k: nat): seq<nat>
    requires k <= |lines|
    decreases |lines| - k
  {
    if k == |lines| then []
    else (if IsAnchor(env, lines, k) then [k] else []) + Anchors(env, lines, k + 1)
  }

  ghost predicate AnchorsOnly(env: Env, lines: seq<string>, k: nat, ks: seq<nat>) {
    forall p :: p in ks <==> k <= p < |lines| && IsAnchor(env, lines, p)
  }

  lemma {:induction false} PutFirst(k: nat, ks: seq<nat>)
    requires Ascending(ks) && forall p :: p in ks ==> k < p
    ensures Ascending([k] + ks)
  {
    forall i, j | 0 <= i < j < |ks| + 1
      ensures ([k] + ks)[i] < ([k] + ks)[j]
    {
      assert ks[j - 1] in ks;
    }
  }

  /** The positions of the anchors, each once, in order. */
  lemma {:induction false} AnchorsAreExact(env: Env, lines: seq<string>, k: nat)
    requires k <= |lines|
    ensures AnchorsOnly(env, lines, k, Anchors(env, lines, k)) && Ascending(Anchors(env, lines, k))
    decreases |lines| - k
  {
    if k < |lines| {
      AnchorsAreExact(env, lines, k + 1);
      if IsAnchor(env, lines, k) {
        PutFirst(k, Anchors(env, lines, k + 1));
      }
    }
  }

  ghost predicate RecordsOf(env: Env, lines: seq<string>, ks: seq<nat>, records: seq<Record>) {
    && |records| == |ks|
    && forall i :: 0 <= i < |ks| ==>
         ks[i] < |lines| && IsAnchor(env, lines, ks[i]) && records[i] == RecordAt(env, lines, ks[i])
  }

  lemma {:induction false} RecordsOfMore(env: Env, lines: seq<string>, k: nat, ks: seq<nat>, records: seq<Record>)
    requires k < |lines| && IsAnchor(env, lines, k) && RecordsOf(env, lines, ks, records)
    ensures RecordsOf(env, lines, [k] + ks, [RecordAt(env, lines, k)] + records)
  {
    forall i | 0 <= i < |ks| + 1
      ensures var p := ([k] + ks)[i];
              p < |lines| && IsAnchor(env, lines, p) && ([RecordAt(env, lines, k)] + records)[i] ==
                  RecordAt(env, lines, p)
    {
      if i > 0 {
        assert ([k] + ks)[i] == ks[i - 1];
      }
    }
  }

  /** The records after the status are those of the anchors, one each, in document order. */
  lemma {:induction false} OneRecordPerAnchor(env: Env, lines: seq<string>, k: nat)
    requires k <= |lines|
    ensures RecordsOf(env, lines, Anchors(env, lines, k), RecordsFrom(env, lines, k))
    decreases |lines| - k
  {
    if k < |lines| {
      OneRecordPerAnchor(env, lines, k + 1);
      if IsAnchor(env, lines, k) {
        RecordsOfMore(env, lines, k, Anchors(env, lines, k + 1), RecordsFrom(env, lines, k + 1));
      } else {
        assert [] + Anchors(env, lines, k + 1) == Anchors(env, lines, k + 1);
        assert [] + RecordsFrom(env, lines, k + 1) == RecordsFrom(env, lines, k + 1);
      }
    }
  }

  /** Where the block of lines from `k` on ends. */
  function BlockEnd(env: Env, lines: seq<string>, k: nat, inLog: bool): nat
    requires k <= |lines|
    decreases |lines| - k
  {
    if k < |lines| && (if inLog then InStep(env, lines[k]) else InBlock(env, lines[k])) then
      BlockEnd(env, lines, k + 1, inLog)
    else k
  }

  /** A block ends before the next anchor, so no line is collected for two records. */
  lemma {:induction false} BlocksAreDisjoint(env: Env, lines: seq<string>, k: nat, next: nat)
    requires k <= next < |lines| && IsAnchor(env, lines, next)
    ensures k <= BlockEnd(env, lines, k, InLog(lines, k)) <= next
    decreases next - k
  {
    if k < next && BlockEnd(env, lines, k, InLog(lines, k)) != k {
      BlocksAreDisjoint(env, lines, k + 1, next);
    }
  }

  lemma {:induction false} UnlinesFrom(lines: seq<string>, k: nat, end: nat)
    requires k < end <= |lines|
    ensures Unlines(lines[k..end]) == lines[k] + "\n" + Unlines(lines[k + 1..end])
  {
    UnlinesFirst(lines[k], lines[k + 1..end]);
    assert lines[k..end] == [lines[k]] + lines[k + 1..end];
  }

  /** The text of a record's block is its lines, every one of them. */
  lemma {:induction false} BlockIsItsLines(env: Env, lines: seq<string>, k: nat)
    requires k <= |lines|
    ensures k <= BlockEnd(env, lines, k, false) <= |lines| && k <= BlockEnd(env, lines, k, true) <= |lines|
    ensures BlockText(env, lines, k) == Unlines(lines[k..BlockEnd(env, lines, k, false)])
    ensures StepText(env, lines, k) == Unlines(lines[k..BlockEnd(env, lines, k, true)])
    decreases |lines| - k
  {
    if k < |lines| {
      BlockIsItsLines(env, lines, k + 1);
      var (task, step) := (BlockEnd(env, lines, k, false), BlockEnd(env, lines, k, true));
      if InBlock(env, lines[k]) {
        UnlinesFrom(lines, k, task);
      }
      if InStep(env, lines[k]) {
        UnlinesFrom(lines, k, step);
      }
    }
  }

  // ---- What each record tells, by positions in the document ----

  /** Line `k` lies in an execution log: the last section heading above it opens one. */
  ghost predicate UnderLog(lines: seq<string>, k: nat) {
    exists p :: 0 <= p < k && OpensLogAt(lines, p, k)
  }

  predicate OpensLogAt(lines: seq<string>, p: nat, k: nat) {
    p < k <= |lines| && "## Execution Log" <= lines[p] && forall q :: p < q < k ==> !("## " <= lines[q])
  }

  ghost predicate DoneTaskAt(env: Env, lines: seq<string>, k: nat) {
    k < |lines| && !("## " <= lines[k]) && !UnderLog(lines, k) && env.taskDone(lines[k]).Some?
  }

  ghost predicate StepAt(env: Env, lines: seq<string>, k: nat) {
    k < |lines| && !("## " <= lines[k]) && UnderLog(lines, k) && env.logHeader(lines[k]).Some?
  }

  /** A line that no longer belongs to the task above it. */
  predicate EndsTask(env: Env, line: string) {
    || "## " <= line || env.taskDone(line).Some?
    || (env.filesLine(line).None? && (line == "" || "- " <= line || "#" <= line))
  }

  predicate EndsStep(env: Env, line: string) {
    "## " <= line || env.logHeader(line).Some?
  }

  ghost predicate TaskEndsAt(env: Env, lines: seq<string>, k: nat, end: nat) {
    && k <= end <= |lines| && (forall p :: k <= p < end ==> !EndsTask(env, lines[p]))
    && (end < |lines| ==> EndsTask(env, lines[end]))
  }

  ghost predicate StepEndsAt(env: Env, lines: seq<string>, k: nat, end: nat) {
    && k <= end <= |lines| && (forall p :: k <= p < end ==> !EndsStep(env, lines[p]))
    && (end < |lines| ==> EndsStep(env, lines[end]))
  }

  /** The files that the lines at some positions name, one line after the other. */
  function FilesAt(env: Env, lines: seq<string>, ps: seq<nat>): seq<string> {
    if ps == [] then []
    else
      (if ps[0] < |lines| && env.filesLine(lines[ps[0]]).Some? then env.filesLine(lines[ps[0]]).value else [])
      + FilesAt(env, lines, ps[1..])
  }

  /** The positions of the files lines from `k` up to `end`. */
  ghost predicate AreFilesLines(env: Env, lines: seq<string>, k: nat, end: nat, ps: seq<nat>) {
    Ascending(ps) && forall p: nat :: p in ps <==> k <= p < end && p < |lines| && env.filesLine(lines[p]).Some?
  }

  ghost predicate AreSanitized(env: Env, tokens: seq<string>, raw: seq<string>) {
    |tokens| == |raw| && forall i :: 0 <= i < |raw| ==> tokens[i] == env.sanitize(raw[i])
  }

  /** The record of a completed task: its id and, in order, the files of its block; its text is the id, the title
      and the lines of the block. */
  ghost predicate TellsTask(env: Env, lines: seq<string>, k: nat, end: nat, ps: seq<nat>, r: Record)
    requires k < end <= |lines| && env.taskDone(lines[k]).Some?
  {
    var (t, files) := (env.taskDone(lines[k]).value, FilesAt(env, lines, ps));
    var title := if AllSpace(t.title) then "" else " " + TrimSpace(t.title);
    && r.source == env.source && r.kind == Task && r.seenAt == env.now
    && AreSanitized(env, r.tokens, [t.id] + files)
    && r.body == env.sanitize(TrimNewlines(t.id + title + "\n" + Unlines(lines[k + 1..end])))
  }

  /** The record of a log entry: the tokens of its text, which is the name and the lines of the entry. */
  ghost predicate TellsStep(env: Env, lines: seq<string>, k: nat, end: nat, r: Record)
    requires k < end <= |lines| && env.logHeader(lines[k]).Some?
  {
    var h := env.logHeader(lines[k]).value;
    var text := TrimSpace(h.name) + "\n" + Unlines(lines[k + 1..end]);
    && r.source == env.source && r.kind == TDDStep && r.seenAt == env.logTime(h.stamp)
    && AreSanitized(env, r.tokens, env.tddTokens(text)) && r.body == env.sanitize(TrimNewlines(text))
  }

  ghost predicate TellsLine(env: Env, lines: seq<string>, k: nat, r: Record) {
    || (DoneTaskAt(env, lines, k) && exists end, ps ::
          TaskEndsAt(env, lines, k + 1, end) && AreFilesLines(env, lines, k + 1, end, ps)
          && TellsTask(env, lines, k, end, ps, r))
    || (StepAt(env, lines, k) && exists end :: StepEndsAt(env, lines, k + 1, end) && TellsStep(env, lines, k, end, r))
  }

  predicate StatesStatus(env: Env, line: string) {
    "## " <= line && env.status(line).Some?
  }

  /** The status stated last above line `k`, in a section heading; the empty one if none is. */
  ghost predicate IsStatusBefore(env: Env, lines: seq<string>, k: nat, state: string)
    requires k <= |lines|
  {
    || (state == "" && forall q :: 0 <= q < k ==> !StatesStatus(env, lines[q]))
    || exists p :: 0 <= p < k && StatesLastBefore(env, lines, p, k) && env.status(lines[p]) == Some(state)
  }

  predicate StatesLastBefore(env: Env, lines: seq<string>, p: nat, k: nat)
    requires p < k <= |lines|
  {
    StatesStatus(env, lines[p]) && forall q :: p < q < k ==> !StatesStatus(env, lines[q])
  }

  /** The records of a document: that of its last status, if it is one of the three, and then one for each
      completed task outside the execution log and each entry inside it, in their order. */
  ghost predicate TellDocument(env: Env, lines: seq<string>, records: seq<Record>, state: string, ks: seq<nat>) {
    var status := if env.upper(TrimSpace(state)) in {"IN_PROGRESS", "DONE", "FAILED"} then
        [Record(env.source, StatusTransition, [env.sanitize(env.upper(state))], env.now,
                env.sanitize("Status: " + state))]
      else [];
    && IsStatusBefore(env, lines, |lines|, state)
    && Ascending(ks) && (forall k: nat :: k in ks <==> DoneTaskAt(env, lines, k) || StepAt(env, lines, k))
    && status <= records && |records| == |status| + |ks|
    && forall i :: 0 <= i < |ks| ==> TellsLine(env, lines, ks[i], records[|status| + i])
  }

  lemma {:induction false} InLogIsUnderLog(lines: seq<string>, k: nat)
    requires k <= |lines|
    ensures InLog(lines, k) <==> UnderLog(lines, k)
  {
    if k > 0 {
      InLogIsUnderLog(lines, k - 1);
      if "## " <= lines[k - 1] {
        if UnderLog(lines, k) {
          var p :| 0 <= p < k && OpensLogAt(lines, p, k);
          assert p == k - 1;
        }
        if InLog(lines, k) {
          assert OpensLogAt(lines, k - 1, k);
        }
      } else {
        SameLog(lines, k);
      }
    }
  }

  lemma {:induction false} SameLog(lines: seq<string>, k: nat)
    requires 0 < k <= |lines| && !("## " <= lines[k - 1])
    ensures UnderLog(lines, k) <==> UnderLog(lines, k - 1)
  {
    if UnderLog(lines, k) {
      var p :| 0 <= p < k && OpensLogAt(lines, p, k);
      LogIsSection(lines[p]);
      assert OpensLogAt(lines, p, k - 1);
    }
    if UnderLog(lines, k - 1) {
      var p :| 0 <= p < k - 1 && OpensLogAt(lines, p, k - 1);
      assert OpensLogAt(lines, p, k);
    }
  }

  lemma {:induction false} LogIsSection(line: string)
    requires "## Execution Log" <= line
    ensures "## " <= line
  {
    assert "## " <= "## Execution Log";
  }

  lemma {:induction false} AnchorIs(env: Env, lines: seq<string>, k: nat)
    requires k < |lines|
    ensures IsAnchor(env, lines, k) <==> DoneTaskAt(env, lines, k) || StepAt(env, lines, k)
    ensures IsAnchor(env, lines, k) ==> (InLog(lines, k) <==> StepAt(env, lines, k))
  {
    InLogIsUnderLog(lines, k);
  }

  lemma {:induction false} BlockEndsThere(env: Env, lines: seq<string>, k: nat)
    requires k <= |lines|
    ensures TaskEndsAt(env, lines, k, BlockEnd(env, lines, k, false))
    ensures StepEndsAt(env, lines, k, BlockEnd(env, lines, k, true))
    decreases |lines| - k
  {
    if k < |lines| {
      BlockEndsThere(env, lines, k + 1);
    }
  }

  function FilesLines(env: Env, lines: seq<string>, k: nat, end: nat): seq<nat>
    requires k <= end <= |lines|
    decreases end - k
  {
    if k == end then []
    else (if env.filesLine(lines[k]).Some? then [k] else []) + FilesLines(env, lines, k + 1, end)
  }

  lemma {:induction false} FilesLinesAreExact(env: Env, lines: seq<string>, k: nat, end: nat)
    requires k <= end <= |lines|
    ensures AreFilesLines(env, lines, k, end, FilesLines(env, lines, k, end))
    decreases end - k
  {
    if k < end {
      FilesLinesAreExact(env, lines, k + 1, end);
      if env.filesLine(lines[k]).Some? {
        PutFirst(k, FilesLines(env, lines, k + 1, end));
      }
    }
  }

  lemma {:induction false} FilesAtFirst(env: Env, lines: seq<string>, k: nat, ps: seq<nat>)
    ensures FilesAt(env, lines, [k] + ps) == FilesAt(env, lines, [k]) + FilesAt(env, lines, ps)
    ensures FilesAt(env, lines, [k]) ==
            if k < |lines| && env.filesLine(lines[k]).Some? then env.filesLine(lines[k]).value else []
  {
    assert ([k] + ps)[1..] == ps && [k][1..] == [];
    assert FilesAt(env, lines, []) == [];
  }

  lemma {:induction false} BlockFilesAre(env: Env, lines: seq<string>, k: nat)
    requires k <= |lines|
    ensures k <= BlockEnd(env, lines, k, false) <= |lines|
    ensures FilesAt(env, lines, FilesLines(env, lines, k, BlockEnd(env, lines, k, false))) == BlockFiles(env, lines, k)
    decreases |lines| - k
  {
    BlockEndsThere(env, lines, k);
    if k < |lines| && InBlock(env, lines[k]) {
      BlockFilesAre(env, lines, k + 1);
      var ps := FilesLines(env, lines, k + 1, BlockEnd(env, lines, k, false));
      if env.filesLine(lines[k]).Some? {
        FilesAtFirst(env, lines, k, ps);
      } else {
        assert [] + ps == ps && [] + BlockFiles(env, lines, k + 1) == BlockFiles(env, lines, k + 1);
      }
    }
  }

  lemma {:induction false} TaskIsTold(env: Env, lines: seq<string>, k: nat)
    requires k < |lines| && IsAnchor(env, lines, k) && !InLog(lines, k)
    ensures TellsLine(env, lines, k, RecordAt(env, lines, k))
  {
    AnchorIs(env, lines, k);
    var end := BlockEnd(env, lines, k + 1, false);
    BlockEndsThere(env, lines, k + 1);
    BlockIsItsLines(env, lines, k + 1);
    var ps := FilesLines(env, lines, k + 1, end);
    BlockFilesAre(env, lines, k + 1);
    FilesLinesAreExact(env, lines, k + 1, end);
    BlankIff(env.taskDone(lines[k]).value.title);
    assert TellsTask(env, lines, k, end, ps, RecordAt(env, lines, k));
  }

  lemma {:induction false} StepIsTold(env: Env, lines: seq<string>, k: nat)
    requires k < |lines| && IsAnchor(env, lines, k) && InLog(lines, k)
    ensures TellsLine(env, lines, k, RecordAt(env, lines, k))
  {
    AnchorIs(env, lines, k);
    var end := BlockEnd(env, lines, k + 1, true);
    BlockEndsThere(env, lines, k + 1);
    BlockIsItsLines(env, lines, k + 1);
    assert TellsStep(env, lines, k, end, RecordAt(env, lines, k));
  }

  lemma {:induction false} LastStatusIs(env: Env, lines: seq<string>, k: nat)
    requires k <= |lines|
    ensures IsStatusBefore(env, lines, k, LastStatus(env, lines, k))
  {
    if k > 0 {
      if StatesStatus(env, lines[k - 1]) {
        assert StatesLastBefore(env, lines, k - 1, k);
      } else {
        LastStatusIs(env, lines, k - 1);
        StatusStays(env, lines, k - 1, LastStatus(env, lines, k - 1));
      }
    }
  }

  lemma {:induction false} StatusStays(env: Env, lines: seq<string>, k: nat, state: string)
    requires k < |lines| && !StatesStatus(env, lines[k]) && IsStatusBefore(env, lines, k, state)
    ensures IsStatusBefore(env, lines, k + 1, state)
  {
    if p :| 0 <= p < k && StatesLastBefore(env, lines, p, k) && env.status(lines[p]) == Some(state) {
      assert StatesLastBefore(env, lines, p, k + 1);
    }
  }

  lemma {:induction false} AnchorPositions(env: Env, lines: seq<string>)
    ensures Ascending(Anchors(env, lines, 0))
    ensures forall k: nat :: k in Anchors(env, lines, 0) <==> DoneTaskAt(env, lines, k) || StepAt(env, lines, k)
  {
    AnchorsAreExact(env, lines, 0);
    forall k: nat | k < |lines|
      ensures IsAnchor(env, lines, k) <==> DoneTaskAt(env, lines, k) || StepAt(env, lines, k)
    {
      AnchorIs(env, lines, k);
    }
  }

  lemma {:induction false} ExpectedTells(env: Env, lines: seq<string>)
    ensures TellDocument(env, lines, Expected(env, lines), LastStatus(env, lines, |lines|), Anchors(env, lines, 0))
  {
    var ks := Anchors(env, lines, 0);
    LastStatusIs(env, lines, |lines|);
    AnchorPositions(env, lines);
    OneRecordPerAnchor(env, lines, 0);
    forall i | 0 <= i < |ks|
      ensures TellsLine(env, lines, ks[i], RecordsFrom(env, lines, 0)[i])
    {
      if InLog(lines, ks[i]) {
        StepIsTold(env, lines, ks[i]);
      } else {
        TaskIsTold(env, lines, ks[i]);
      }
    }
  }
}

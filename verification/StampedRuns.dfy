/** Runs whose time stamps increase are safe: moveToDeprecated in tools/learn/cmd_apply_decision.go. */
module StampedRuns {

  import opened Prelude
  import opened Lifecycle
  import opened LifecycleRuns
  import Lex

  /** The name of a deprecated file: in a directory `_deprecated`, with a stamp. */
  predicate IsStamped(p: Path) {
    p.dir != [] && Last(p.dir) == "_deprecated" && StampOf(p.base).Some?
  }

  /** A deprecated name's stamp is not later than the clock. */
  predicate OldName(p: Path, clock: string) {
    IsStamped(p) ==> Lex.AtMost(StampOf(p.base).value, clock)
  }

  predicate OldEntry(e: AuditEntry, clock: string) {
    OldName(e.source, clock) && OldName(e.deprecated, clock) && IsStamped(e.deprecated)
  }

  ghost predicate NamesAreOld(d: Disk, clock: string) {
    && (forall p :: p in d.files ==> OldName(p, clock))
    && (forall e :: e in d.audit ==> OldEntry(e, clock))
  }

  function ClockAfter(clock: string, op: Op): string {
    if op.Apply? || op.Refine? then op.now.stamp else clock
  }

  /** Stamps increase from one move to the next, merge targets are one line, and no deprecated name is made
      up for a new file. */
  ghost predicate Regular(d: Disk, clock: string, op: Op) {
    match op
    case Record(_) => true
    case Rollback(_) => true
    case Create(path, _) => !IsStamped(path)
    case _ => IsStamp(op.now.stamp) && Lex.Less(clock, op.now.stamp) && OneLine(d, op)
  }

  lemma {:induction false} NameStaysOld(p: Path, clock: string, later: string)
    requires OldName(p, clock) && Lex.AtMost(clock, later)
    ensures OldName(p, later)
  {
    if IsStamped(p) && StampOf(p.base).value != clock && clock != later {
      Lex.LessTransitive(StampOf(p.base).value, clock, later);
    }
  }

  lemma {:induction false} TargetIsStamped(source: Path, stamp: string)
    requires IsStamp(stamp)
    ensures IsStamped(DeprecatedPath(source, stamp)) && StampOf(DeprecatedPath(source, stamp).base) == Some(stamp)
  {
    StampReadsBack(source, stamp);
  }

  /** The path a move is about to use carries a later stamp than every name in use. */
  lemma {:induction false} TargetIsNew(source: Path, stamp: string, p: Path, clock: string)
    requires IsStamp(stamp) && Lex.Less(clock, stamp) && OldName(p, clock)
    ensures DeprecatedPath(source, stamp) != p
  {
    TargetIsStamped(source, stamp);
    Lex.LessIrreflexive(stamp);
    Lex.LessAsymmetric(clock, stamp);
  }

  lemma {:induction false} RegularIsSafe(d: Disk, clock: string, op: Op)
    requires NamesAreOld(d, clock) && Regular(d, clock, op)
    ensures Safe(d, op)
  {
    forall id | Active(d, id)
      ensures OldEntry(FindAudit(d.audit, id).value, clock)
    {
      FoundIsThere(d.audit, id);
    }
    if Applies(d, op).Some? {
      var (source, stamp) := (Applies(d, op).value.1, op.now.stamp);
      forall p | OldName(p, clock)
        ensures p != DeprecatedPath(source, stamp)
      {
        TargetIsNew(source, stamp, p, clock);
      }
    }
  }

  /** The paths in use after a step are those in use before, and `added`. */
  lemma {:induction false} NamesStayOld(d: Disk, d': Disk, clock: string, later: string, added: set<Path>,
      logged: set<AuditEntry>)
    requires NamesAreOld(d, clock) && Lex.AtMost(clock, later)
    requires forall p :: p in d'.files ==> p in d.files || p in added
    requires forall e :: e in d'.audit ==> e in d.audit || e in logged
    requires forall p :: p in added ==> OldName(p, later)
    requires forall e :: e in logged ==> OldEntry(e, later)
    ensures NamesAreOld(d', later)
  {
    forall p | OldName(p, clock)
      ensures OldName(p, later)
    {
      NameStaysOld(p, clock, later);
    }
  }

  lemma {:induction false} MoveKeepsNames(d: Disk, clock: string, op: Op)
    requires NamesAreOld(d, clock) && Regular(d, clock, op) && Applies(d, op).Some?
    ensures NamesAreOld(Run(d, op).0, ClockAfter(clock, op))
  {
    var (id, source) := Applies(d, op).value;
    RunMarks(d, op, id, source);
    var (target, text) := (DeprecatedPath(source, op.now.stamp), MergedText(d, op, source));
    TargetIsStamped(source, op.now.stamp);
    NameStaysOld(source, clock, op.now.stamp);
    NamesStayOld(d, Run(d, op).0, clock, op.now.stamp, {target}, {AuditEntry(id, WasApplied, source, target, text)});
  }

  lemma {:induction false} RollbackKeepsNames(d: Disk, clock: string, id: int)
    requires NamesAreOld(d, clock)
    ensures NamesAreOld(Run(d, Rollback(id)).0, clock)
  {
    FoundIsThere(d.audit, id);
    if Restores(d, Rollback(id)).Some? {
      var e := Restores(d, Rollback(id)).value;
      NamesStayOld(d, Run(d, Rollback(id)).0, clock, clock, {e.source}, {e.(action := WasRolledBack)});
    }
  }

  lemma {:induction false} StepKeepsNames(d: Disk, clock: string, op: Op)
    requires NamesAreOld(d, clock) && Regular(d, clock, op)
    ensures NamesAreOld(Run(d, op).0, ClockAfter(clock, op))
  {
    if Applies(d, op).Some? {
      MoveKeepsNames(d, clock, op);
    } else if op.Rollback? {
      RollbackKeepsNames(d, clock, op.id);
    } else if op.Create? {
      NamesStayOld(d, Run(d, op).0, clock, clock, {op.path}, {});
    } else {
      NamesStayOld(d, Run(d, op).0, clock, ClockAfter(clock, op), {}, {});
    }
  }

  function Clock(clock: string, ops: seq<Op>): string {
    if ops == [] then clock else ClockAfter(Clock(clock, Front(ops)), Last(ops))
  }

  ghost predicate RegularRun(s: State, clock: string, ops: seq<Op>)
    requires Tracked(s)
  {
    ops != [] ==>
      && RegularRun(s, clock, Front(ops))
      && Regular(Exec(s, Front(ops)).disk, Clock(clock, Front(ops)), Last(ops))
  }

  /** Every run with increasing stamps is safe when it starts without a deprecated name of a later stamp. */
  lemma {:induction false} RegularRunIsSafe(s: State, clock: string, ops: seq<Op>)
    requires Tracked(s) && NamesAreOld(s.disk, clock) && RegularRun(s, clock, ops)
    ensures SafeRun(s, ops) && NamesAreOld(Exec(s, ops).disk, Clock(clock, ops))
  {
    if ops != [] {
      var (d, now) := (Exec(s, Front(ops)).disk, Clock(clock, Front(ops)));
      RegularRunIsSafe(s, clock, Front(ops));
      RegularIsSafe(d, now, Last(ops));
      StepKeepsNames(d, now, Last(ops));
    }
  }
}

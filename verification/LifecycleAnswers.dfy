/** What each operation of the deprecation tool answers, and what it then leaves on disk, in the decisions
    table and in the audit log: tools/learn/cmd_apply_decision.go, cmd_refine_apply.go and cmd_rollback.go. */
module LifecycleAnswers {

  import opened Prelude
  import opened Lifecycle
  import opened Text

  // ---- Texts ----

  /** A path as text: the components and the name, separated by slashes. */
  lemma {:induction false} PathTextIs(first: string, dir: seq<string>, base: string)
    ensures PathText(Path([], base)) == base
    ensures PathText(Path([first] + dir, base)) == first + "/" + PathText(Path(dir, base))
  {
    DirTextIs(first, dir);
    Regroup(first, DirText(dir), base);
    assert "" + base == base;
  }

  lemma {:induction false} Regroup(first: string, middle: string, last: string)
    ensures first + "/" + middle + last == first + "/" + (middle + last)
  {
  }

  lemma {:induction false} DirTextIs(first: string, dir: seq<string>)
    ensures DirText([first] + dir) == first + "/" + DirText(dir)
  {
    if dir == [] {
      assert [first] + dir == [first] && Front([first]) == [];
    } else {
      DirTextIs(first, Front(dir));
      assert Front([first] + dir) == [first] + Front(dir) && Last([first] + dir) == Last(dir);
      Regroup(first, DirText(Front(dir)), Last(dir) + "/");
      assert first + "/" + DirText(Front(dir)) + Last(dir) + "/" ==
          first + "/" + DirText(Front(dir)) + (Last(dir) + "/");
      assert DirText(Front(dir)) + Last(dir) + "/" == DirText(Front(dir)) + (Last(dir) + "/");
    }
  }

  /** Exactly a text that starts like a header and has a line break is changed by stripping. */
  lemma {:induction false} StripChangesIff(raw: Content)
    ensures StripDeprecationHeader(raw) != raw <==> "> Deprecated " <= raw && '\n' in raw
  {
    assert |StripDeprecationHeader(raw)| < |raw| || StripDeprecationHeader(raw) == raw;
  }

  // ---- The latest entry ----

  /** `e` is the last entry of the decision. */
  ghost predicate IsLatest(audit: seq<AuditEntry>, id: int, e: AuditEntry) {
    exists i :: 0 <= i < |audit| && LatestAt(audit, id, i) && audit[i] == e
  }

  predicate LatestAt(audit: seq<AuditEntry>, id: int, i: nat)
    requires i < |audit|
  {
    audit[i].id == id && forall j :: i < j < |audit| ==> audit[j].id != id
  }

  lemma {:induction false} FindsLatest(audit: seq<AuditEntry>, id: int)
    ensures FindAudit(audit, id).None? <==> forall e :: e in audit ==> e.id != id
    ensures FindAudit(audit, id).Some? ==> IsLatest(audit, id, FindAudit(audit, id).value)
  {
    if audit != [] {
      var f := Front(audit);
      assert audit == f + [Last(audit)];
      if Last(audit).id == id {
        assert LatestAt(audit, id, |audit| - 1);
      } else {
        FindsLatest(f, id);
        if FindAudit(f, id).Some? {
          var i :| 0 <= i < |f| && LatestAt(f, id, i) && f[i] == FindAudit(f, id).value;
          assert LatestAt(audit, id, i);
        }
      }
    }
  }

  lemma {:induction false} LatestIsUnique(audit: seq<AuditEntry>, id: int, e: AuditEntry)
    requires IsLatest(audit, id, e)
    ensures FindAudit(audit, id) == Some(e)
  {
    FindsLatest(audit, id);
    var i :| 0 <= i < |audit| && LatestAt(audit, id, i) && audit[i] == e;
    assert audit[i] in audit;
    var j :| 0 <= j < |audit| && LatestAt(audit, id, j) && audit[j] == FindAudit(audit, id).value;
  }

  // ---- Apply ----

  /** The refusals of apply-decision, in their order; a refused call changes nothing. */
  lemma {:induction false} ApplyRefusals(d: Disk, id: int, now: Now)
    ensures var (after, r) := Run(d, Apply(id, now));
            var known := 1 <= id <= |d.rows|;
            && (r == NoSuchRow <==> !known)
            && (r == NotPending <==> known && d.rows[id - 1].action != PendingApproval)
            && (r == NoTarget <==> known && d.rows[id - 1] == Decision(PendingApproval, None))
            && (r == SourceMissing <==> (known && d.rows[id - 1].action == PendingApproval &&
                                      d.rows[id - 1].target.Some? && d.rows[id - 1].target.value !in d.files))
            && (r == Done <==> (known && d.rows[id - 1].action == PendingApproval &&
                             d.rows[id - 1].target.Some? && d.rows[id - 1].target.value in d.files))
            && (r != Done ==> after == d)
  {
  }

  /** A successful one moves the file of the row under its header, marks the row and logs the move. */
  lemma {:induction false} ApplyEffect(d: Disk, id: int, now: Now, stem: string, ext: string)
    requires Run(d, Apply(id, now)).1 == Done
    requires NameParts(d.rows[id - 1].target.value.base, stem, ext)
    ensures var after := Run(d, Apply(id, now)).0;
            var source := d.rows[id - 1].target.value;
            var text := PathText(source);
            var target := Path(source.dir + ["_deprecated"], stem + "-" + now.stamp + if ext == "" then ".md" else ext);
            && after.files ==
               (d.files - {source})[target :=
                 "> Deprecated " + now.date + " by /learn-refine: merged into " + text + "\n\n" + d.files[source]]
            && after.rows == d.rows[id - 1 := Decision(Applied, Some(source))]
            && after.audit == d.audit + [AuditEntry(id, WasApplied, source, target, text)]
  {
    PartsAreUnique(d.rows[id - 1].target.value.base, stem, ext);
  }

  // ---- Refine ----

  /** Refine-apply is refused exactly for a missing file, and then leaves nothing behind; otherwise it does what
      an apply of a new row does, with the merge target it was given, or the file's own path. */
  lemma {:induction false} RefineEffect(d: Disk, source: Path, mergedInto: string, now: Now, stem: string, ext: string)
    requires NameParts(source.base, stem, ext)
    ensures var (after, r) := Run(d, Refine(source, mergedInto, now));
            var text := if mergedInto == "" then PathText(source) else mergedInto;
            var target := Path(source.dir + ["_deprecated"], stem + "-" + now.stamp + if ext == "" then ".md" else ext);
            if source !in d.files then (after, r) == (d, SourceMissing)
            else
              && r == Done
              && after.files ==
                 (d.files - {source})[target :=
                   "> Deprecated " + now.date + " by /learn-refine: merged into " + text + "\n\n" + d.files[source]]
              && after.rows == d.rows + [Decision(Applied, Some(source))]
              && after.audit == d.audit + [AuditEntry(|d.rows| + 1, WasApplied, source, target, text)]
  {
    PartsAreUnique(source.base, stem, ext);
  }

  // ---- Rollback ----

  /** The refusals of rollback, in their order, from the decision's latest entry; a refused call changes nothing. */
  lemma {:induction false} RollbackRefusals(d: Disk, id: int)
    ensures Run(d, Rollback(id)).1 == NoAuditEntry <==> forall e :: e in d.audit ==> e.id != id
    ensures forall e :: IsLatest(d.audit, id, e) ==>
              var r := Run(d, Rollback(id)).1;
              && (r == AlreadyRolledBack <==> e.action == WasRolledBack)
              && (r == DeprecatedMissing <==> e.action == WasApplied && e.deprecated !in d.files)
              && (r == Occupied <==> e.action == WasApplied && e.deprecated in d.files && e.source in d.files)
              && (r == Done <==> e.action == WasApplied && e.deprecated in d.files && e.source !in d.files)
    ensures Run(d, Rollback(id)).1 != Done ==> Run(d, Rollback(id)).0 == d
  {
    FindsLatest(d.audit, id);
    forall e | IsLatest(d.audit, id, e)
      ensures FindAudit(d.audit, id) == Some(e)
    {
      LatestIsUnique(d.audit, id, e);
    }
  }

  /** A successful one puts the file back without its header, and adds a row and a log entry. */
  lemma {:induction false} RollbackEffect(d: Disk, id: int, e: AuditEntry)
    requires Run(d, Rollback(id)).1 == Done && IsLatest(d.audit, id, e)
    ensures e.deprecated in d.files
    ensures var after := Run(d, Rollback(id)).0;
            && after.files == d.files[e.source := StripDeprecationHeader(d.files[e.deprecated])] - {e.deprecated}
            && after.rows == d.rows + [Decision(RolledBack, Some(e.source))]
            && after.audit == d.audit + [AuditEntry(id, WasRolledBack, e.source, e.deprecated, e.mergedInto)]
  {
    LatestIsUnique(d.audit, id, e);
    var i :| 0 <= i < |d.audit| && LatestAt(d.audit, id, i) && d.audit[i] == e;
  }

  // ---- Record ----

  /** New decisions are pending, and a new file is created only where there is none. */
  lemma {:induction false} RecordEffect(d: Disk, path: Path, content: Content)
    ensures Run(d, Record(path)) == (Disk(d.files, d.rows + [Decision(PendingApproval, Some(path))], d.audit), Done)
    ensures Run(d, Create(path, content)) ==
            if path in d.files then (d, TargetExists)
            else (Disk(d.files[path := content], d.rows + [Decision(NewFile, Some(path))], d.audit), Done)
  {
  }
}

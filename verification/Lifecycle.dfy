/** Deprecating a file and rolling the deprecation back: tools/learn/cmd_apply_decision.go,
    cmd_refine_apply.go, cmd_rollback.go and audit.go, with the file-creating part of
    cmd_record_decision.go as environment.  I/O calls succeed; a missing file is an outcome. */
module Lifecycle {

  import opened Prelude
  import opened Text

  type Content = string

  // ---- The header stamped on a deprecated file ----

  function Header(date: string, mergedInto: string): Content {
    "> Deprecated " + date + " by /learn-refine: merged into " + mergedInto + "\n\n"
  }

  /** Removes the header line and one blank line; other text is left alone. */
  function StripDeprecationHeader(raw: Content): Content {
    if !("> Deprecated " <= raw) then raw
    else
      var idx := IndexOf(raw, '\n');
      if idx < 0 then raw
      else
        var rest := raw[idx + 1..];
        if rest != "" && rest[0] == '\n' then rest[1..] else rest
  }

  /** What is left of a text whose first line starts like a header. */
  lemma {:induction false} StripRemovesLine(line: string, rest: string)
    requires '\n' !in line && "> Deprecated " <= line
    ensures StripDeprecationHeader(line + "\n" + rest) == if rest != "" && rest[0] == '\n' then rest[1..] else rest
  {
    FirstOccurrence(line, '\n', rest);
    var raw := line + "\n" + rest;
    assert raw[|line| + 1..] == rest;
    assert "> Deprecated " <= raw;
  }

  function HeaderStart(date: string): string {
    "> Deprecated " + date + " by /learn-refine: merged into "
  }

  lemma {:induction false} HeaderOfOneLine(date: string, target: string, content: Content)
    requires '\n' !in date && '\n' !in target
    ensures StripDeprecationHeader(Header(date, target) + content) == content
  {
    var line := HeaderStart(date) + target;
    assert Header(date, target) + content == line + "\n" + ("\n" + content);
    StripRemovesLine(line, "\n" + content);
    assert ("\n" + content)[1..] == content;
  }

  lemma {:induction false} HeaderOfManyLines(date: string, first: string, more: string, content: Content)
    requires '\n' !in date && '\n' !in first
    ensures |StripDeprecationHeader(Header(date, first + "\n" + more) + content)| > |content|
  {
    var (line, rest) := (HeaderStart(date) + first, more + "\n\n" + content);
    assert Header(date, first + "\n" + more) + content == line + "\n" + rest;
    StripRemovesLine(line, rest);
  }

  /** Stripping undoes stamping exactly when the merge target has no line break. */
  lemma {:induction false} StripUndoesHeader(date: string, mergedInto: string, content: Content)
    requires '\n' !in date
    ensures StripDeprecationHeader(Header(date, mergedInto) + content) == content <==> '\n' !in mergedInto
  {
    var i := IndexOf(mergedInto, '\n');
    if i < 0 {
      HeaderOfOneLine(date, mergedInto, content);
    } else {
      assert mergedInto == mergedInto[..i] + "\n" + mergedInto[i + 1..];
      HeaderOfManyLines(date, mergedInto[..i], mergedInto[i + 1..], content);
    }
  }

  // ---- Paths ----

  /** A cleaned path: directory components and file name. */
  datatype Path = Path(dir: seq<string>, base: string)

  /** The position of the last dot; |s| when there is none. */
  function DotIndex(s: string): (i: nat)
    ensures i <= |s| && '.' !in s[if i == |s| then 0 else i + 1..]
    ensures i < |s| ==> s[i] == '.'
  {
    if s == "" then 0
    else if Last(s) == '.' then |s| - 1
    else
      var f := Front(s);
      var i := DotIndex(f);
      assert s == f + [Last(s)];
      if i == |f| then |s| else (assert s[i + 1..] == f[i + 1..] + [Last(s)]; i)
  }

  function Stem(base: string): string { base[..DotIndex(base)] }

  function Ext(base: string): string { base[DotIndex(base)..] }

  /** The extension starts at the last dot; it is empty when there is none. */
  predicate NameParts(base: string, stem: string, ext: string) {
    base == stem + ext && if ext == "" then '.' !in stem else ext[0] == '.' && '.' !in ext[1..]
  }

  /** `<dir>/_deprecated/<stem>-<stamp><ext>`, with `.md` when there is no extension. */
  function DeprecatedPath(p: Path, stamp: string): Path {
    Path(p.dir + ["_deprecated"], Stem(p.base) + "-" + stamp + if Ext(p.base) == "" then ".md" else Ext(p.base))
  }

  function PathText(p: Path): string {
    DirText(p.dir) + p.base
  }

  function DirText(dir: seq<string>): string {
    if dir == [] then "" else DirText(Front(dir)) + Last(dir) + "/"
  }

  /** A date as the tool writes it into a header: on one line. */
  type Date = d: string | '\n' !in d

  /** A time as the tool writes it: the date of the header and the stamp of names. */
  datatype Now = Now(date: Date, stamp: string)

  predicate IsDigit(c: char) {
    '0' <= c <= '9'
  }

  /** The shape of a stamp: eight digits, T, six digits, Z. */
  predicate IsStamp(s: string) {
    |s| == 16 && forall i :: 0 <= i < 16 ==>
      if i == 8 then s[i] == 'T' else if i == 15 then s[i] == 'Z' else IsDigit(s[i])
  }

  /** The stamp that a deprecated name carries. */
  function StampOf(base: string): Option<string> {
    var stem := Stem(base);
    if |stem| >= 17 && stem[|stem| - 17] == '-' && IsStamp(stem[|stem| - 16..]) then Some(stem[|stem| - 16..])
    else None
  }

  lemma {:induction false} LastDot(s: string, t: string)
    requires '.' !in t
    ensures DotIndex(s + "." + t) == |s|
  {
    if t != "" {
      assert t == Front(t) + [Last(t)];
      assert Front(s + "." + t) == s + "." + Front(t);
      LastDot(s, Front(t));
    }
  }

  lemma {:induction false} NoDot(s: string)
    requires '.' !in s
    ensures DotIndex(s) == |s|
  {
  }

  /** A name has one stem and one extension. */
  lemma {:induction false} PartsAreUnique(base: string, stem: string, ext: string)
    requires NameParts(base, stem, ext)
    ensures stem == Stem(base) && ext == Ext(base)
  {
    if ext == "" {
      assert base == stem;
      NoDot(base);
    } else {
      LastDot(stem, ext[1..]);
      assert base == stem + "." + ext[1..];
    }
  }

  lemma {:induction false} PartsExist(base: string)
    ensures NameParts(base, Stem(base), Ext(base))
  {
    ExtShape(base);
    if DotIndex(base) == |base| {
      assert base[0..] == base;
      assert base == "" || '.' !in base by {
        NoDotMeansNone(base);
      }
    }
  }

  lemma {:induction false} NoDotMeansNone(base: string)
    requires DotIndex(base) == |base|
    ensures '.' !in base
  {
    if base != "" {
      NoDotMeansNone(Front(base));
      assert base == Front(base) + [Last(base)];
    }
  }

  lemma {:induction false} ExtShape(base: string)
    ensures Ext(base) != "" ==> Ext(base)[0] == '.' && '.' !in Ext(base)[1..]
  {
    if DotIndex(base) < |base| {
      assert Ext(base)[1..] == base[DotIndex(base) + 1..];
    }
  }

  lemma {:induction false} StampOfName(stem: string, stamp: string, rest: string)
    requires IsStamp(stamp) && '.' !in rest
    ensures StampOf(stem + "-" + stamp + "." + rest) == Some(stamp)
  {
    var full := stem + "-" + stamp;
    LastDot(full, rest);
    assert Stem(full + "." + rest) == full;
    assert full[|full| - 16..] == stamp && full[|full| - 17] == '-';
  }

  lemma {:induction false} StampReadsBack(p: Path, stamp: string)
    requires IsStamp(stamp)
    ensures StampOf(DeprecatedPath(p, stamp).base) == Some(stamp)
  {
    var ext := if Ext(p.base) == "" then ".md" else Ext(p.base);
    ExtShape(p.base);
    assert ext == "." + ext[1..];
    StampOfName(Stem(p.base), stamp, ext[1..]);
    assert DeprecatedPath(p, stamp).base == Stem(p.base) + "-" + stamp + "." + ext[1..];
  }

  // ---- The tool's state and operations ----

  datatype Action = PendingApproval | Applied | RolledBack | NewFile

  /** A row of the decisions table; the row with id n is the n-th one. */
  datatype Decision = Decision(action: Action, target: Option<Path>)

  datatype AuditAction = WasApplied | WasRolledBack

  datatype AuditEntry = AuditEntry(id: int, action: AuditAction, source: Path, deprecated: Path, mergedInto: string)

  datatype Disk = Disk(files: map<Path, Content>, rows: seq<Decision>, audit: seq<AuditEntry>)

  datatype Op =
    | Record(target: Path)
    | Create(path: Path, content: Content)
    | Apply(id: int, now: Now)
    | Refine(target: Path, mergedInto: string, now: Now)
    | Rollback(id: int)

  datatype Outcome = Done | NoSuchRow | NotPending | NoTarget | SourceMissing | TargetExists
    | NoAuditEntry | AlreadyRolledBack | DeprecatedMissing | Occupied

  /** The latest audit entry of a decision. */
  function FindAudit(audit: seq<AuditEntry>, id: int): Option<AuditEntry> {
    if audit == [] then None
    else if Last(audit).id == id then Some(Last(audit))
    else FindAudit(Front(audit), id)
  }

  /** Renames the file and puts the header on it. */
  function Move(files: map<Path, Content>, source: Path, mergedInto: string, now: Now): map<Path, Content>
    requires source in files
  {
    (files - {source})[DeprecatedPath(source, now.stamp) := Header(now.date, mergedInto) + files[source]]
  }

  /** The decision `id`, moving `source`, becomes applied. */
  function MarkApplied(d: Disk, rows: seq<Decision>, id: int, source: Path, mergedInto: string, now: Now): Disk
    requires source in d.files && 1 <= id <= |rows|
  {
    Disk(Move(d.files, source, mergedInto, now),
         rows[id - 1 := rows[id - 1].(action := Applied)],
         d.audit + [AuditEntry(id, WasApplied, source, DeprecatedPath(source, now.stamp), mergedInto)])
  }

  /** The file of an audit entry goes back to its source, without the header. */
  function Restore(d: Disk, e: AuditEntry): Disk
    requires e.deprecated in d.files
  {
    Disk(d.files[e.source := StripDeprecationHeader(d.files[e.deprecated])] - {e.deprecated},
         d.rows + [Decision(RolledBack, Some(e.source))],
         d.audit + [e.(action := WasRolledBack)])
  }

  function Merged(target: Path, mergedInto: string): string {
    if mergedInto == "" then PathText(target) else mergedInto
  }

  /** The decision that an operation would apply, and the file it would move; None otherwise. */
  function Applies(d: Disk, op: Op): Option<(int, Path)> {
    match op
    case Apply(id, _) =>
      if 1 <= id <= |d.rows| && d.rows[id - 1].action == PendingApproval && d.rows[id - 1].target.Some?
         && d.rows[id - 1].target.value in d.files
      then Some((id, d.rows[id - 1].target.value)) else None
    case Refine(target, _, _) => if target in d.files then Some((|d.rows| + 1, target)) else None
    case _ => None
  }

  function Run(d: Disk, op: Op): (Disk, Outcome) {
    match op
    case Record(target) => (d.(rows := d.rows + [Decision(PendingApproval, Some(target))]), Done)
    case Create(path, content) =>
      if path in d.files then (d, TargetExists)
      else (d.(files := d.files[path := content], rows := d.rows + [Decision(NewFile, Some(path))]), Done)
    case Apply(id, now) =>
      if !(1 <= id <= |d.rows|) then (d, NoSuchRow)
      else if d.rows[id - 1].action != PendingApproval then (d, NotPending)
      else if d.rows[id - 1].target.None? then (d, NoTarget)
      else
        var source := d.rows[id - 1].target.value;
        if source !in d.files then (d, SourceMissing)
        else (MarkApplied(d, d.rows, id, source, PathText(source), now), Done)
    case Refine(target, mergedInto, now) =>
      if target !in d.files then (d, SourceMissing)
      else
        var rows := d.rows + [Decision(PendingApproval, Some(target))];
        (MarkApplied(d, rows, |rows|, target, Merged(target, mergedInto), now), Done)
    case Rollback(id) =>
      match FindAudit(d.audit, id)
      case None => (d, NoAuditEntry)
      case Some(e) =>
        if e.action == WasRolledBack then (d, AlreadyRolledBack)
        else if e.deprecated !in d.files then (d, DeprecatedMissing)
        else if e.source in d.files then (d, Occupied)
        else
          (Restore(d, e), Done)
  }

  // ---- The imperative forms ----

  class Workspace {
    var files: map<Path, Content>
    var rows: seq<Decision>
    var audit: seq<AuditEntry>

    function View(): Disk
      reads this
    {
      Disk(files, rows, audit)
    }

    constructor (d: Disk)
      ensures View() == d
    {
      files, rows, audit := d.files, d.rows, d.audit;
    }

    /** None when the source cannot be read. */
    method MoveToDeprecated(source: Path, mergedInto: string, now: Now) returns (newPath: Option<Path>)
      modifies this`files
      ensures source !in old(files) ==> newPath == None && files == old(files)
      ensures source in old(files) ==>
                newPath == Some(DeprecatedPath(source, now.stamp)) && files == Move(old(files), source, mergedInto, now)
      ensures source in old(files) ==>
                var (content, date) := (old(files)[source], now.date);
                var text := "> Deprecated " + date + " by /learn-refine: merged into " + mergedInto + "\n\n" + content;
                forall stem, ext :: NameParts(source.base, stem, ext) ==>
                  var target := Path(source.dir + ["_deprecated"],
                                     stem + "-" + now.stamp + if ext == "" then ".md" else ext);
                  newPath == Some(target) && files == (old(files) - {source})[target := text]
    {
      if source !in files {
        return None;
      }
      var content := files[source];
      var target := DeprecatedPath(source, now.stamp);
      var header := Header(now.date, mergedInto);
      files := (files - {source})[target := content];
      files := files[target := header + content];
      forall stem, ext | NameParts(source.base, stem, ext)
        ensures stem == Stem(source.base) && ext == Ext(source.base)
      {
        PartsAreUnique(source.base, stem, ext);
      }
      return Some(target);
    }

    method FindAuditByDecisionID(id: int) returns (found: Option<AuditEntry>)
      ensures found == FindAudit(audit, id)
    {
      found := None;
      for i := 0 to |audit|
        invariant found == FindAudit(audit[..i], id)
      {
        assert Front(audit[..i + 1]) == audit[..i];
        if audit[i].id == id {
          found := Some(audit[i]);
        }
      }
      assert audit[..|audit|] == audit;
    }

    method RunApplyDecision(id: int, now: Now) returns (r: Outcome)
      modifies this
      ensures (View(), r) == Run(old(View()), Apply(id, now))
    {
      if !(1 <= id <= |rows|) {
        return NoSuchRow;
      }
      var row := rows[id - 1];
      if row.action != PendingApproval {
        return NotPending;
      }
      if row.target.None? {
        return NoTarget;
      }
      var mergedInto := PathText(row.target.value);
      var newPath := MoveToDeprecated(row.target.value, mergedInto, now);
      if newPath.None? {
        return SourceMissing;
      }
      rows := rows[id - 1 := row.(action := Applied)];
      audit := audit + [AuditEntry(id, WasApplied, row.target.value, newPath.value, mergedInto)];
      return Done;
    }

    method RunRefineApply(target: Path, mergedInto: string, now: Now) returns (r: Outcome)
      modifies this
      ensures (View(), r) == Run(old(View()), Refine(target, mergedInto, now))
    {
      var merged := mergedInto;
      if merged == "" {
        merged := PathText(target);
      }
      rows := rows + [Decision(PendingApproval, Some(target))];
      var id := |rows|;
      var newPath := MoveToDeprecated(target, merged, now);
      if newPath.None? {
        rows := rows[..id - 1];
        return SourceMissing;
      }
      rows := rows[id - 1 := rows[id - 1].(action := Applied)];
      audit := audit + [AuditEntry(id, WasApplied, target, newPath.value, merged)];
      return Done;
    }

    method RunRollback(id: int) returns (r: Outcome)
      modifies this
      ensures (View(), r) == Run(old(View()), Rollback(id))
    {
      var found := FindAuditByDecisionID(id);
      if found.None? {
        return NoAuditEntry;
      }
      var entry := found.value;
      if entry.action == WasRolledBack {
        return AlreadyRolledBack;
      }
      if entry.deprecated !in files {
        return DeprecatedMissing;
      }
      if entry.source in files {
        return Occupied;
      }
      var restored := StripDeprecationHeader(files[entry.deprecated]);
      files := files[entry.source := restored];
      files := files - {entry.deprecated};
      rows := rows + [Decision(RolledBack, Some(entry.source))];
      audit := audit + [entry.(action := WasRolledBack)];
      return Done;
    }
  }
}

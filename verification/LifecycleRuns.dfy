/** What the runs of the deprecation tool keep, and exactly which runs do.  A ledger, which exists only for
    the proof, follows each file through its moves. */
module LifecycleRuns {

  import opened Prelude
  import opened Lifecycle

  /** What a decision moved when it was applied: the stamped header, the bytes its source held, how many
      headers of earlier decisions were already part of those bytes, and the place of its log entry. */
  datatype Held = Held(entry: AuditEntry, header: Content, content: Content, layers: nat, at: nat)

  /** `born` lists the bytes of every file ever created and `where` the present place of each;
      `layers` counts the headers stamped on the file now at a path. */
  datatype Ledger = Ledger(held: map<int, Held>, layers: map<Path, nat>, where: seq<Path>, born: seq<Content>)

  datatype State = State(disk: Disk, ledger: Ledger)

  /** The bytes below `n` headers. */
  function Unwrap(c: Content, n: nat): Content {
    if n == 0 then c else Unwrap(StripDeprecationHeader(c), n - 1)
  }

  function MergedText(d: Disk, op: Op, source: Path): string {
    if op.Refine? then Merged(source, op.mergedInto) else PathText(source)
  }

  function Replace(where: seq<Path>, from: Path, to: Path): seq<Path> {
    seq(|where|, i requires 0 <= i < |where| => if where[i] == from then to else where[i])
  }

  function NoteMove(s: State, id: int, source: Path, mergedInto: string, now: Now): Ledger
    requires source in s.disk.files && source in s.ledger.layers
  {
    var (l, target) := (s.ledger, DeprecatedPath(source, now.stamp));
    var entry := AuditEntry(id, WasApplied, source, target, mergedInto);
    var h := Held(entry, Header(now.date, mergedInto), s.disk.files[source], l.layers[source], |s.disk.audit|);
    Ledger(l.held[id := h],
           (l.layers - {source})[target := l.layers[source] + 1],
           Replace(l.where, source, target),
           l.born)
  }

  function NoteRestore(l: Ledger, e: AuditEntry): Ledger
    requires e.deprecated in l.layers
  {
    var n := l.layers[e.deprecated];
    l.(layers := l.layers[e.source := if n == 0 then 0 else n - 1] - {e.deprecated},
       where := Replace(l.where, e.deprecated, e.source))
  }

  /** The rollback that an operation would perform; None when it is refused. */
  function Restores(d: Disk, op: Op): Option<AuditEntry> {
    if op.Rollback? && Run(d, op).1 == Done then FindAudit(d.audit, op.id) else None
  }

  predicate Tracked(s: State) {
    s.ledger.layers.Keys == s.disk.files.Keys
  }

  function Step(s: State, op: Op): (s': State)
    requires Tracked(s)
    ensures Tracked(s')
  {
    var (d, l) := (s.disk, s.ledger);
    var l' :=
      if Applies(d, op).Some? then
        var (id, source) := Applies(d, op).value;
        NoteMove(s, id, source, MergedText(d, op, source), op.now)
      else if Restores(d, op).Some? then NoteRestore(l, Restores(d, op).value)
      else if op.Create? && op.path !in d.files then
        l.(layers := l.layers[op.path := 0], where := l.where + [op.path], born := l.born + [op.content])
      else l;
    State(Run(d, op).0, l')
  }

  predicate Active(d: Disk, id: int) {
    FindAudit(d.audit, id).Some? && FindAudit(d.audit, id).value.action == WasApplied
  }

  /** A rollback would take its file from `p`. */
  ghost predicate Awaited(d: Disk, p: Path) {
    exists id :: Active(d, id) && FindAudit(d.audit, id).value.deprecated == p
  }

  /** A rollback would put its file back to `p`. */
  ghost predicate Reserved(d: Disk, p: Path) {
    exists id :: Active(d, id) && FindAudit(d.audit, id).value.source == p
  }

  /** Nothing is put where a rollback would take a file from; a move also leaves alone the files present and
      the paths a rollback would restore, and its merge target is one line. */
  ghost predicate Safe(d: Disk, op: Op) {
    match op
    case Record(_) => true
    case Rollback(_) => true
    case Create(path, _) => path in d.files || !Awaited(d, path)
    case _ => Applies(d, op).Some? ==> SafeMove(d, op, Applies(d, op).value.1)
  }

  ghost predicate SafeMove(d: Disk, op: Op, source: Path)
    requires op.Apply? || op.Refine?
  {
    OneLine(d, op) && Unused(d, DeprecatedPath(source, op.now.stamp))
  }

  ghost predicate Unused(d: Disk, p: Path) {
    p !in d.files && !Awaited(d, p) && !Reserved(d, p)
  }

  ghost predicate OneLine(d: Disk, op: Op) {
    Applies(d, op).Some? ==> '\n' !in MergedText(d, op, Applies(d, op).value.1)
  }

  // ---- The invariants ----

  ghost predicate IsHeader(h: Content) {
    forall c :: StripDeprecationHeader(h + c) == c
  }

  /** A decision that is applied and not rolled back knows what it moved, and the moved file, while
      it is at its deprecated path, consists of the header and those bytes. */
  ghost predicate HeldInPlace(s: State, id: int)
    requires Active(s.disk, id)
  {
    var e := FindAudit(s.disk.audit, id).value;
    && id in s.ledger.held
    && var h := s.ledger.held[id];
       && h.entry == e && IsHeader(h.header) && h.at < |s.disk.audit|
       && (e.deprecated in s.disk.files && e.deprecated in s.ledger.layers ==>
             s.disk.files[e.deprecated] == h.header + h.content && s.ledger.layers[e.deprecated] == h.layers + 1)
  }

  /** Active decisions have different deprecated paths, and one that moved the deprecated file of another came
      later and moved exactly it. */
  ghost predicate Chained(s: State, id: int, later: int)
    requires Active(s.disk, id) && Active(s.disk, later) && id in s.ledger.held && later in s.ledger.held
  {
    var (h, k) := (s.ledger.held[id], s.ledger.held[later]);
    && (k.entry.deprecated == h.entry.deprecated ==> id == later)
    && (k.entry.source == h.entry.deprecated ==>
          h.at < k.at && k.content == h.header + h.content && k.layers == h.layers + 1)
  }

  ghost predicate HeldIsRight(s: State) {
    && (forall id :: Active(s.disk, id) ==> HeldInPlace(s, id))
    && (forall id, later :: Active(s.disk, id) && Active(s.disk, later) ==> Chained(s, id, later))
  }

  /** The places are pairwise different and are exactly the given paths. */
  ghost predicate Placed(where: seq<Path>, places: set<Path>) {
    && (forall i, j :: 0 <= i < j < |where| ==> where[i] != where[j])
    && (forall p :: p in where <==> p in places)
  }

  ghost predicate BytesKept(s: State, i: nat) {
    && i < |s.ledger.where| && i < |s.ledger.born|
    && var p := s.ledger.where[i];
       p in s.disk.files && p in s.ledger.layers && Unwrap(s.disk.files[p], s.ledger.layers[p]) == s.ledger.born[i]
  }

  /** Every file ever created is at exactly one place, nothing else is there, and below the headers
      stamped on it its bytes are the original ones. */
  ghost predicate Conserved(s: State) {
    && Tracked(s)
    && |s.ledger.where| == |s.ledger.born|
    && Placed(s.ledger.where, s.disk.files.Keys)
    && (forall i :: 0 <= i < |s.ledger.where| ==> BytesKept(s, i))
  }

  /** The audit trail of one decision. */
  function Trail(audit: seq<AuditEntry>, id: int): seq<AuditAction> {
    if audit == [] then []
    else Trail(Front(audit), id) + if Last(audit).id == id then [Last(audit).action] else []
  }

  /** A decision is applied at most once and then rolled back at most once. */
  ghost predicate TrailIsOrdered(d: Disk, id: int) {
    && Trail(d.audit, id) <= [WasApplied, WasRolledBack]
    && (!(1 <= id <= |d.rows| && d.rows[id - 1].action == Applied) ==> Trail(d.audit, id) == [])
  }

  ghost predicate TrailsAreOrdered(d: Disk) {
    forall id :: TrailIsOrdered(d, id)
  }

  ghost predicate Good(s: State) {
    HeldIsRight(s) && Conserved(s) && TrailsAreOrdered(s.disk)
  }

  // ---- The four shapes of a step ----

  /** The rows at the moment a move marks one of them. */
  function RowsBeforeMark(d: Disk, op: Op): seq<Decision> {
    if op.Refine? then d.rows + [Decision(PendingApproval, Some(op.target))] else d.rows
  }

  ghost predicate IsMove(s: State, s': State, id: int, source: Path, mergedInto: string, now: Now,
      rows: seq<Decision>) {
    && Tracked(s) && source in s.disk.files
    && s.disk.rows <= rows && 1 <= id <= |rows| && rows[id - 1].action == PendingApproval
    && (forall i :: |s.disk.rows| <= i < |rows| ==> rows[i].action == PendingApproval)
    && s' == State(MarkApplied(s.disk, rows, id, source, mergedInto, now), NoteMove(s, id, source, mergedInto, now))
  }

  ghost predicate IsRestore(s: State, s': State, e: AuditEntry) {
    && Tracked(s) && e.action == WasApplied && FindAudit(s.disk.audit, e.id) == Some(e)
    && e.deprecated in s.disk.files && e.source !in s.disk.files
    && s' == State(Restore(s.disk, e), NoteRestore(s.ledger, e))
  }

  ghost predicate IsCreation(s: State, s': State, path: Path, content: Content) {
    && path !in s.disk.files
    && s' == State(Disk(s.disk.files[path := content], s.disk.rows + [Decision(NewFile, Some(path))], s.disk.audit),
                   s.ledger.(layers := s.ledger.layers[path := 0], where := s.ledger.where + [path],
                       born := s.ledger.born + [content]))
  }

  /** Files and audit log unchanged; at most a row that is not applied is added. */
  ghost predicate IsQuiet(s: State, s': State) {
    && s'.disk.files == s.disk.files && s'.disk.audit == s.disk.audit
    && s.disk.rows <= s'.disk.rows
    && (forall i :: |s.disk.rows| <= i < |s'.disk.rows| ==> s'.disk.rows[i].action != Applied)
    && s'.ledger == s.ledger
  }

  lemma {:induction false} MoveShape(s: State, op: Op)
    requires Tracked(s) && Applies(s.disk, op).Some?
    ensures var (id, source) := Applies(s.disk, op).value;
            && (op.Apply? || op.Refine?)
            && IsMove(s, Step(s, op), id, source, MergedText(s.disk, op, source), op.now, RowsBeforeMark(s.disk, op))
  {
  }

  lemma {:induction false} OtherShape(s: State, op: Op)
    requires Tracked(s) && Applies(s.disk, op).None?
    ensures var s' := Step(s, op);
            if Restores(s.disk, op).Some? then IsRestore(s, s', Restores(s.disk, op).value)
            else if op.Create? && op.path !in s.disk.files then IsCreation(s, s', op.path, op.content)
            else IsQuiet(s, s')
  {
    if op.Rollback? {
      FoundIsThere(s.disk.audit, op.id);
    }
  }

  lemma {:induction false} FoundIsThere(audit: seq<AuditEntry>, id: int)
    ensures FindAudit(audit, id).Some? ==> FindAudit(audit, id).value in audit && FindAudit(audit, id).value.id == id
    ensures FindAudit(audit, id).Some? <==> Trail(audit, id) != []
    ensures FindAudit(audit, id).Some? ==> Last(Trail(audit, id)) == FindAudit(audit, id).value.action
  {
    if audit != [] {
      FoundIsThere(Front(audit), id);
      assert audit == Front(audit) + [Last(audit)];
    }
  }

  lemma {:induction false} FindInAppended(audit: seq<AuditEntry>, e: AuditEntry, id: int)
    ensures FindAudit(audit + [e], id) == if e.id == id then Some(e) else FindAudit(audit, id)
    ensures Trail(audit + [e], id) == Trail(audit, id) + if e.id == id then [e.action] else []
  {
    assert Front(audit + [e]) == audit;
  }

  // ---- Audit trails ----

  lemma {:induction false} MarkedTrail(d: Disk, d': Disk, rows: seq<Decision>, e: AuditEntry, k: int)
    requires TrailIsOrdered(d, k) && e.action == WasApplied && d'.audit == d.audit + [e]
    requires d.rows <= rows && 1 <= e.id <= |rows| && rows[e.id - 1].action == PendingApproval
    requires forall i :: |d.rows| <= i < |rows| ==> rows[i].action == PendingApproval
    requires d'.rows == rows[e.id - 1 := rows[e.id - 1].(action := Applied)]
    ensures TrailIsOrdered(d', k)
  {
    FindInAppended(d.audit, e, k);
    if k == e.id {
      assert Trail(d.audit, k) == [];
      assert Trail(d'.audit, k) == [WasApplied];
    } else {
      assert Trail(d'.audit, k) == Trail(d.audit, k);
      assert 1 <= k <= |d'.rows| ==> d'.rows[k - 1] == rows[k - 1];
    }
  }

  lemma {:induction false} MoveKeepsTrails(s: State, s': State, id: int, source: Path, mergedInto: string, now: Now,
      rows: seq<Decision>)
    requires TrailsAreOrdered(s.disk) && IsMove(s, s', id, source, mergedInto, now, rows)
    ensures TrailsAreOrdered(s'.disk)
  {
    var e := AuditEntry(id, WasApplied, source, DeprecatedPath(source, now.stamp), mergedInto);
    forall k
      ensures TrailIsOrdered(s'.disk, k)
    {
      assert TrailIsOrdered(s.disk, k);
      MarkedTrail(s.disk, s'.disk, rows, e, k);
    }
  }

  lemma {:induction false} RestoreKeepsTrails(s: State, s': State, e: AuditEntry)
    requires TrailsAreOrdered(s.disk) && IsRestore(s, s', e)
    ensures TrailsAreOrdered(s'.disk)
  {
    forall k
      ensures TrailIsOrdered(s'.disk, k)
    {
      assert TrailIsOrdered(s.disk, k);
      FindInAppended(s.disk.audit, e.(action := WasRolledBack), k);
      FoundIsThere(s.disk.audit, k);
    }
  }

  lemma {:induction false} OtherStepsKeepTrails(s: State, s': State)
    requires TrailsAreOrdered(s.disk) && s'.disk.audit == s.disk.audit && s.disk.rows <= s'.disk.rows
    requires forall i :: |s.disk.rows| <= i < |s'.disk.rows| ==> s'.disk.rows[i].action != Applied
    ensures TrailsAreOrdered(s'.disk)
  {
    forall k
      ensures TrailIsOrdered(s'.disk, k)
    {
      assert TrailIsOrdered(s.disk, k);
    }
  }

  // ---- Conservation ----

  lemma {:induction false} UnwrapStamped(h: Content, c: Content, n: nat)
    requires IsHeader(h)
    ensures Unwrap(h + c, n + 1) == Unwrap(c, n)
  {
  }

  lemma {:induction false} OneLineHeader(date: string, mergedInto: string)
    requires '\n' !in date && '\n' !in mergedInto
    ensures IsHeader(Header(date, mergedInto))
  {
    forall c
      ensures StripDeprecationHeader(Header(date, mergedInto) + c) == c
    {
      StripUndoesHeader(date, mergedInto, c);
    }
  }

  lemma {:induction false} ReplacePlaced(where: seq<Path>, places: set<Path>, from: Path, to: Path)
    requires Placed(where, places) && to !in places
    ensures Placed(Replace(where, from, to), if from in places then places - {from} + {to} else places)
  {
    var w := Replace(where, from, to);
    forall i | 0 <= i < |w|
      ensures w[i] == (if where[i] == from then to else where[i]) && where[i] in places
    {
      assert where[i] in where;
    }
    forall p
      ensures p in w <==> p in (if from in places then places - {from} + {to} else places)
    {
      var q := if p == to then from else p;
      if q in where {
        var i :| 0 <= i < |where| && where[i] == q;
        assert w[i] == if q == from then to else q;
      }
    }
  }

  /** A file that changes its place keeps its identity, if the bytes below its headers stay. */
  lemma {:induction false} RelocationConserves(s: State, s': State, from: Path, to: Path)
    requires Conserved(s) && from in s.disk.files && to !in s.disk.files
    requires to in s'.disk.files && s'.disk.files == (s.disk.files - {from})[to := s'.disk.files[to]]
    requires to in s'.ledger.layers && s'.ledger.layers == (s.ledger.layers - {from})[to := s'.ledger.layers[to]]
    requires s'.ledger.where == Replace(s.ledger.where, from, to) && s'.ledger.born == s.ledger.born
    requires Unwrap(s'.disk.files[to], s'.ledger.layers[to]) == Unwrap(s.disk.files[from], s.ledger.layers[from])
    ensures Conserved(s')
  {
    ReplacePlaced(s.ledger.where, s.disk.files.Keys, from, to);
    assert s'.disk.files.Keys == s.disk.files.Keys - {from} + {to};
    forall i | 0 <= i < |s'.ledger.where|
      ensures BytesKept(s', i)
    {
      assert BytesKept(s, i) && s.ledger.where[i] in s.ledger.where;
    }
  }

  lemma {:induction false} MoveConserves(s: State, s': State, id: int, source: Path, mergedInto: string, now: Now,
      rows: seq<Decision>)
    requires Conserved(s) && IsMove(s, s', id, source, mergedInto, now, rows)
    requires '\n' !in mergedInto && DeprecatedPath(source, now.stamp) !in s.disk.files
    ensures Conserved(s')
  {
    OneLineHeader(now.date, mergedInto);
    UnwrapStamped(Header(now.date, mergedInto), s.disk.files[source], s.ledger.layers[source]);
    RelocationConserves(s, s', source, DeprecatedPath(source, now.stamp));
  }

  /** Two files end up at one place. */
  lemma {:induction false} OverwritingLoses(s: State, s': State, id: int, source: Path, mergedInto: string, now: Now,
      rows: seq<Decision>)
    requires Conserved(s) && IsMove(s, s', id, source, mergedInto, now, rows)
    requires DeprecatedPath(source, now.stamp) in s.disk.files
    ensures !Conserved(s')
  {
    var (where, target) := (s.ledger.where, DeprecatedPath(source, now.stamp));
    TargetIsDeeper(source, now.stamp);
    var i :| 0 <= i < |where| && where[i] == source;
    var j :| 0 <= j < |where| && where[j] == target;
    assert s'.ledger.where[i] == target && s'.ledger.where[j] == target;
  }

  lemma {:induction false} TargetIsDeeper(source: Path, stamp: string)
    ensures DeprecatedPath(source, stamp) != source
  {
    assert |DeprecatedPath(source, stamp).dir| == |source.dir| + 1;
  }

  lemma {:induction false} RestoreConserves(s: State, s': State, e: AuditEntry)
    requires HeldIsRight(s) && Conserved(s) && IsRestore(s, s', e)
    ensures Conserved(s')
  {
    assert Active(s.disk, e.id) && HeldInPlace(s, e.id);
    assert s'.disk.files == (s.disk.files - {e.deprecated})[e.source := s'.disk.files[e.source]];
    assert s'.ledger.layers == (s.ledger.layers - {e.deprecated})[e.source := s'.ledger.layers[e.source]];
    RelocationConserves(s, s', e.deprecated, e.source);
  }

  lemma {:induction false} CreationConserves(s: State, s': State, path: Path, content: Content)
    requires Conserved(s) && IsCreation(s, s', path, content)
    ensures Conserved(s')
  {
    assert s'.disk.files.Keys == s.disk.files.Keys + {path};
    forall i | 0 <= i < |s'.ledger.where|
      ensures BytesKept(s', i)
    {
      if i < |s.ledger.where| {
        assert BytesKept(s, i);
      }
    }
  }

  // ---- What active decisions hold ----

  lemma {:induction false} MoveKeepsHeld(s: State, s': State, id: int, source: Path, mergedInto: string, now: Now,
      rows: seq<Decision>)
    requires HeldIsRight(s) && IsMove(s, s', id, source, mergedInto, now, rows)
    requires '\n' !in mergedInto && Unused(s.disk, DeprecatedPath(source, now.stamp))
    ensures HeldIsRight(s')
  {
    var target := DeprecatedPath(source, now.stamp);
    TargetIsDeeper(source, now.stamp);
    OneLineHeader(now.date, mergedInto);
    forall k | Active(s'.disk, k)
      ensures HeldInPlace(s', k)
    {
      OthersStay(s, s', id, source, mergedInto, now, rows, k);
      if k != id {
        assert HeldInPlace(s, k);
        assert s.ledger.held[k].entry.deprecated != target;
      }
    }
    forall k, later | Active(s'.disk, k) && Active(s'.disk, later)
      ensures Chained(s', k, later)
    {
      OthersStay(s, s', id, source, mergedInto, now, rows, k);
      OthersStay(s, s', id, source, mergedInto, now, rows, later);
      ChainedAfterMove(s, s', id, source, mergedInto, now, rows, k, later);
    }
  }

  /** A move makes its own decision active and leaves the others as they are. */
  lemma {:induction false} OthersStay(s: State, s': State, id: int, source: Path, mergedInto: string, now: Now,
      rows: seq<Decision>, k: int)
    requires HeldIsRight(s) && IsMove(s, s', id, source, mergedInto, now, rows)
    ensures Active(s'.disk, k) <==> k == id || Active(s.disk, k)
    ensures k != id ==> FindAudit(s'.disk.audit, k) == FindAudit(s.disk.audit, k)
    ensures k != id && Active(s.disk, k) ==> HeldInPlace(s, k) && k in s'.ledger.held
                                             && s'.ledger.held[k] == s.ledger.held[k]
  {
    FindInAppended(s.disk.audit, AuditEntry(id, WasApplied, source, DeprecatedPath(source, now.stamp), mergedInto), k);
  }

  lemma {:induction false} ChainedAfterMove(s: State, s': State, id: int, source: Path, mergedInto: string, now: Now,
      rows: seq<Decision>, k: int, later: int)
    requires HeldIsRight(s) && IsMove(s, s', id, source, mergedInto, now, rows)
    requires Unused(s.disk, DeprecatedPath(source, now.stamp)) && DeprecatedPath(source, now.stamp) != source
    requires Active(s'.disk, k) && Active(s'.disk, later) && k in s'.ledger.held && later in s'.ledger.held
    requires k != id ==> Active(s.disk, k) && HeldInPlace(s, k) && s'.ledger.held[k] == s.ledger.held[k]
    requires later != id ==>
               Active(s.disk, later) && HeldInPlace(s, later) && s'.ledger.held[later] == s.ledger.held[later]
    ensures Chained(s', k, later)
  {
    if k != id && later != id {
      assert Chained(s, k, later);
    }
  }

  /** A deprecated path that a rollback would use already is used twice after the move. */
  lemma {:induction false} ReuseBreaksHeld(s: State, s': State, id: int, source: Path, mergedInto: string, now: Now,
      rows: seq<Decision>)
    requires HeldIsRight(s) && IsMove(s, s', id, source, mergedInto, now, rows) && !Active(s.disk, id)
    requires var target := DeprecatedPath(source, now.stamp); Awaited(s.disk, target) || Reserved(s.disk, target)
    ensures !HeldIsRight(s')
  {
    var target := DeprecatedPath(source, now.stamp);
    var k :| Active(s.disk, k) &&
             var e := FindAudit(s.disk.audit, k).value; e.deprecated == target || e.source == target;
    OthersStay(s, s', id, source, mergedInto, now, rows, k);
    OthersStay(s, s', id, source, mergedInto, now, rows, id);
    assert !Chained(s', id, k);
  }

  lemma {:induction false} LongHeaderBreaksHeld(s: State, s': State, id: int, source: Path, mergedInto: string,
      now: Now, rows: seq<Decision>)
    requires HeldIsRight(s) && IsMove(s, s', id, source, mergedInto, now, rows) && '\n' in mergedInto
    ensures !HeldIsRight(s')
  {
    OthersStay(s, s', id, source, mergedInto, now, rows, id);
    StripUndoesHeader(now.date, mergedInto, "");
    assert !IsHeader(Header(now.date, mergedInto));
    assert !HeldInPlace(s', id);
  }

  lemma {:induction false} RestoreKeepsHeld(s: State, s': State, e: AuditEntry)
    requires HeldIsRight(s) && IsRestore(s, s', e)
    ensures HeldIsRight(s')
  {
    assert Active(s.disk, e.id) && HeldInPlace(s, e.id);
    var h := s.ledger.held[e.id];
    assert s'.disk.files[e.source] == h.content;
    forall k | Active(s'.disk, k)
      ensures k != e.id && Active(s.disk, k) && HeldInPlace(s', k)
    {
      FindInAppended(s.disk.audit, e.(action := WasRolledBack), k);
      assert HeldInPlace(s, k) && Chained(s, k, e.id);
    }
    forall k, later | Active(s'.disk, k) && Active(s'.disk, later)
      ensures Chained(s', k, later)
    {
      assert HeldInPlace(s', k) && HeldInPlace(s', later) && Chained(s, k, later);
    }
  }

  lemma {:induction false} CreationKeepsHeld(s: State, s': State, path: Path, content: Content)
    requires HeldIsRight(s) && IsCreation(s, s', path, content)
    requires !Awaited(s.disk, path)
    ensures HeldIsRight(s')
  {
    forall k | Active(s'.disk, k)
      ensures HeldInPlace(s', k)
    {
      assert HeldInPlace(s, k);
    }
    forall k, later | Active(s'.disk, k) && Active(s'.disk, later)
      ensures Chained(s', k, later)
    {
      assert Chained(s, k, later);
    }
  }

  lemma {:induction false} CreationBreaksHeld(s: State, s': State, path: Path, content: Content)
    requires HeldIsRight(s) && IsCreation(s, s', path, content)
    requires Awaited(s.disk, path)
    ensures !HeldIsRight(s')
  {
    var k :| Active(s.disk, k) && FindAudit(s.disk.audit, k).value.deprecated == path;
    assert !HeldInPlace(s', k);
  }

  lemma {:induction false} QuietKeepsHeld(s: State, s': State)
    requires HeldIsRight(s) && IsQuiet(s, s')
    ensures HeldIsRight(s')
  {
    forall k | Active(s'.disk, k)
      ensures HeldInPlace(s', k)
    {
      assert HeldInPlace(s, k);
    }
    forall k, later | Active(s'.disk, k) && Active(s'.disk, later)
      ensures Chained(s', k, later)
    {
      assert Chained(s, k, later);
    }
  }

  lemma {:induction false} QuietKeepsGood(s: State, s': State)
    requires Good(s) && IsQuiet(s, s')
    ensures Good(s')
  {
    QuietKeepsHeld(s, s');
    OtherStepsKeepTrails(s, s');
    assert forall i :: BytesKept(s, i) ==> BytesKept(s', i);
  }

  lemma {:induction false} CreationKeepsGoodIff(s: State, s': State, path: Path, content: Content)
    requires Good(s) && IsCreation(s, s', path, content)
    ensures Good(s') <==> !Awaited(s.disk, path)
  {
    if Awaited(s.disk, path) {
      CreationBreaksHeld(s, s', path, content);
    } else {
      CreationKeepsHeld(s, s', path, content);
      CreationConserves(s, s', path, content);
      OtherStepsKeepTrails(s, s');
    }
  }

  lemma {:induction false} MoveKeepsGoodIff(s: State, s': State, id: int, source: Path, mergedInto: string, now: Now,
      rows: seq<Decision>)
    requires Good(s) && IsMove(s, s', id, source, mergedInto, now, rows)
    ensures Good(s') <==> '\n' !in mergedInto && Unused(s.disk, DeprecatedPath(source, now.stamp))
  {
    if '\n' in mergedInto {
      LongHeaderBreaksHeld(s, s', id, source, mergedInto, now, rows);
    } else if DeprecatedPath(source, now.stamp) in s.disk.files {
      OverwritingLoses(s, s', id, source, mergedInto, now, rows);
    } else if !Unused(s.disk, DeprecatedPath(source, now.stamp)) {
      MarkedIsNotActive(s, s', id, source, mergedInto, now, rows);
      ReuseBreaksHeld(s, s', id, source, mergedInto, now, rows);
    } else {
      MoveKeepsHeld(s, s', id, source, mergedInto, now, rows);
      MoveConserves(s, s', id, source, mergedInto, now, rows);
      MoveKeepsTrails(s, s', id, source, mergedInto, now, rows);
    }
  }

  lemma {:induction false} MarkedIsNotActive(s: State, s': State, id: int, source: Path, mergedInto: string, now: Now,
      rows: seq<Decision>)
    requires TrailsAreOrdered(s.disk) && IsMove(s, s', id, source, mergedInto, now, rows)
    ensures !Active(s.disk, id)
  {
    assert TrailIsOrdered(s.disk, id);
    FoundIsThere(s.disk.audit, id);
  }

  /** An operation, refused or not, keeps all invariants exactly if it is safe. */
  lemma {:induction false} StepKeepsGoodIff(s: State, op: Op)
    requires Good(s)
    ensures Good(Step(s, op)) <==> Safe(s.disk, op)
  {
    var (s', a) := (Step(s, op), Applies(s.disk, op));
    if a.Some? {
      var (id, source) := a.value;
      MoveShape(s, op);
      MoveKeepsGoodIff(s, s', id, source, MergedText(s.disk, op, source), op.now, RowsBeforeMark(s.disk, op));
      return;
    }
    OtherShape(s, op);
    if Restores(s.disk, op).Some? {
      RestoreKeepsGood(s, s', Restores(s.disk, op).value);
    } else if op.Create? && op.path !in s.disk.files {
      CreationKeepsGoodIff(s, s', op.path, op.content);
    } else {
      QuietKeepsGood(s, s');
    }
  }

  lemma {:induction false} RestoreKeepsGood(s: State, s': State, e: AuditEntry)
    requires Good(s) && IsRestore(s, s', e)
    ensures Good(s')
  {
    RestoreKeepsHeld(s, s', e);
    RestoreConserves(s, s', e);
    RestoreKeepsTrails(s, s', e);
  }

  /** Why a created file must not be where a rollback looks: the rollback takes it, whatever it is, for the
      file of the decision. */
  lemma {:induction false} RollbackTakesCreated(d: Disk, id: int, content: Content)
    requires Active(d, id)
    requires var e := FindAudit(d.audit, id).value; e.deprecated !in d.files && e.source !in d.files
                                                    && e.source != e.deprecated
    ensures var e := FindAudit(d.audit, id).value;
            var (after, r) := Run(Run(d, Create(e.deprecated, content)).0, Rollback(id));
            r == Done && after.files == d.files[e.source := StripDeprecationHeader(content)]
  {
  }

  // ---- Runs ----

  function Exec(s: State, ops: seq<Op>): (s': State)
    requires Tracked(s)
    ensures Tracked(s')
  {
    if ops == [] then s else Step(Exec(s, Front(ops)), Last(ops))
  }

  ghost predicate SafeRun(s: State, ops: seq<Op>)
    requires Tracked(s)
  {
    ops != [] ==> SafeRun(s, Front(ops)) && Safe(Exec(s, Front(ops)).disk, Last(ops))
  }

  /** An empty audit log, and no header stamped yet. */
  ghost predicate IsStart(s: State) {
    && s.disk.audit == []
    && Tracked(s) && (forall p :: p in s.ledger.layers ==> s.ledger.layers[p] == 0)
    && |s.ledger.where| == |s.ledger.born| && Placed(s.ledger.where, s.disk.files.Keys)
    && (forall i :: 0 <= i < |s.ledger.where| ==>
        s.ledger.where[i] in s.disk.files && s.ledger.born[i] == s.disk.files[s.ledger.where[i]])
  }

  lemma {:induction false} SomePlacement(places: set<Path>) returns (where: seq<Path>)
    ensures Placed(where, places)
  {
    where := [];
    var rest := places;
    while rest != {}
      invariant rest <= places && Placed(where, places - rest)
      decreases rest
    {
      var p :| p in rest;
      rest := rest - {p};
      where := where + [p];
    }
  }

  /** Every directory with an empty log can be followed from the beginning. */
  lemma {:induction false} SomeStart(d: Disk) returns (l: Ledger)
    requires d.audit == []
    ensures l.held == map[] && IsStart(State(d, l))
  {
    var where := SomePlacement(d.files.Keys);
    assert forall i :: 0 <= i < |where| ==> where[i] in where;
    var born := seq(|where|, i requires 0 <= i < |where| => d.files[where[i]]);
    l := Ledger(map[], map p | p in d.files :: 0, where, born);
  }

  lemma {:induction false} StartIsGood(s: State)
    requires IsStart(s)
    ensures Good(s)
  {
    assert forall i :: 0 <= i < |s.ledger.where| ==> BytesKept(s, i);
    assert forall id :: TrailIsOrdered(s.disk, id);
  }

  /** After every safe run held bytes, conservation and audit trails are in order. */
  lemma {:induction false} RunKeepsGood(s: State, ops: seq<Op>)
    requires Good(s) && SafeRun(s, ops)
    ensures Good(Exec(s, ops))
  {
    if ops != [] {
      RunKeepsGood(s, Front(ops));
      StepKeepsGoodIff(Exec(s, Front(ops)), Last(ops));
    }
  }

  ghost predicate GoodThroughout(s: State, ops: seq<Op>)
    requires Tracked(s)
  {
    forall i :: 0 <= i <= |ops| ==> Good(Exec(s, ops[..i]))
  }

  lemma {:induction false} GoodThroughoutFront(s: State, ops: seq<Op>)
    requires Tracked(s) && ops != []
    ensures GoodThroughout(s, ops) <==> GoodThroughout(s, Front(ops)) && Good(Exec(s, ops))
  {
    assert forall i :: 0 <= i < |ops| ==> Front(ops)[..i] == ops[..i];
    assert ops[..|ops|] == ops;
  }

  /** They are in order at every moment of a run exactly if the run is safe. */
  lemma {:induction false} RunIsGoodIff(s: State, ops: seq<Op>)
    requires Good(s)
    ensures GoodThroughout(s, ops) <==> SafeRun(s, ops)
  {
    if ops == [] {
      assert ops[..0] == ops;
    } else {
      RunIsGoodIff(s, Front(ops));
      GoodThroughoutFront(s, ops);
      if SafeRun(s, Front(ops)) {
        RunKeepsGood(s, Front(ops));
        StepKeepsGoodIff(Exec(s, Front(ops)), Last(ops));
      }
    }
  }

  /** Operation `i` of the run applied decision `id`, moving `source`. */
  ghost predicate AppliedAt(s: State, ops: seq<Op>, i: nat, id: int, source: Path)
    requires Tracked(s)
  {
    i < |ops| && Applies(Exec(s, ops[..i]).disk, ops[i]) == Some((id, source))
    && source in Exec(s, ops[..i]).disk.files
  }

  lemma {:induction false} HeldAfterStep(t: State, op: Op, id: int)
    requires Tracked(t) && id in Step(t, op).ledger.held
    ensures var (a, h) := (Applies(t.disk, op), Step(t, op).ledger.held[id]);
            if a.Some? && a.value.0 == id then
              a.value.1 == h.entry.source && h.entry.source in t.disk.files && t.disk.files[h.entry.source] == h.content
            else id in t.ledger.held && t.ledger.held[id] == h
  {
  }

  lemma {:induction false} HeldWasApplied(s: State, ops: seq<Op>, id: int) returns (i: nat)
    requires Tracked(s) && s.ledger.held == map[] && id in Exec(s, ops).ledger.held
    ensures var h := Exec(s, ops).ledger.held[id];
            AppliedAt(s, ops, i, id, h.entry.source) && Exec(s, ops[..i]).disk.files[h.entry.source] == h.content
  {
    var (f, t) := (Front(ops), Exec(s, Front(ops)));
    HeldAfterStep(t, Last(ops), id);
    if Applies(t.disk, Last(ops)).Some? && Applies(t.disk, Last(ops)).value.0 == id {
      i := |ops| - 1;
      assert ops[..i] == f;
    } else {
      i := HeldWasApplied(s, f, id);
      assert f[..i] == ops[..i] && f[i] == ops[i];
    }
  }

  lemma {:induction false} RestoredContent(s: State, id: int)
    requires HeldIsRight(s) && Tracked(s) && Run(s.disk, Rollback(id)).1 == Done
    ensures id in s.ledger.held
    ensures var (h, files) := (s.ledger.held[id], Run(s.disk, Rollback(id)).0.files);
            h.entry.source in files && files[h.entry.source] == h.content
  {
    assert Active(s.disk, id) && HeldInPlace(s, id);
    var h := s.ledger.held[id];
    assert StripDeprecationHeader(h.header + h.content) == h.content;
  }

  /** A rollback that is not refused puts back, byte for byte, what the decision's source held at the
      moment the decision was applied. */
  lemma {:induction false} RollbackRestores(s: State, ops: seq<Op>, id: int) returns (i: nat, source: Path)
    requires IsStart(s) && s.ledger.held == map[] && SafeRun(s, ops)
    requires Run(Exec(s, ops).disk, Rollback(id)).1 == Done
    ensures AppliedAt(s, ops, i, id, source)
    ensures var restored := Run(Exec(s, ops).disk, Rollback(id)).0.files;
            source in restored && restored[source] == Exec(s, ops[..i]).disk.files[source]
  {
    StartIsGood(s);
    RunKeepsGood(s, ops);
    RestoredContent(Exec(s, ops), id);
    i := HeldWasApplied(s, ops, id);
    source := Exec(s, ops).ledger.held[id].entry.source;
  }

  /** A decision's audit entries are at any time a prefix of applied, rolled back. */
  lemma {:induction false} AuditTrailIsPrefix(s: State, ops: seq<Op>, id: int)
    requires Good(s) && SafeRun(s, ops)
    ensures Trail(Exec(s, ops).disk.audit, id) <= [WasApplied, WasRolledBack]
  {
    RunKeepsGood(s, ops);
    assert TrailIsOrdered(Exec(s, ops).disk, id);
  }

  /** No file is lost or duplicated: the files present are in one-to-one correspondence with the
      files ever created, each holding its original bytes below the headers stamped on it. */
  lemma {:induction false} NothingIsLost(s: State, ops: seq<Op>)
    requires Good(s) && SafeRun(s, ops)
    ensures Conserved(Exec(s, ops))
    ensures s.ledger.born <= Exec(s, ops).ledger.born
  {
    RunKeepsGood(s, ops);
    BornOnlyGrows(s, ops);
  }

  lemma {:induction false} BornOnlyGrows(s: State, ops: seq<Op>)
    requires Tracked(s)
    ensures s.ledger.born <= Exec(s, ops).ledger.born
  {
    if ops != [] {
      BornOnlyGrows(s, Front(ops));
    }
  }

  lemma {:induction false} RestoreUndoesMove(d: Disk, e: AuditEntry, now: Now, files: map<Path, Content>)
    requires e.source in files && '\n' !in e.mergedInto
    requires e.deprecated == DeprecatedPath(e.source, now.stamp) && e.deprecated !in files
    requires d.files == Move(files, e.source, e.mergedInto, now)
    ensures e.deprecated in d.files && e.source !in d.files && Restore(d, e).files == files
  {
    StripUndoesHeader(now.date, e.mergedInto, files[e.source]);
  }

  lemma {:induction false} RunMarks(d: Disk, op: Op, id: int, source: Path)
    requires Applies(d, op) == Some((id, source))
    ensures source in d.files && 1 <= id <= |RowsBeforeMark(d, op)|
    ensures Run(d, op) == (MarkApplied(d, RowsBeforeMark(d, op), id, source, MergedText(d, op, source), op.now), Done)
  {
  }

  lemma {:induction false} RunRestores(d: Disk, id: int, e: AuditEntry)
    requires FindAudit(d.audit, id) == Some(e) && e.action == WasApplied && e.deprecated in d.files
            && e.source !in d.files
    ensures Run(d, Rollback(id)) == (Restore(d, e), Done)
  {
  }

  /** A rollback right after the operation that applied the decision gives back the same files. */
  lemma {:induction false} RollbackUndoesApply(d: Disk, op: Op, id: int, source: Path)
    requires Applies(d, op) == Some((id, source)) && OneLine(d, op)
    requires DeprecatedPath(source, op.now.stamp) !in d.files
    ensures Run(Run(d, op).0, Rollback(id)).1 == Done
    ensures Run(Run(d, op).0, Rollback(id)).0.files == d.files
  {
    RunMarks(d, op, id, source);
    var e := AuditEntry(id, WasApplied, source, DeprecatedPath(source, op.now.stamp), MergedText(d, op, source));
    FindInAppended(d.audit, e, id);
    RestoreUndoesMove(Run(d, op).0, e, op.now, d.files);
    RunRestores(Run(d, op).0, id, e);
  }

  /** A move leaves all other files alone exactly when the deprecated path is free, or already holds
      what is about to be written there. */
  lemma {:induction false} MoveOverwritesIffOccupied(files: map<Path, Content>, source: Path, mergedInto: string,
      now: Now)
    requires source in files
    ensures var (target, after) := (DeprecatedPath(source, now.stamp), Move(files, source, mergedInto, now));
            (forall p :: p in files && p != source ==> p in after && after[p] == files[p]) <==>
            target !in files || files[target] == Header(now.date, mergedInto) + files[source]
  {
    assert |DeprecatedPath(source, now.stamp).dir| == |source.dir| + 1;
  }
}

/** Concurrent executions of the user use cases: every call into the table or the cache is one atomic step,
    a read may see any version the row has had, and cached values may vanish. */
module UserCacheRuns {

  import opened Prelude
  import opened UserCache

  type Rid = nat

  /** All versions of every row, oldest first. */
  type Rows = map<string, seq<User>>

  /** What a read of a row delivers: one of its versions, nothing, or an error. */
  datatype ReadResult = Version(k: nat) | Absent | Broken

  /** Where an execution is.  A `Joined` one waits for the read of another with the same input; `version`
      is the version of the row that was read; a `Written` one has yet to invalidate its key. */
  datatype Phase =
    | Looking
    | Missed
    | Joined(leader: Rid)
    | Loaded(output: Output, version: nat)
    | Finding(edit: Edit)
    | Edited(user: User, version: nat)
    | Removing(now: int)
    | Written(response: Response)
    | Over(response: Response)

  datatype Call = Call(text: string, id: string, phase: Phase)

  type Calls = map<Rid, Call>

  datatype World = World(rows: Rows, cache: Cache, calls: Calls)

  datatype Request = GetRequest | UpdateRequest(edit: Edit) | DeleteRequest(now: int)

  datatype Step =
    | Create(user: User)
    | Begin(r: Rid, text: string, request: Request)
    | Lookup(r: Rid, ok: bool)
    | Join(r: Rid, leader: Rid)
    | Find(r: Rid, result: ReadResult)
    | Store(r: Rid, fault: Fault)
    | FindForEdit(r: Rid, result: ReadResult)
    | Save(r: Rid, fault: Fault)
    | Remove(r: Rid, fault: Fault)
    | Invalidate(r: Rid, fault: Fault)
    | Expire(key: string)

  function Go(w: World, r: Rid, phase: Phase): World
    requires r in w.calls
  {
    w.(calls := w.calls[r := w.calls[r].(phase := phase)])
  }

  function Opening(request: Request): Phase {
    match request
    case GetRequest => Looking
    case UpdateRequest(edit) => Finding(edit)
    case DeleteRequest(now) => Removing(now)
  }

  function Start(env: Env, text: string, request: Request): Call {
    var id := env.parse(text);
    if id.None? then Call(text, "", Over(Failed(InvalidID))) else Call(text, id.value, Opening(request))
  }

  function Read(rows: Rows, id: string, result: ReadResult): Option<User> {
    if result.Version? && id in rows && result.k < |rows[id]| then Some(rows[id][result.k]) else None
  }

  function ReadError(result: ReadResult): Phase {
    Over(Failed(if result.Broken? then Internal else NotFound))
  }

  function FindPhase(env: Env, rows: Rows, id: string, result: ReadResult): Phase {
    var found := Read(rows, id, result);
    if found.Some? then Loaded(ToOutput(env, found.value), result.k) else ReadError(result)
  }

  function EditPhase(env: Env, rows: Rows, id: string, result: ReadResult, edit: Edit): Phase {
    var found := Read(rows, id, result);
    if found.None? then ReadError(result)
    else
      var edited := ApplyEdit(env, found.value, edit);
      if edited.Some? then Edited(edited.value, result.k) else Over(Failed(InvalidEmail))
  }

  /** The reader's result reaches the leader and everyone who joined it. */
  function Deliver(calls: Calls, leader: Rid, phase: Phase): Calls {
    map r | r in calls ::
      if r == leader || calls[r].phase == Joined(leader) then calls[r].(phase := phase) else calls[r]
  }

  function Newest(rows: Rows): Table {
    map id | id in rows && rows[id] != [] :: Last(rows[id])
  }

  function Append(rows: Rows, id: string, u: User): Rows {
    rows[id := (if id in rows then rows[id] else []) + [u]]
  }

  /** The version that a write adds to the row `id`, and the response; None when it does not take effect. */
  function SavedRow(rows: Rows, u: User): Option<User> {
    var table := Newest(rows);
    if u.id in table && !EmailTaken(table, u.id, u.email) then Some(SaveRow(table[u.id], u)) else None
  }

  function RemovedRow(rows: Rows, id: string, now: int): Option<User> {
    var table := Newest(rows);
    if id in table && table[id].active then Some(RemoveRow(table[id], now)) else None
  }

  /** A write step: the failure it ends in without effect, or the new version and what is left to do. */
  function WriteStep(w: World, r: Rid, id: string, row: Option<User>, refused: Error, done: Response,
      fault: Fault): World
    requires r in w.calls
  {
    if fault == FailBefore then Go(w, r, Over(Failed(Internal)))
    else if row.None? then Go(w, r, Over(Failed(refused)))
    else
      Go(w, r, if fault == Fine then Written(done) else Over(Failed(Internal))).(rows := Append(w.rows, id, row.value))
  }

  function SaveStep(env: Env, w: World, r: Rid, u: User, fault: Fault): World
    requires r in w.calls
  {
    var refused := if u.id in Newest(w.rows) then Internal else NotFound;
    WriteStep(w, r, u.id, SavedRow(w.rows, u), refused,
              Updated(u.id, u.name, u.email, u.active, env.format(u.updatedAt)), fault)
  }

  function RemoveStep(w: World, r: Rid, now: int, fault: Fault): World
    requires r in w.calls
  {
    var c := w.calls[r];
    WriteStep(w, r, c.id, RemovedRow(w.rows, c.id, now), NotFound, Deleted(c.text), fault)
  }

  predicate CanJoin(w: World, r: Rid, leader: Rid) {
    && r in w.calls && leader in w.calls && r != leader
    && w.calls[r].phase == Missed && w.calls[leader].phase == Missed && w.calls[r].text == w.calls[leader].text
  }

  /** One step; a step that is not due changes nothing. */
  function Exec(env: Env, w: World, s: Step): World {
    match s
    case Create(u) => if u.id in w.rows then w else w.(rows := Append(w.rows, u.id, u))
    case Begin(r, text, request) => if r in w.calls then w else w.(calls := w.calls[r := Start(env, text, request)])
    case Lookup(r, ok) =>
      if r !in w.calls || w.calls[r].phase != Looking then w
      else if ok && CacheKey(w.calls[r].text) in w.cache then Go(w, r, Over(Got(w.cache[CacheKey(w.calls[r].text)])))
      else Go(w, r, Missed)
    case Join(r, leader) => if CanJoin(w, r, leader) then Go(w, r, Joined(leader)) else w
    case Find(r, result) =>
      if r !in w.calls || w.calls[r].phase != Missed then w
      else w.(calls := Deliver(w.calls, r, FindPhase(env, w.rows, w.calls[r].id, result)))
    case Store(r, fault) =>
      if r !in w.calls || !w.calls[r].phase.Loaded? then w
      else
        var output := w.calls[r].phase.output;
        Go(w, r, Over(Got(output))).(
          cache := if fault == FailBefore then w.cache else w.cache[CacheKey(w.calls[r].text) := output])
    case FindForEdit(r, result) =>
      if r !in w.calls || !w.calls[r].phase.Finding? then w
      else Go(w, r, EditPhase(env, w.rows, w.calls[r].id, result, w.calls[r].phase.edit))
    case Save(r, fault) =>
      if r !in w.calls || !w.calls[r].phase.Edited? then w else SaveStep(env, w, r, w.calls[r].phase.user, fault)
    case Remove(r, fault) =>
      if r !in w.calls || !w.calls[r].phase.Removing? then w else RemoveStep(w, r, w.calls[r].phase.now, fault)
    case Invalidate(r, fault) =>
      if r !in w.calls || !w.calls[r].phase.Written? then w
      else
        Go(w, r, Over(w.calls[r].phase.response)).(cache := Invalidated(true, w.cache, w.calls[r].text, fault))
    case Expire(key) => w.(cache := w.cache - {key})
  }

  function Run(env: Env, w: World, steps: seq<Step>): World
    decreases |steps|
  {
    if steps == [] then w else Exec(env, Run(env, w, Front(steps)), Last(steps))
  }

  const EMPTY := World(map[], map[], map[])

  // ---- What every run keeps ----

  predicate WasHeld(env: Env, rows: Rows, id: string, output: Output) {
    id in rows && exists i :: 0 <= i < |rows[id]| && ToOutput(env, rows[id][i]) == output
  }

  predicate HeldByText(env: Env, rows: Rows, text: string, output: Output) {
    env.parse(text).Some? && WasHeld(env, rows, env.parse(text).value, output)
  }

  ghost predicate CacheHeld(env: Env, rows: Rows, cache: Cache) {
    forall text :: CacheKey(text) in cache ==> HeldByText(env, rows, text, cache[CacheKey(text)])
  }

  /** What an execution has read, and what a Get has returned, is what the row held. */
  predicate PhaseHeld(env: Env, rows: Rows, id: string, phase: Phase) {
    match phase
    case Loaded(output, version) => id in rows && version < |rows[id]| && ToOutput(env, rows[id][version]) == output
    case Edited(u, version) =>
      u.id == id && id in rows && version < |rows[id]| && u.active == rows[id][version].active
    case Over(response) => response.Got? ==> WasHeld(env, rows, id, response.output)
    case Written(response) => !response.Got?
    case _ => true
  }

  predicate CallHeld(env: Env, w: World, c: Call) {
    && (env.parse(c.text) == Some(c.id) || c.phase == Over(Failed(InvalidID)))
    && PhaseHeld(env, w.rows, c.id, c.phase)
    && (c.phase.Joined? ==> c.phase.leader in w.calls && w.calls[c.phase.leader].text == c.text)
  }

  ghost predicate CallsHeld(env: Env, w: World) {
    forall r :: r in w.calls ==> CallHeld(env, w, w.calls[r])
  }

  predicate RowKeyed(id: string, versions: seq<User>) {
    versions != [] && forall i :: 0 <= i < |versions| ==> versions[i].id == id
  }

  ghost predicate RowsKeyed(rows: Rows) {
    forall id :: id in rows ==> RowKeyed(id, rows[id])
  }

  ghost predicate Sound(env: Env, w: World) {
    RowsKeyed(w.rows) && CacheHeld(env, w.rows, w.cache) && CallsHeld(env, w)
  }

  /** Versions are only ever added. */
  ghost predicate Grows(rows: Rows, more: Rows) {
    forall id :: id in rows ==> id in more && rows[id] <= more[id]
  }

  lemma {:induction false} AppendGrows(rows: Rows, id: string, u: User)
    requires RowsKeyed(rows) && u.id == id
    ensures Grows(rows, Append(rows, id, u)) && RowsKeyed(Append(rows, id, u))
  {
  }

  lemma {:induction false} HeldStays(env: Env, rows: Rows, more: Rows, id: string, output: Output)
    requires Grows(rows, more) && WasHeld(env, rows, id, output)
    ensures WasHeld(env, more, id, output)
  {
    var i :| 0 <= i < |rows[id]| && ToOutput(env, rows[id][i]) == output;
    assert more[id][i] == rows[id][i];
  }

  lemma {:induction false} PhaseStays(env: Env, rows: Rows, more: Rows, id: string, phase: Phase)
    requires Grows(rows, more) && PhaseHeld(env, rows, id, phase)
    ensures PhaseHeld(env, more, id, phase)
  {
    match phase
    case Loaded(_, version) =>
      assert more[id][version] == rows[id][version];
    case Edited(_, version) =>
      assert more[id][version] == rows[id][version];
    case Over(response) =>
      if response.Got? {
        HeldStays(env, rows, more, id, response.output);
      }
    case _ =>
  }

  lemma {:induction false} RowsGrow(env: Env, w: World, more: Rows)
    requires Sound(env, w) && Grows(w.rows, more) && RowsKeyed(more)
    ensures Sound(env, w.(rows := more))
  {
    forall text | CacheKey(text) in w.cache
      ensures HeldByText(env, more, text, w.cache[CacheKey(text)])
    {
      HeldStays(env, w.rows, more, env.parse(text).value, w.cache[CacheKey(text)]);
    }
    forall r | r in w.calls
      ensures CallHeld(env, w.(rows := more), w.calls[r])
    {
      assert CallHeld(env, w, w.calls[r]);
      PhaseStays(env, w.rows, more, w.calls[r].id, w.calls[r].phase);
    }
  }

  lemma {:induction false} GoIsSound(env: Env, w: World, r: Rid, phase: Phase)
    requires Sound(env, w) && r in w.calls && CallHeld(env, w, w.calls[r].(phase := phase))
    ensures Sound(env, Go(w, r, phase))
  {
    var next := Go(w, r, phase);
    forall q | q in next.calls
      ensures CallHeld(env, next, next.calls[q])
    {
      assert CallHeld(env, w, if q == r then w.calls[r].(phase := phase) else w.calls[q]);
    }
  }

  lemma {:induction false} DeliverIsSound(env: Env, w: World, leader: Rid, result: ReadResult)
    requires Sound(env, w) && leader in w.calls && w.calls[leader].phase == Missed
    ensures Sound(env, Exec(env, w, Find(leader, result)))
  {
    var next := Exec(env, w, Find(leader, result));
    assert CallHeld(env, w, w.calls[leader]);
    forall r | r in next.calls
      ensures CallHeld(env, next, next.calls[r])
    {
      assert CallHeld(env, w, w.calls[r]);
    }
  }

  lemma {:induction false} StoreIsSound(env: Env, w: World, r: Rid, output: Output)
    requires Sound(env, w) && r in w.calls && w.calls[r].phase == Over(Got(output))
    ensures Sound(env, w.(cache := w.cache[CacheKey(w.calls[r].text) := output]))
  {
    assert CallHeld(env, w, w.calls[r]);
    var cache := w.cache[CacheKey(w.calls[r].text) := output];
    forall text | CacheKey(text) in cache
      ensures HeldByText(env, w.rows, text, cache[CacheKey(text)])
    {
      KeysDiffer(text, w.calls[r].text);
    }
  }

  lemma {:induction false} FewerKeys(env: Env, w: World, keys: set<string>)
    requires Sound(env, w)
    ensures Sound(env, w.(cache := w.cache - keys))
  {
  }

  lemma {:induction false} BeginIsSound(env: Env, w: World, r: Rid, text: string, request: Request)
    requires Sound(env, w) && r !in w.calls
    ensures Sound(env, Exec(env, w, Begin(r, text, request)))
  {
    var next := Exec(env, w, Begin(r, text, request));
    forall q | q in next.calls
      ensures CallHeld(env, next, next.calls[q])
    {
      if q in w.calls {
        assert CallHeld(env, w, w.calls[q]);
      }
    }
  }

  lemma {:induction false} WriteStepIsSound(
    env: Env, w: World, r: Rid, id: string, row: Option<User>, refused: Error, done: Response, fault: Fault)
    requires Sound(env, w) && r in w.calls && env.parse(w.calls[r].text) == Some(w.calls[r].id) && !done.Got?
    requires row.Some? ==> row.value.id == id
    ensures var next := WriteStep(w, r, id, row, refused, done, fault);
            Sound(env, next) && Grows(w.rows, next.rows)
  {
    var next := WriteStep(w, r, id, row, refused, done, fault);
    GoIsSound(env, w, r, next.calls[r].phase);
    if row.Some? {
      AppendGrows(w.rows, id, row.value);
      RowsGrow(env, Go(w, r, next.calls[r].phase), Append(w.rows, id, row.value));
    }
  }

  lemma {:induction false} NewestIsKeyed(rows: Rows)
    requires RowsKeyed(rows)
    ensures Keyed(Newest(rows)) && Newest(rows).Keys == rows.Keys
  {
    forall id | id in rows
      ensures id in Newest(rows) && Newest(rows)[id].id == id
    {
      assert RowKeyed(id, rows[id]);
    }
  }

  predicate Writes(s: Step) {
    s.Create? || s.Save? || s.Remove?
  }

  lemma {:induction false} WriteIsSound(env: Env, w: World, s: Step)
    requires Sound(env, w) && Writes(s)
    ensures Sound(env, Exec(env, w, s)) && Grows(w.rows, Exec(env, w, s).rows)
  {
    NewestIsKeyed(w.rows);
    if s.Create? {
      AppendGrows(w.rows, s.user.id, s.user);
      RowsGrow(env, w, Append(w.rows, s.user.id, s.user));
    } else if s.r in w.calls {
      var c := w.calls[s.r];
      assert CallHeld(env, w, c);
      if s.Save? && c.phase.Edited? {
        var u := c.phase.user;
        WriteStepIsSound(env, w, s.r, u.id, SavedRow(w.rows, u), if u.id in Newest(w.rows) then Internal else NotFound,
                         Updated(u.id, u.name, u.email, u.active, env.format(u.updatedAt)), s.fault);
      } else if s.Remove? && c.phase.Removing? {
        WriteStepIsSound(env, w, s.r, c.id, RemovedRow(w.rows, c.id, c.phase.now), NotFound, Deleted(c.text), s.fault);
      }
    }
  }

  lemma {:induction false} LookupIsSound(env: Env, w: World, r: Rid, ok: bool)
    requires Sound(env, w)
    ensures Sound(env, Exec(env, w, Lookup(r, ok)))
  {
    if r in w.calls && w.calls[r].phase == Looking {
      var c := w.calls[r];
      assert CallHeld(env, w, c);
      if ok && CacheKey(c.text) in w.cache {
        assert HeldByText(env, w.rows, c.text, w.cache[CacheKey(c.text)]);
        GoIsSound(env, w, r, Over(Got(w.cache[CacheKey(c.text)])));
      } else {
        GoIsSound(env, w, r, Missed);
      }
    }
  }

  lemma {:induction false} StoreStepIsSound(env: Env, w: World, r: Rid, fault: Fault)
    requires Sound(env, w)
    ensures Sound(env, Exec(env, w, Store(r, fault)))
  {
    if r in w.calls && w.calls[r].phase.Loaded? {
      assert CallHeld(env, w, w.calls[r]);
      var output := w.calls[r].phase.output;
      GoIsSound(env, w, r, Over(Got(output)));
      StoreIsSound(env, Go(w, r, Over(Got(output))), r, output);
    }
  }

  lemma {:induction false} PassIsSound(env: Env, w: World, s: Step)
    requires Sound(env, w) && (s.Join? || s.Find? || s.FindForEdit? || s.Invalidate?)
    ensures Sound(env, Exec(env, w, s))
  {
    if s.r in w.calls {
      assert CallHeld(env, w, w.calls[s.r]);
      match s
      case Join(r, leader) =>
        if CanJoin(w, r, leader) {
          GoIsSound(env, w, r, Joined(leader));
        }
      case Find(r, result) =>
        if w.calls[r].phase == Missed {
          DeliverIsSound(env, w, r, result);
        }
      case FindForEdit(r, result) =>
        if w.calls[r].phase.Finding? {
          FindForEditIsSound(env, w, r, result);
        }
      case Invalidate(r, fault) =>
        if w.calls[r].phase.Written? {
          GoIsSound(env, w, r, Over(w.calls[r].phase.response));
          FewerKeys(env, Go(w, r, Over(w.calls[r].phase.response)), {CacheKey(w.calls[r].text)});
        }
      case _ =>
    }
  }

  lemma {:induction false} FindForEditIsSound(env: Env, w: World, r: Rid, result: ReadResult)
    requires Sound(env, w) && r in w.calls && w.calls[r].phase.Finding?
    ensures Sound(env, Exec(env, w, FindForEdit(r, result)))
  {
    var c := w.calls[r];
    assert CallHeld(env, w, c);
    if Read(w.rows, c.id, result).Some? {
      assert RowKeyed(c.id, w.rows[c.id]);
    }
    GoIsSound(env, w, r, EditPhase(env, w.rows, c.id, result, c.phase.edit));
  }

  lemma {:induction false} StepIsSound(env: Env, w: World, s: Step)
    requires Sound(env, w)
    ensures Sound(env, Exec(env, w, s)) && Grows(w.rows, Exec(env, w, s).rows)
  {
    if Writes(s) {
      WriteIsSound(env, w, s);
    } else if s.Begin? {
      if s.r !in w.calls {
        BeginIsSound(env, w, s.r, s.text, s.request);
      }
    } else if s.Lookup? {
      LookupIsSound(env, w, s.r, s.ok);
    } else if s.Store? {
      StoreStepIsSound(env, w, s.r, s.fault);
    } else if s.Expire? {
      FewerKeys(env, w, {s.key});
    } else {
      PassIsSound(env, w, s);
    }
  }

  lemma {:induction false} RunIsSoundFrom(env: Env, w: World, steps: seq<Step>)
    requires Sound(env, w)
    ensures Sound(env, Run(env, w, steps))
    decreases |steps|
  {
    if steps != [] {
      RunIsSoundFrom(env, w, Front(steps));
      StepIsSound(env, Run(env, w, Front(steps)), Last(steps));
    }
  }

  /** In every interleaving, whatever fails, a value in the cache, on its way, or returned by a Get is one
      the row of that id has held. */
  lemma {:induction false} RunIsSound(env: Env, steps: seq<Step>)
    ensures Sound(env, Run(env, EMPTY, steps))
  {
    RunIsSoundFrom(env, EMPTY, steps);
  }

  /** The value was held at the moment the Get returned it: before, not merely by the end of the run. */
  lemma {:induction false} AnsweredFromThePast(env: Env, steps: seq<Step>, s: Step, r: Rid, output: Output)
    requires var next := Exec(env, Run(env, EMPTY, steps), s);
             r in next.calls && next.calls[r].phase == Over(Got(output))
    requires var w := Run(env, EMPTY, steps); r in w.calls ==> w.calls[r].phase != Over(Got(output))
    ensures WasHeld(env, Run(env, EMPTY, steps).rows, Exec(env, Run(env, EMPTY, steps), s).calls[r].id, output)
  {
    var w := Run(env, EMPTY, steps);
    RunIsSound(env, steps);
    StepIsSound(env, w, s);
    var next := Exec(env, w, s);
    assert CallHeld(env, next, next.calls[r]);
    AnswersLeaveRows(env, w, s, r);
  }

  /** A write ends no Get. */
  lemma {:induction false} WritesAnswerNothing(env: Env, w: World, s: Step, r: Rid)
    requires Writes(s) && r in Exec(env, w, s).calls && (r in w.calls ==> w.calls[r] != Exec(env, w, s).calls[r])
    ensures var phase := Exec(env, w, s).calls[r].phase;
            phase.Written? || phase == Over(Failed(Internal)) || phase == Over(Failed(NotFound))
  {
  }

  lemma {:induction false} AnswersLeaveRows(env: Env, w: World, s: Step, r: Rid)
    requires var next := Exec(env, w, s); r in next.calls && next.calls[r].phase.Over?
    requires Exec(env, w, s).calls[r].phase.response.Got? && (r in w.calls ==> w.calls[r] != Exec(env, w, s).calls[r])
    ensures Exec(env, w, s).rows == w.rows
  {
    if Writes(s) {
      WritesAnswerNothing(env, w, s, r);
    }
  }

  // ---- Executions that nobody interrupts ----

  function Current(w: World): Db {
    Db(Newest(w.rows), w.cache)
  }

  /** Call `r` is over with this response, and table and cache are as told. */
  predicate Ends(w: World, r: Rid, db: Db, response: Response) {
    Current(w) == db && r in w.calls && w.calls[r].phase == Over(response)
  }

  function Latest(rows: Rows, id: string, find: Fault): ReadResult {
    if find != Fine then Broken else if id in rows && rows[id] != [] then Version(|rows[id]| - 1) else Absent
  }

  function Named(env: Env, text: string): string {
    if env.parse(text).Some? then env.parse(text).value else ""
  }

  function FindAndStore(env: Env, w: World, r: Rid, id: string, io: IO): World {
    Exec(env, Exec(env, w, Find(r, Latest(w.rows, id, io.find))), Store(r, io.store))
  }

  function GetAlone(env: Env, w: World, r: Rid, text: string, io: IO): World {
    var w1 := Exec(env, w, Begin(r, text, GetRequest));
    var w2 := Exec(env, w1, Lookup(r, io.lookup == Fine));
    FindAndStore(env, w2, r, Named(env, text), io)
  }

  function SaveAndInvalidate(env: Env, w: World, r: Rid, io: IO): World {
    Exec(env, Exec(env, w, Save(r, io.save)), Invalidate(r, io.store))
  }

  function UpdateAlone(env: Env, w: World, r: Rid, text: string, edit: Edit, io: IO): World {
    var w1 := Exec(env, w, Begin(r, text, UpdateRequest(edit)));
    var w2 := Exec(env, w1, FindForEdit(r, Latest(w1.rows, Named(env, text), io.find)));
    SaveAndInvalidate(env, w2, r, io)
  }

  function DeleteAlone(env: Env, w: World, r: Rid, text: string, now: int, io: IO): World {
    var w1 := Exec(env, w, Begin(r, text, DeleteRequest(now)));
    Exec(env, Exec(env, w1, Remove(r, io.save)), Invalidate(r, io.store))
  }

  lemma {:induction false} NewestOfAppend(rows: Rows, id: string, u: User)
    ensures Newest(Append(rows, id, u)) == Newest(rows)[id := u]
  {
  }

  lemma {:induction false} LatestIsNewest(rows: Rows, id: string, find: Fault)
    ensures Read(rows, id, Latest(rows, id, find)) ==
            if find == Fine && id in Newest(rows) then Some(Newest(rows)[id]) else None
    ensures !(find == Fine && id in Newest(rows)) ==>
            ReadError(Latest(rows, id, find)) == Over(Failed(if find != Fine then Internal else NotFound))
  {
  }

  lemma {:induction false} FindAndStoreEnds(env: Env, w: World, r: Rid, text: string, id: string, io: IO)
    requires r in w.calls && w.calls[r] == Call(text, id, Missed) && io.find == Fine && id in Newest(w.rows)
    ensures var output := ToOutput(env, Newest(w.rows)[id]);
            var db := Current(w);
            Ends(FindAndStore(env, w, r, id, io), r,
                 if io.store != FailBefore then db.(cache := db.cache[CacheKey(text) := output]) else db, Got(output))
  {
    LatestIsNewest(w.rows, id, io.find);
  }

  lemma {:induction false} FindFails(env: Env, w: World, r: Rid, text: string, id: string, io: IO)
    requires r in w.calls && w.calls[r] == Call(text, id, Missed) && !(io.find == Fine && id in Newest(w.rows))
    ensures Ends(FindAndStore(env, w, r, id, io), r, Current(w), Failed(if io.find != Fine then Internal else NotFound))
  {
    LatestIsNewest(w.rows, id, io.find);
  }

  lemma {:induction false} LookedUp(env: Env, w: World, r: Rid, text: string, id: string, ok: bool)
    requires r !in w.calls && env.parse(text) == Some(id)
    ensures var hit := ok && CacheKey(text) in w.cache;
            Exec(env, Exec(env, w, Begin(r, text, GetRequest)), Lookup(r, ok)) ==
            w.(calls := w.calls[r := Call(text, id, if hit then Over(Got(w.cache[CacheKey(text)])) else Missed)])
  {
  }

  /** A Get whose steps run without interruption does and answers what the Get execution does. */
  lemma {:induction false} GetIsRun(env: Env, w: World, r: Rid, text: string, io: IO)
    requires r !in w.calls
    ensures var (db, response) := Get(env, true, Current(w), text, io);
            Ends(GetAlone(env, w, r, text, io), r, db, response)
  {
    if env.parse(text).Some? {
      var id := env.parse(text).value;
      LookedUp(env, w, r, text, id, io.lookup == Fine);
      if !(io.lookup == Fine && CacheKey(text) in w.cache) {
        var w2 := w.(calls := w.calls[r := Call(text, id, Missed)]);
        if io.find == Fine && id in Newest(w.rows) {
          FindAndStoreEnds(env, w2, r, text, id, io);
        } else {
          FindFails(env, w2, r, text, id, io);
        }
      }
    }
  }

  lemma {:induction false} SaveEnds(env: Env, w: World, r: Rid, text: string, id: string, u: User, version: nat, io: IO)
    requires r in w.calls && w.calls[r] == Call(text, id, Edited(u, version))
    ensures var (db, response) := UserCache.Save(env, true, Current(w), text, u, io);
            Ends(SaveAndInvalidate(env, w, r, io), r, db, response)
  {
    if u.id in Newest(w.rows) {
      NewestOfAppend(w.rows, u.id, SaveRow(Newest(w.rows)[u.id], u));
    }
  }

  lemma {:induction false} EditIsRead(env: Env, w: World, r: Rid, text: string, id: string, edit: Edit, io: IO)
    requires r !in w.calls && env.parse(text) == Some(id)
    ensures var w1 := Exec(env, w, Begin(r, text, UpdateRequest(edit)));
            var result := Latest(w.rows, id, io.find);
            Exec(env, w1, FindForEdit(r, result)) ==
            w.(calls := w.calls[r := Call(text, id, EditPhase(env, w.rows, id, result, edit))])
  {
  }

  lemma {:induction false} OverStays(env: Env, w: World, r: Rid, io: IO)
    requires r in w.calls && w.calls[r].phase.Over?
    ensures SaveAndInvalidate(env, w, r, io) == w
  {
  }

  lemma {:induction false} UpdateIsRun(env: Env, w: World, r: Rid, text: string, edit: Edit, io: IO)
    requires r !in w.calls
    ensures var (db, response) := Update(env, true, Current(w), text, edit, io);
            Ends(UpdateAlone(env, w, r, text, edit, io), r, db, response)
  {
    if env.parse(text).Some? {
      var id := env.parse(text).value;
      EditIsRead(env, w, r, text, id, edit, io);
      LatestIsNewest(w.rows, id, io.find);
      var phase := EditPhase(env, w.rows, id, Latest(w.rows, id, io.find), edit);
      var w2 := w.(calls := w.calls[r := Call(text, id, phase)]);
      if phase.Edited? {
        SaveEnds(env, w2, r, text, id, phase.user, phase.version, io);
      } else {
        OverStays(env, w2, r, io);
      }
    } else {
      OverStays(env, Exec(env, w, Begin(r, text, UpdateRequest(edit))), r, io);
    }
  }

  lemma {:induction false} RemoveEnds(env: Env, w: World, r: Rid, text: string, id: string, now: int, io: IO)
    requires r in w.calls && w.calls[r] == Call(text, id, Removing(now)) && env.parse(text) == Some(id)
    ensures var (db, response) := Delete(env, true, Current(w), text, now, io);
            Ends(Exec(env, Exec(env, w, Remove(r, io.save)), Invalidate(r, io.store)), r, db, response)
  {
    if id in Newest(w.rows) {
      NewestOfAppend(w.rows, id, RemoveRow(Newest(w.rows)[id], now));
    }
  }

  lemma {:induction false} DeleteIsRun(env: Env, w: World, r: Rid, text: string, now: int, io: IO)
    requires r !in w.calls
    ensures var (db, response) := Delete(env, true, Current(w), text, now, io);
            Ends(DeleteAlone(env, w, r, text, now, io), r, db, response)
  {
    if env.parse(text).Some? {
      RemoveEnds(env, Exec(env, w, Begin(r, text, DeleteRequest(now))), r, text, env.parse(text).value, now, io);
    }
  }
}

/** The cache-aside user use cases, one execution at a time: internal/usecases/user/get.go, update.go and
    delete.go over the users table of internal/infrastructure/db/postgres/repository/user.go. */
module UserCache {

  import opened Prelude

  datatype User = User(id: string, name: string, email: string, active: bool, createdAt: int, updatedAt: int)

  datatype Output = Output(id: string, name: string, email: string, active: bool, createdAt: string, updatedAt: string)

  /** `parse` maps each accepted spelling of an id to the id of the row it names; `email` checks and
      normalises an address; `format` prints a time. */
  datatype Env = Env(parse: string -> Option<string>, email: string -> Option<string>, format: int -> string)

  datatype Error = InvalidID | InvalidEmail | NotFound | Internal

  datatype Response =
    | Got(output: Output)
    | Updated(id: string, name: string, email: string, active: bool, updatedAt: string)
    | Deleted(id: string)
    | Failed(error: Error)

  /** How an I/O call ends: normally, or with an error before or after its effect. */
  datatype Fault = Fine | FailBefore | FailAfter

  datatype IO = IO(lookup: Fault, find: Fault, save: Fault, store: Fault)

  const GOOD := IO(Fine, Fine, Fine, Fine)

  type Table = map<string, User>

  type Cache = map<string, Output>

  datatype Db = Db(table: Table, cache: Cache)

  function CacheKey(text: string): string {
    "user:" + text
  }

  function ToOutput(env: Env, u: User): Output {
    Output(u.id, u.name, u.email, u.active, env.format(u.createdAt), env.format(u.updatedAt))
  }

  predicate EmailTaken(table: Table, id: string, email: string) {
    exists other :: other in table && other != id && table[other].email == email
  }

  // ---- Writing a row ----

  datatype Edit = Edit(name: Option<string>, email: Option<string>, now: int)

  /** The entity after the partial update; None when the address is refused. */
  function ApplyEdit(env: Env, u: User, e: Edit): Option<User> {
    var named := if e.name.Some? then u.(name := e.name.value, updatedAt := e.now) else u;
    if e.email.None? then Some(named)
    else
      var address := env.email(e.email.value);
      if address.None? then None else Some(named.(email := address.value, updatedAt := e.now))
  }

  /** The UPDATE statement: the row keeps its id and its time of creation. */
  function SaveRow(row: User, u: User): User {
    row.(name := u.name, email := u.email, active := u.active, updatedAt := u.updatedAt)
  }

  function RemoveRow(row: User, now: int): User {
    row.(active := false, updatedAt := now)
  }

  // ---- The executions ----

  function Invalidated(cached: bool, cache: Cache, text: string, store: Fault): Cache {
    if cached && store != FailBefore then cache - {CacheKey(text)} else cache
  }

  function Get(env: Env, cached: bool, db: Db, text: string, io: IO): (Db, Response) {
    if env.parse(text).None? then (db, Failed(InvalidID))
    else if cached && io.lookup == Fine && CacheKey(text) in db.cache then (db, Got(db.cache[CacheKey(text)]))
    else if io.find != Fine then (db, Failed(Internal))
    else if env.parse(text).value !in db.table then (db, Failed(NotFound))
    else
      var output := ToOutput(env, db.table[env.parse(text).value]);
      (if cached && io.store != FailBefore then db.(cache := db.cache[CacheKey(text) := output]) else db, Got(output))
  }

  function Update(env: Env, cached: bool, db: Db, text: string, e: Edit, io: IO): (Db, Response) {
    if env.parse(text).None? then (db, Failed(InvalidID))
    else if io.find != Fine then (db, Failed(Internal))
    else if env.parse(text).value !in db.table then (db, Failed(NotFound))
    else
      var edited := ApplyEdit(env, db.table[env.parse(text).value], e);
      if edited.None? then (db, Failed(InvalidEmail))
      else Save(env, cached, db, text, edited.value, io)
  }

  function Save(env: Env, cached: bool, db: Db, text: string, u: User, io: IO): (Db, Response) {
    if io.save == FailBefore then (db, Failed(Internal))
    else if u.id !in db.table then (db, Failed(NotFound))
    else if EmailTaken(db.table, u.id, u.email) then (db, Failed(Internal))
    else
      var table := db.table[u.id := SaveRow(db.table[u.id], u)];
      if io.save == FailAfter then (Db(table, db.cache), Failed(Internal))
      else
        (Db(table, Invalidated(cached, db.cache, text, io.store)),
         Updated(u.id, u.name, u.email, u.active, env.format(u.updatedAt)))
  }

  function Delete(env: Env, cached: bool, db: Db, text: string, now: int, io: IO): (Db, Response) {
    var id := env.parse(text);
    if id.None? then (db, Failed(InvalidID))
    else if io.save == FailBefore then (db, Failed(Internal))
    else if id.value !in db.table || !db.table[id.value].active then (db, Failed(NotFound))
    else
      var table := db.table[id.value := RemoveRow(db.table[id.value], now)];
      if io.save == FailAfter then (Db(table, db.cache), Failed(Internal))
      else (Db(table, Invalidated(cached, db.cache, text, io.store)), Deleted(text))
  }

  /** The three use cases over one table and one cache; `cached` tells whether a cache was configured. */
  class UseCases {
    const env: Env
    const cached: bool
    var table: Table
    var cache: Cache

    constructor (env: Env, cached: bool, table: Table)
      ensures this.env == env && this.cached == cached && this.table == table && cache == map[]
    {
      this.env, this.cached, this.table, this.cache := env, cached, table, map[];
    }

    method ExecuteGet(text: string, io: IO) returns (r: Response)
      modifies this`cache
      ensures (Db(table, cache), r) == Get(env, cached, Db(table, old(cache)), text, io)
    {
      var id := env.parse(text);
      if id.None? {
        return Failed(InvalidID);
      }
      var cacheKey := "user:" + text;
      if cached {
        if io.lookup == Fine && cacheKey in cache {
          return Got(cache[cacheKey]);
        }
      }
      if io.find != Fine {
        return Failed(Internal);
      }
      if id.value !in table {
        return Failed(NotFound);
      }
      var e := table[id.value];
      var output := Output(e.id, e.name, e.email, e.active, env.format(e.createdAt), env.format(e.updatedAt));
      if cached && io.store != FailBefore {
        cache := cache[cacheKey := output];
      }
      return Got(output);
    }

    method ExecuteUpdate(text: string, input: Edit, io: IO) returns (r: Response)
      modifies this
      ensures (Db(table, cache), r) == Update(env, cached, Db(old(table), old(cache)), text, input, io)
    {
      var id := env.parse(text);
      if id.None? {
        return Failed(InvalidID);
      }
      if io.find != Fine {
        return Failed(Internal);
      }
      if id.value !in table {
        return Failed(NotFound);
      }
      var e := table[id.value];
      if input.name.Some? {
        e := e.(name := input.name.value, updatedAt := input.now);
      }
      if input.email.Some? {
        var address := env.email(input.email.value);
        if address.None? {
          return Failed(InvalidEmail);
        }
        e := e.(email := address.value, updatedAt := input.now);
      }
      if io.save == FailBefore {
        return Failed(Internal);
      }
      if e.id !in table {
        return Failed(NotFound);
      }
      if EmailTaken(table, e.id, e.email) {
        return Failed(Internal);
      }
      table := table[e.id := SaveRow(table[e.id], e)];
      if io.save == FailAfter {
        return Failed(Internal);
      }
      if cached && io.store != FailBefore {
        cache := cache - {"user:" + text};
      }
      return Updated(e.id, e.name, e.email, e.active, env.format(e.updatedAt));
    }

    method ExecuteDelete(text: string, now: int, io: IO) returns (r: Response)
      modifies this
      ensures (Db(table, cache), r) == Delete(env, cached, Db(old(table), old(cache)), text, now, io)
    {
      var id := env.parse(text);
      if id.None? {
        return Failed(InvalidID);
      }
      if io.save == FailBefore {
        return Failed(Internal);
      }
      if id.value !in table || !table[id.value].active {
        return Failed(NotFound);
      }
      table := table[id.value := RemoveRow(table[id.value], now)];
      if io.save == FailAfter {
        return Failed(Internal);
      }
      if cached && io.store != FailBefore {
        cache := cache - {"user:" + text};
      }
      return Deleted(text);
    }
  }

  // ---- Runs of whole executions ----

  datatype Op = GetOp(text: string) | UpdateOp(text: string, edit: Edit) | DeleteOp(text: string, now: int)

  function Execute(env: Env, cached: bool, db: Db, op: Op): (Db, Response) {
    match op
    case GetOp(text) => Get(env, cached, db, text, GOOD)
    case UpdateOp(text, edit) => Update(env, cached, db, text, edit, GOOD)
    case DeleteOp(text, now) => Delete(env, cached, db, text, now, GOOD)
  }

  function Responses(env: Env, cached: bool, db: Db, ops: seq<Op>): seq<Response>
    decreases |ops|
  {
    if ops == [] then []
    else
      var (next, r) := Execute(env, cached, db, ops[0]);
      [r] + Responses(env, cached, next, ops[1..])
  }

  predicate Uses(ops: seq<Op>, texts: set<string>) {
    forall i :: 0 <= i < |ops| ==> ops[i].text in texts
  }

  /** Each row is stored under its own id. */
  predicate Keyed(table: Table) {
    forall id :: id in table ==> table[id].id == id
  }

  /** Among the spellings in use, no two name the same row. */
  predicate OneSpelling(env: Env, texts: set<string>) {
    forall a, b :: a in texts && b in texts && env.parse(a).Some? && env.parse(a) == env.parse(b) ==> a == b
  }

  predicate IsCurrent(env: Env, table: Table, text: string, output: Output) {
    env.parse(text).Some? && env.parse(text).value in table && output == ToOutput(env, table[env.parse(text).value])
  }

  /** Every cached value is what its row holds now. */
  predicate Coherent(env: Env, db: Db, texts: set<string>) {
    && Keyed(db.table)
    && (forall text :: text in texts && CacheKey(text) in db.cache ==>
        IsCurrent(env, db.table, text, db.cache[CacheKey(text)]))
  }

  lemma {:induction false} KeysDiffer(a: string, b: string)
    ensures CacheKey(a) == CacheKey(b) ==> a == b
  {
    assert CacheKey(a)[5..] == a && CacheKey(b)[5..] == b;
  }

  lemma {:induction false} GetCoherent(env: Env, db: Db, texts: set<string>, text: string)
    requires text in texts && Coherent(env, db, texts)
    ensures var (next, r) := Get(env, true, db, text, GOOD);
            && Coherent(env, next, texts) && next.table == db.table
            && forall cache :: Get(env, false, Db(db.table, cache), text, GOOD) == (Db(db.table, cache), r)
  {
    var next := Get(env, true, db, text, GOOD).0;
    forall other | other in texts && CacheKey(other) in next.cache
      ensures IsCurrent(env, next.table, other, next.cache[CacheKey(other)])
    {
      KeysDiffer(text, other);
    }
  }

  /** Writing the row of `text` and dropping its key leaves the other spellings' values current. */
  lemma {:induction false} WriteCoherent(env: Env, db: Db, texts: set<string>, text: string, row: User)
    requires text in texts && Coherent(env, db, texts) && OneSpelling(env, texts)
    requires env.parse(text).Some? && env.parse(text).value in db.table && row.id == env.parse(text).value
    ensures Coherent(env, Db(db.table[row.id := row], Invalidated(true, db.cache, text, Fine)), texts)
  {
    var next := Db(db.table[row.id := row], Invalidated(true, db.cache, text, Fine));
    forall other | other in texts && CacheKey(other) in next.cache
      ensures IsCurrent(env, next.table, other, next.cache[CacheKey(other)])
    {
      assert other != text;
      assert IsCurrent(env, db.table, other, db.cache[CacheKey(other)]);
    }
  }

  lemma {:induction false} UpdateCoherent(env: Env, db: Db, texts: set<string>, text: string, e: Edit)
    requires text in texts && Coherent(env, db, texts) && OneSpelling(env, texts)
    ensures var (next, r) := Update(env, true, db, text, e, GOOD);
            && Coherent(env, next, texts)
            && forall cache :: Update(env, false, Db(db.table, cache), text, e, GOOD) == (Db(next.table, cache), r)
  {
    var id := env.parse(text);
    if id.Some? && id.value in db.table {
      var edited := ApplyEdit(env, db.table[id.value], e);
      if edited.Some? {
        var u := edited.value;
        assert u.id == id.value;
        WriteCoherent(env, db, texts, text, SaveRow(db.table[u.id], u));
      }
    }
  }

  lemma {:induction false} DeleteCoherent(env: Env, db: Db, texts: set<string>, text: string, now: int)
    requires text in texts && Coherent(env, db, texts) && OneSpelling(env, texts)
    ensures var (next, r) := Delete(env, true, db, text, now, GOOD);
            && Coherent(env, next, texts)
            && forall cache :: Delete(env, false, Db(db.table, cache), text, now, GOOD) == (Db(next.table, cache), r)
  {
    var id := env.parse(text);
    if id.Some? && id.value in db.table && db.table[id.value].active {
      WriteCoherent(env, db, texts, text, RemoveRow(db.table[id.value], now));
    }
  }

  lemma {:induction false} ExecuteCoherent(env: Env, db: Db, texts: set<string>, op: Op)
    requires op.text in texts && Coherent(env, db, texts) && OneSpelling(env, texts)
    ensures var (next, r) := Execute(env, true, db, op);
            && Coherent(env, next, texts)
            && forall cache :: Execute(env, false, Db(db.table, cache), op) == (Db(next.table, cache), r)
  {
    match op
    case GetOp(text) => GetCoherent(env, db, texts, text);
    case UpdateOp(text, edit) => UpdateCoherent(env, db, texts, text, edit);
    case DeleteOp(text, now) => DeleteCoherent(env, db, texts, text, now);
  }

  lemma {:induction false} ResponsesAgree(env: Env, db: Db, cache: Cache, texts: set<string>, ops: seq<Op>)
    requires Uses(ops, texts) && Coherent(env, db, texts) && OneSpelling(env, texts)
    ensures Responses(env, true, db, ops) == Responses(env, false, Db(db.table, cache), ops)
    decreases |ops|
  {
    if ops != [] {
      ExecuteCoherent(env, db, texts, ops[0]);
      assert Uses(ops[1..], texts);
      ResponsesAgree(env, Execute(env, true, db, ops[0]).0, cache, texts, ops[1..]);
    }
  }

  /** The cache cannot be noticed: every run over these spellings is answered alike with it and without. */
  ghost predicate Unnoticeable(env: Env, texts: set<string>) {
    forall table, ops :: Keyed(table) && Uses(ops, texts) ==>
      Responses(env, true, Db(table, map[]), ops) == Responses(env, false, Db(table, map[]), ops)
  }

  lemma {:induction false} ThreeResponses(env: Env, cached: bool, db: Db, a: Op, b: Op, c: Op)
    ensures var (db1, r1) := Execute(env, cached, db, a);
            var (db2, r2) := Execute(env, cached, db1, b);
            var r3 := Execute(env, cached, db2, c).1;
            Responses(env, cached, db, [a, b, c]) == [r1, r2, r3]
  {
    var db1 := Execute(env, cached, db, a).0;
    var (db2, r2) := Execute(env, cached, db1, b);
    var (db3, r3) := Execute(env, cached, db2, c);
    assert [a, b, c][1..] == [b, c] && [b, c][1..] == [c] && [c][1..] == [];
    assert Responses(env, cached, db3, []) == [];
    assert Responses(env, cached, db2, [c]) == [r3] + [];
    assert Responses(env, cached, db1, [b, c]) == [r2] + [r3];
  }

  /** With two spellings of one id, an update by the second leaves the first one's value behind. */
  lemma {:induction false} SecondSpellingIsStale(env: Env, a: string, b: string)
    requires a != b && env.parse(a).Some? && env.parse(a) == env.parse(b)
    ensures !Unnoticeable(env, {a, b})
  {
    var id := env.parse(a).value;
    var before := User(id, "x", "", true, 0, 0);
    var after := before.(name := "y");
    var db := Db(map[id := before], map[]);
    var ops := [GetOp(a), UpdateOp(b, Edit(Some("y"), None, 0)), GetOp(a)];
    KeysDiffer(a, b);
    ThreeResponses(env, true, db, ops[0], ops[1], ops[2]);
    ThreeResponses(env, false, db, ops[0], ops[1], ops[2]);
    assert Execute(env, true, db, ops[0]) == (db.(cache := map[CacheKey(a) := ToOutput(env, before)]),
        Got(ToOutput(env, before)));
    assert Responses(env, true, db, ops)[2] == Got(ToOutput(env, before));
    assert Responses(env, false, db, ops)[2] == Got(ToOutput(env, after));
    assert Uses(ops, {a, b}) && Keyed(db.table);
  }

  lemma {:induction false} NoticeMore(env: Env, some: set<string>, texts: set<string>)
    requires some <= texts && Unnoticeable(env, texts)
    ensures Unnoticeable(env, some)
  {
    forall table, ops | Keyed(table) && Uses(ops, some)
      ensures Responses(env, true, Db(table, map[]), ops) == Responses(env, false, Db(table, map[]), ops)
    {
      assert Uses(ops, texts);
    }
  }

  /** Executions that nobody interrupts, with working I/O, are answered as without a cache exactly when
      every id is spelled in one way. */
  lemma {:induction false} UnnoticeableIffOneSpelling(env: Env, texts: set<string>)
    ensures Unnoticeable(env, texts) <==> OneSpelling(env, texts)
  {
    if OneSpelling(env, texts) {
      forall table, ops | Keyed(table) && Uses(ops, texts)
        ensures Responses(env, true, Db(table, map[]), ops) == Responses(env, false, Db(table, map[]), ops)
      {
        ResponsesAgree(env, Db(table, map[]), map[], texts, ops);
      }
    } else {
      var a, b :| a in texts && b in texts && env.parse(a).Some? && env.parse(a) == env.parse(b) && a != b;
      SecondSpellingIsStale(env, a, b);
      if Unnoticeable(env, texts) {
        NoticeMore(env, {a, b}, texts);
      }
    }
  }

  /** The canonical text form of an id is the one the row itself carries. */
  lemma {:induction false} CanonicalIsUnnoticed(env: Env, texts: set<string>)
    requires forall text :: text in texts ==> env.parse(text) == Some(text)
    ensures Unnoticeable(env, texts)
  {
    UnnoticeableIffOneSpelling(env, texts);
  }
}

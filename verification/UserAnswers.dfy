/** What the three user use cases answer, and what they leave in the table and in the cache, case by case. */
module UserAnswers {

  import opened Prelude
  import opened UserCache

  // ---- Get ----

  /** The printed form of a row. */
  predicate Shows(env: Env, o: Output, u: User) {
    && o.id == u.id && o.name == u.name && o.email == u.email && o.active == u.active
    && o.createdAt == env.format(u.createdAt) && o.updatedAt == env.format(u.updatedAt)
  }

  predicate FromCache(cached: bool, db: Db, text: string, io: IO) {
    cached && io.lookup == Fine && "user:" + text in db.cache
  }

  lemma {:induction false} GetRefusals(env: Env, cached: bool, db: Db, text: string, io: IO)
    ensures var r := Get(env, cached, db, text, io).1;
            var missed := env.parse(text).Some? && !FromCache(cached, db, text, io);
            && (r == Failed(InvalidID) <==> env.parse(text).None?)
            && (r == Failed(Internal) <==> missed && io.find != Fine)
            && (r == Failed(NotFound) <==> missed && io.find == Fine && env.parse(text).value !in db.table)
            && r != Failed(InvalidEmail)
  {
  }

  /** A cached value is answered as it is; otherwise the row is shown, and what is answered is stored under the
      text that was asked for. */
  lemma {:induction false} GetAnswers(env: Env, cached: bool, db: Db, text: string, io: IO)
    ensures var (next, r) := Get(env, cached, db, text, io);
            && next.table == db.table && !r.Updated? && !r.Deleted?
            && (r.Failed? ==> next == db)
            && (r.Got? && FromCache(cached, db, text, io) ==> r.output == db.cache["user:" + text] && next == db)
            && (r.Got? && !FromCache(cached, db, text, io) ==>
                && env.parse(text).Some? && env.parse(text).value in db.table
                && Shows(env, r.output, db.table[env.parse(text).value])
                && next.cache == if cached && io.store != FailBefore then db.cache["user:" + text := r.output]
                                 else db.cache)
  {
  }

  // ---- Update ----

  /** The name and the address that an edit gives to a row, where it gives any. */
  predicate Edits(env: Env, u: User, e: Edit, name: string, email: string) {
    && (e.name.Some? ==> name == e.name.value) && (e.name.None? ==> name == u.name)
    && (e.email.Some? ==> env.email(e.email.value) == Some(email)) && (e.email.None? ==> email == u.email)
  }

  predicate Refused(env: Env, e: Edit) {
    e.email.Some? && env.email(e.email.value).None?
  }

  predicate InUse(table: Table, id: string, email: string) {
    exists other :: other in table && other != id && table[other].email == email
  }

  /** The row after an accepted edit. */
  predicate Edited(env: Env, e: Edit, before: User, row: User, now: User) {
    && now.id == row.id && now.createdAt == row.createdAt
    && Edits(env, before, e, now.name, now.email) && now.active == before.active
    && now.updatedAt == if e.name.Some? || e.email.Some? then e.now else before.updatedAt
  }

  lemma {:induction false} EditEdits(env: Env, u: User, e: Edit)
    ensures ApplyEdit(env, u, e) == None <==> Refused(env, e)
    ensures var v := ApplyEdit(env, u, e); v.Some? ==> v.value.id == u.id && Edited(env, e, u, u, v.value)
  {
  }

  lemma {:induction false} SaveSaves(env: Env, row: User, u: User)
    ensures var v := SaveRow(row, u);
            && v.id == row.id && v.createdAt == row.createdAt && v.name == u.name && v.email == u.email
            && v.active == u.active && v.updatedAt == u.updatedAt
  {
  }

  /** The save fails or the address is in use. */
  ghost predicate NotSaved(env: Env, table: Table, u: User, e: Edit, io: IO) {
    || io.save == FailBefore
    || (u.id in table && (io.save == FailAfter ||
        exists name, email :: Edits(env, u, e, name, email) && InUse(table, u.id, email)))
  }

  lemma {:induction false} UpdateRefusals(env: Env, cached: bool, db: Db, text: string, e: Edit, io: IO)
    ensures var r := Update(env, cached, db, text, e, io).1;
            var id := env.parse(text);
            && (r == Failed(InvalidID) <==> id.None?)
            && (id.Some? && io.find != Fine ==> r == Failed(Internal))
            && (id.Some? && io.find == Fine && id.value !in db.table ==> r == Failed(NotFound))
            && (id.Some? && io.find == Fine && id.value in db.table ==>
                var u := db.table[id.value];
                && (r == Failed(InvalidEmail) <==> Refused(env, e))
                && (r == Failed(Internal) <==> !Refused(env, e) && NotSaved(env, db.table, u, e, io))
                && (r == Failed(NotFound) <==> !Refused(env, e) && io.save != FailBefore && u.id !in db.table))
  {
    var id := env.parse(text);
    if id.Some? && io.find == Fine && id.value in db.table && !Refused(env, e) {
      var u := db.table[id.value];
      EditEdits(env, u, e);
      var v := ApplyEdit(env, u, e).value;
      assert Edits(env, u, e, v.name, v.email);
      assert EmailTaken(db.table, u.id, v.email) <==> InUse(db.table, u.id, v.email);
      assert forall name, email :: Edits(env, u, e, name, email) ==> email == v.email;
    }
  }

  /** An accepted edit changes the one row, also when the answer of the database is lost; the answer shows the
      row, and the value cached under this text is dropped. */
  lemma {:induction false} UpdateAnswers(env: Env, cached: bool, db: Db, text: string, e: Edit, io: IO)
    ensures var (next, r) := Update(env, cached, db, text, e, io);
            && !r.Got? && !r.Deleted?
            && (next.table == db.table || (env.parse(text).Some? && env.parse(text).value in db.table &&
                var before := db.table[env.parse(text).value];
                && before.id in db.table && next.table.Keys == db.table.Keys
                && Edited(env, e, before, db.table[before.id], next.table[before.id])
                && forall other :: other in db.table && other != before.id ==> next.table[other] == db.table[other]))
            && (r.Failed? ==> next.cache == db.cache)
            && (r.Failed? && next.table != db.table ==> io.save == FailAfter)
  {
    var id := env.parse(text);
    if id.Some? && io.find == Fine && id.value in db.table && !Refused(env, e) {
      var u := db.table[id.value];
      EditEdits(env, u, e);
      if u.id in db.table {
        SaveSaves(env, db.table[u.id], ApplyEdit(env, u, e).value);
      }
    }
  }

  lemma {:induction false} UpdateShows(env: Env, cached: bool, db: Db, text: string, e: Edit, io: IO)
    ensures var (next, r) := Update(env, cached, db, text, e, io);
            r.Updated? ==>
              && env.parse(text).Some? && env.parse(text).value in db.table
              && var before := db.table[env.parse(text).value];
                 && before.id in next.table && before.id in db.table && r.id == before.id
                 && var now := next.table[before.id];
                    && Edited(env, e, before, db.table[before.id], now)
                    && r.name == now.name && r.email == now.email && r.active == now.active
                    && r.updatedAt == env.format(now.updatedAt)
                    && next.cache == if cached && io.store != FailBefore then db.cache - {"user:" + text} else db.cache
  {
    var id := env.parse(text);
    if id.Some? && io.find == Fine && id.value in db.table && !Refused(env, e) {
      var u := db.table[id.value];
      EditEdits(env, u, e);
      if u.id in db.table {
        SaveSaves(env, db.table[u.id], ApplyEdit(env, u, e).value);
      }
    }
  }

  // ---- Delete ----

  /** Only an active row can be deleted: the row stays, inactive, and nothing else of it changes but the time. */
  lemma {:induction false} DeleteAnswers(env: Env, cached: bool, db: Db, text: string, now: int, io: IO)
    ensures var (next, r) := Delete(env, cached, db, text, now, io);
            var id := env.parse(text);
            var present := id.Some? && id.value in db.table && db.table[id.value].active;
            && (r == Failed(InvalidID) <==> id.None?)
            && (r == Failed(NotFound) <==> id.Some? && io.save != FailBefore && !present)
            && (r == Failed(Internal) <==> id.Some? && (io.save == FailBefore || (present && io.save == FailAfter)))
            && r != Failed(InvalidEmail)
            && (r.Deleted? <==> present && io.save == Fine) && (r.Deleted? ==> r.id == text)
            && next.cache == (if r.Deleted? && cached && io.store != FailBefore then db.cache - {"user:" + text}
                              else db.cache)
            && (!(present && io.save != FailBefore) ==> next.table == db.table)
            && (present && io.save != FailBefore ==>
                && next.table.Keys == db.table.Keys
                && (forall other :: other in db.table && other != id.value ==> next.table[other] == db.table[other])
                && var (was, after) := (db.table[id.value], next.table[id.value]);
                   && !after.active && after.updatedAt == now
                   && after.id == was.id && after.name == was.name && after.email == was.email
                   && after.createdAt == was.createdAt)
  {
  }
}

/** What interleaving costs the user use cases: exactly when the cache stays current, and exactly when a
    deleted user stays deleted. */
module UserCacheCoherence {

  import opened Prelude
  import opened UserCache
  import opened UserCacheRuns

  // ---- When a cached value is current ----

  /** Some execution has written the row and will still drop the key of `text`. */
  ghost predicate DropPending(w: World, text: string) {
    exists r :: r in w.calls && Drops(w.calls[r], text)
  }

  predicate Drops(c: Call, text: string) {
    c.phase.Written? && c.text == text
  }

  ghost predicate DropPendingBut(w: World, text: string, r: Rid) {
    exists q :: q in w.calls && q != r && Drops(w.calls[q], text)
  }

  predicate CachedIsCurrent(env: Env, w: World, text: string) {
    CacheKey(text) in w.cache ==> IsCurrent(env, Newest(w.rows), text, w.cache[CacheKey(text)])
  }

  /** Every cached value is what its row holds now, or is about to be dropped. */
  ghost predicate Settled(env: Env, w: World) {
    forall text :: CachedIsCurrent(env, w, text) || DropPending(w, text)
  }

  /** With no write under way, all of the cache is current. */
  lemma {:induction false} SettledAtRest(env: Env, w: World)
    requires Settled(env, w) && forall r :: r in w.calls ==> !w.calls[r].phase.Written?
    ensures forall text :: CachedIsCurrent(env, w, text)
  {
    forall text
      ensures CachedIsCurrent(env, w, text)
    {
      assert !DropPending(w, text);
    }
  }

  /** Storing what a Get has read makes the cached value current exactly if the version it read shows what
      the newest version shows. */
  lemma {:induction false} StoredIsCurrentIff(env: Env, w: World, r: Rid, fault: Fault)
    requires Sound(env, w) && r in w.calls && w.calls[r].phase.Loaded? && fault != FailBefore
    ensures var (c, next) := (w.calls[r], Exec(env, w, Store(r, fault)));
            && CacheKey(c.text) in next.cache && c.id in w.rows && c.phase.version < |w.rows[c.id]|
            && (CachedIsCurrent(env, next, c.text) <==>
                ToOutput(env, w.rows[c.id][c.phase.version]) == ToOutput(env, Last(w.rows[c.id])))
  {
    assert CallHeld(env, w, w.calls[r]);
  }

  // ---- The steps that can leave a stale value behind ----

  /** The version that a step is about to add to a row, with the row's id. */
  function Added(w: World, s: Step): Option<(string, User)> {
    match s
    case Save(r, fault) =>
      if r in w.calls && w.calls[r].phase.Edited? && fault != FailBefore then
        var u := w.calls[r].phase.user;
        var row := SavedRow(w.rows, u);
        if row.Some? then Some((u.id, row.value)) else None
      else None
    case Remove(r, fault) =>
      if r in w.calls && w.calls[r].phase.Removing? && fault != FailBefore then
        var id := w.calls[r].id;
        var row := RemovedRow(w.rows, id, w.calls[r].phase.now);
        if row.Some? then Some((id, row.value)) else None
      else None
    case _ => None
  }

  /** A write spares a cached spelling of its row if it does not change what is shown, if it is going to drop
      that spelling's key itself, or if another write is. */
  ghost predicate Spares(env: Env, w: World, s: Step, text: string)
    requires Added(w, s).Some?
  {
    var (id, row) := Added(w, s).value;
    CacheKey(text) in w.cache && env.parse(text) == Some(id) ==>
      || w.cache[CacheKey(text)] == ToOutput(env, row)
      || (s.fault == Fine && text == w.calls[s.r].text)
      || DropPending(w, text)
  }

  /** A Get stores nothing but what the row holds, unless the key is about to be dropped; a write leaves no
      other spelling behind; and an invalidation that fails leaves nothing stale to another one. */
  ghost predicate KeepsCurrent(env: Env, w: World, s: Step) {
    match s
    case Store(r, fault) =>
      r in w.calls && w.calls[r].phase.Loaded? && fault != FailBefore ==>
        IsCurrent(env, Newest(w.rows), w.calls[r].text, w.calls[r].phase.output) || DropPending(w, w.calls[r].text)
    case Invalidate(r, fault) =>
      r in w.calls && w.calls[r].phase.Written? && fault == FailBefore ==>
        CachedIsCurrent(env, w, w.calls[r].text) || DropPendingBut(w, w.calls[r].text, r)
    case _ => Added(w, s).Some? ==> forall text :: Spares(env, w, s, text)
  }

  /** Nothing that is due to be dropped is forgotten. */
  ghost predicate KeepsDrops(w: World, next: World) {
    forall r :: r in w.calls && w.calls[r].phase.Written? ==> r in next.calls && next.calls[r] == w.calls[r]
  }

  lemma {:induction false} DropsStay(w: World, next: World, text: string)
    requires KeepsDrops(w, next) && DropPending(w, text)
    ensures DropPending(next, text)
  {
    var r :| r in w.calls && Drops(w.calls[r], text);
    assert Drops(next.calls[r], text);
  }

  lemma {:induction false} SettledStays(env: Env, w: World, next: World)
    requires Settled(env, w) && KeepsDrops(w, next)
    requires forall text :: CachedIsCurrent(env, w, text) ==> CachedIsCurrent(env, next, text)
    ensures Settled(env, next)
  {
    forall text
      ensures CachedIsCurrent(env, next, text) || DropPending(next, text)
    {
      if !CachedIsCurrent(env, w, text) {
        DropsStay(w, next, text);
      }
    }
  }

  predicate Moves(s: Step) {
    s.Begin? || s.Lookup? || s.Join? || s.Find? || s.FindForEdit?
  }

  lemma {:induction false} MoveStays(env: Env, w: World, s: Step)
    requires Settled(env, w) && Moves(s)
    ensures Settled(env, Exec(env, w, s))
  {
    var next := Exec(env, w, s);
    assert next.rows == w.rows && next.cache == w.cache;
    assert KeepsDrops(w, next);
    SettledStays(env, w, next);
  }

  lemma {:induction false} ExpireStays(env: Env, w: World, key: string)
    requires Settled(env, w)
    ensures Settled(env, Exec(env, w, Expire(key)))
  {
    SettledStays(env, w, Exec(env, w, Expire(key)));
  }

  lemma {:induction false} CreateStays(env: Env, w: World, u: User)
    requires Sound(env, w) && Settled(env, w)
    ensures Settled(env, Exec(env, w, Create(u)))
  {
    var next := Exec(env, w, Create(u));
    NewestOfAppend(w.rows, u.id, u);
    NewestIsKeyed(w.rows);
    SettledStays(env, w, next);
  }

  lemma {:induction false} StoreEffect(env: Env, w: World, r: Rid, fault: Fault)
    requires r in w.calls && w.calls[r].phase.Loaded? && fault != FailBefore
    ensures var (c, next) := (w.calls[r], Exec(env, w, Store(r, fault)));
            && KeepsDrops(w, next) && KeepsDrops(next, w)
            && (CachedIsCurrent(env, next, c.text) <==> IsCurrent(env, Newest(w.rows), c.text, c.phase.output))
            && forall text :: text != c.text ==> (CachedIsCurrent(env, next, text) <==> CachedIsCurrent(env, w, text))
  {
    var (c, next) := (w.calls[r], Exec(env, w, Store(r, fault)));
    forall text | text != c.text
      ensures CachedIsCurrent(env, next, text) <==> CachedIsCurrent(env, w, text)
    {
      KeysDiffer(text, c.text);
    }
  }

  lemma {:induction false} StoreSettledIff(env: Env, w: World, r: Rid, fault: Fault)
    requires Settled(env, w)
    ensures Settled(env, Exec(env, w, Store(r, fault))) <==> KeepsCurrent(env, w, Store(r, fault))
  {
    var next := Exec(env, w, Store(r, fault));
    if r in w.calls && w.calls[r].phase.Loaded? && fault != FailBefore {
      StoreEffect(env, w, r, fault);
      SameDrops(w, next);
      assert CachedIsCurrent(env, next, w.calls[r].text) || DropPending(next, w.calls[r].text) <==>
             KeepsCurrent(env, w, Store(r, fault));
    } else {
      SettledStays(env, w, next);
    }
  }

  /** No write is begun or ended by the step. */
  lemma {:induction false} SameDrops(w: World, next: World)
    requires KeepsDrops(w, next) && KeepsDrops(next, w)
    ensures forall text :: DropPending(w, text) <==> DropPending(next, text)
  {
    forall text
      ensures DropPending(w, text) <==> DropPending(next, text)
    {
      if DropPending(w, text) {
        DropsStay(w, next, text);
      }
      if DropPending(next, text) {
        DropsStay(next, w, text);
      }
    }
  }

  lemma {:induction false} InvalidateSettledIff(env: Env, w: World, r: Rid, fault: Fault)
    requires Sound(env, w) && Settled(env, w)
    ensures Settled(env, Exec(env, w, Invalidate(r, fault))) <==> KeepsCurrent(env, w, Invalidate(r, fault))
  {
    var next := Exec(env, w, Invalidate(r, fault));
    if r in w.calls && w.calls[r].phase.Written? {
      var text := w.calls[r].text;
      DropsOfOthers(env, w, r, fault);
      assert fault == FailBefore ==> (CachedIsCurrent(env, next, text) <==> CachedIsCurrent(env, w, text));
      if KeepsCurrent(env, w, Invalidate(r, fault)) {
        forall other
          ensures CachedIsCurrent(env, next, other) || DropPending(next, other)
        {
          KeysDiffer(other, text);
          assert CachedIsCurrent(env, w, other) ==> CachedIsCurrent(env, next, other);
        }
      }
    }
  }

  lemma {:induction false} DropsOfOthers(env: Env, w: World, r: Rid, fault: Fault)
    requires r in w.calls && w.calls[r].phase.Written?
    ensures var next := Exec(env, w, Invalidate(r, fault));
            && (forall text :: DropPending(next, text) <==> DropPendingBut(w, text, r))
            && (forall text :: text != w.calls[r].text ==> (DropPending(w, text) <==> DropPending(next, text)))
  {
    var next := Exec(env, w, Invalidate(r, fault));
    forall text
      ensures DropPending(next, text) <==> DropPendingBut(w, text, r)
      ensures text != w.calls[r].text ==> (DropPending(w, text) <==> DropPending(next, text))
    {
      if DropPending(next, text) {
        var q :| q in next.calls && Drops(next.calls[q], text);
        assert q != r && Drops(w.calls[q], text);
      }
      if DropPendingBut(w, text, r) {
        var q :| q in w.calls && q != r && Drops(w.calls[q], text);
        assert Drops(next.calls[q], text);
      }
      if DropPending(w, text) && text != w.calls[r].text {
        var q :| q in w.calls && Drops(w.calls[q], text);
        assert q != r;
      }
    }
  }

  lemma {:induction false} SaveEffect(env: Env, w: World, r: Rid, fault: Fault)
    ensures var (added, next) := (Added(w, Save(r, fault)), Exec(env, w, Save(r, fault)));
            && next.cache == w.cache
            && next.rows == (if added.Some? then Append(w.rows, added.value.0, added.value.1) else w.rows)
            && KeepsDrops(w, next)
            && (added.None? ==> KeepsDrops(next, w))
    ensures Added(w, Save(r, fault)).Some? ==> r in w.calls
    ensures Added(w, Save(r, fault)).Some? ==>
              forall q :: q in w.calls ==> Exec(env, w, Save(r, fault)).calls[q] == w.calls[q] || q == r
    ensures Added(w, Save(r, fault)).Some? ==>
              && Exec(env, w, Save(r, fault)).calls.Keys == w.calls.Keys
                  && Exec(env, w, Save(r, fault)).calls[r].text == w.calls[r].text
              && (Exec(env, w, Save(r, fault)).calls[r].phase.Written? <==> fault == Fine)
  {
  }

  lemma {:induction false} RemoveEffect(env: Env, w: World, r: Rid, fault: Fault)
    ensures var (added, next) := (Added(w, Remove(r, fault)), Exec(env, w, Remove(r, fault)));
            && next.cache == w.cache
            && next.rows == (if added.Some? then Append(w.rows, added.value.0, added.value.1) else w.rows)
            && KeepsDrops(w, next)
            && (added.None? ==> KeepsDrops(next, w))
    ensures Added(w, Remove(r, fault)).Some? ==> r in w.calls
    ensures Added(w, Remove(r, fault)).Some? ==>
              forall q :: q in w.calls ==> Exec(env, w, Remove(r, fault)).calls[q] == w.calls[q] || q == r
    ensures Added(w, Remove(r, fault)).Some? ==>
              && Exec(env, w, Remove(r, fault)).calls.Keys == w.calls.Keys
                  && Exec(env, w, Remove(r, fault)).calls[r].text == w.calls[r].text
              && (Exec(env, w, Remove(r, fault)).calls[r].phase.Written? <==> fault == Fine)
  {
  }

  lemma {:induction false} WriteEffect(env: Env, w: World, s: Step)
    requires s.Save? || s.Remove?
    ensures var (added, next) := (Added(w, s), Exec(env, w, s));
            && next.cache == w.cache
            && next.rows == (if added.Some? then Append(w.rows, added.value.0, added.value.1) else w.rows)
            && KeepsDrops(w, next)
            && (added.None? ==> KeepsDrops(next, w))
    ensures Added(w, s).Some? ==> s.r in w.calls
    ensures Added(w, s).Some? ==>
              forall q :: q in w.calls ==> Exec(env, w, s).calls[q] == w.calls[q] || q == s.r
    ensures Added(w, s).Some? ==>
              && Exec(env, w, s).calls.Keys == w.calls.Keys && Exec(env, w, s).calls[s.r].text == w.calls[s.r].text
              && (Exec(env, w, s).calls[s.r].phase.Written? <==> s.fault == Fine)
  {
    if s.Save? {
      SaveEffect(env, w, s.r, s.fault);
    } else {
      RemoveEffect(env, w, s.r, s.fault);
    }
  }

  lemma {:induction false} DropsAfterWrite(env: Env, w: World, s: Step, text: string)
    requires (s.Save? || s.Remove?) && Added(w, s).Some?
    ensures s.r in w.calls
    ensures DropPending(Exec(env, w, s), text) <==>
            DropPending(w, text) || (s.fault == Fine && text == w.calls[s.r].text)
  {
    WriteEffect(env, w, s);
    var next := Exec(env, w, s);
    if DropPending(w, text) {
      DropsStay(w, next, text);
    }
    if s.fault == Fine && text == w.calls[s.r].text {
      assert Drops(next.calls[s.r], text);
    }
    if DropPending(next, text) {
      var q :| q in next.calls && Drops(next.calls[q], text);
      assert q != s.r ==> Drops(w.calls[q], text);
    }
  }

  lemma {:induction false} CurrentAfterWrite(env: Env, w: World, s: Step, text: string)
    requires (s.Save? || s.Remove?) && Added(w, s).Some?
    ensures var (id, row) := Added(w, s).value;
            CachedIsCurrent(env, Exec(env, w, s), text) <==>
            if env.parse(text) == Some(id) then CacheKey(text) in w.cache ==>
                w.cache[CacheKey(text)] == ToOutput(env, row)
            else CachedIsCurrent(env, w, text)
  {
    WriteEffect(env, w, s);
    var (id, row) := Added(w, s).value;
    NewestOfAppend(w.rows, id, row);
  }

  lemma {:induction false} WriteSettledIff(env: Env, w: World, s: Step)
    requires Settled(env, w) && (s.Save? || s.Remove?)
    ensures Settled(env, Exec(env, w, s)) <==> KeepsCurrent(env, w, s)
  {
    WriteEffect(env, w, s);
    var next := Exec(env, w, s);
    if Added(w, s).None? {
      SettledStays(env, w, next);
    } else {
      forall text
        ensures Spares(env, w, s, text) <==> CachedIsCurrent(env, next, text) || DropPending(next, text)
      {
        DropsAfterWrite(env, w, s, text);
        CurrentAfterWrite(env, w, s, text);
        assert CachedIsCurrent(env, w, text) || DropPending(w, text);
      }
    }
  }

  /** A step keeps the cache settled exactly if it stores, writes or gives up nothing that would stay stale. */
  lemma {:induction false} StepSettledIff(env: Env, w: World, s: Step)
    requires Sound(env, w) && Settled(env, w)
    ensures Settled(env, Exec(env, w, s)) <==> KeepsCurrent(env, w, s)
  {
    if s.Store? {
      StoreSettledIff(env, w, s.r, s.fault);
    } else if s.Invalidate? {
      InvalidateSettledIff(env, w, s.r, s.fault);
    } else if s.Save? || s.Remove? {
      WriteSettledIff(env, w, s);
    } else if s.Create? {
      CreateStays(env, w, s.user);
    } else if s.Expire? {
      ExpireStays(env, w, s.key);
    } else {
      MoveStays(env, w, s);
    }
  }

  ghost predicate SettledThroughout(env: Env, steps: seq<Step>) {
    forall n :: 0 <= n <= |steps| ==> Settled(env, Run(env, EMPTY, steps[..n]))
  }

  ghost predicate AllKeepCurrent(env: Env, steps: seq<Step>) {
    forall n :: 0 <= n < |steps| ==> KeepsCurrent(env, Run(env, EMPTY, steps[..n]), steps[n])
  }

  lemma {:induction false} RunNext(env: Env, w: World, steps: seq<Step>, n: nat)
    requires n < |steps|
    ensures Run(env, w, steps[..n + 1]) == Exec(env, Run(env, w, steps[..n]), steps[n])
  {
    assert Front(steps[..n + 1]) == steps[..n] && Last(steps[..n + 1]) == steps[n];
  }

  lemma {:induction false} SettledUpTo(env: Env, steps: seq<Step>, n: nat)
    requires n <= |steps| && AllKeepCurrent(env, steps)
    ensures Settled(env, Run(env, EMPTY, steps[..n]))
  {
    if n == 0 {
      assert steps[..0] == [];
    } else {
      SettledUpTo(env, steps, n - 1);
      RunNext(env, EMPTY, steps, n - 1);
      RunIsSound(env, steps[..n - 1]);
      StepSettledIff(env, Run(env, EMPTY, steps[..n - 1]), steps[n - 1]);
    }
  }

  /** Under any interleaving, the cache is settled at every moment exactly if each step keeps it so. */
  lemma {:induction false} SettledIff(env: Env, steps: seq<Step>)
    ensures SettledThroughout(env, steps) <==> AllKeepCurrent(env, steps)
  {
    if AllKeepCurrent(env, steps) {
      forall n | 0 <= n <= |steps|
        ensures Settled(env, Run(env, EMPTY, steps[..n]))
      {
        SettledUpTo(env, steps, n);
      }
    }
    if SettledThroughout(env, steps) {
      forall n | 0 <= n < |steps|
        ensures KeepsCurrent(env, Run(env, EMPTY, steps[..n]), steps[n])
      {
        RunNext(env, EMPTY, steps, n);
        RunIsSound(env, steps[..n]);
        StepSettledIff(env, Run(env, EMPTY, steps[..n]), steps[n]);
      }
    }
  }

  // ---- When a deleted user stays deleted ----

  /** The row an update saves is active exactly if the version it read was. */
  lemma {:induction false} SavedActiveIff(env: Env, w: World, r: Rid, fault: Fault)
    requires Sound(env, w) && r in w.calls && w.calls[r].phase.Edited? && Added(w, Save(r, fault)).Some?
    ensures var (c, next) := (w.calls[r], Exec(env, w, Save(r, fault)));
            && c.id in w.rows && c.phase.version < |w.rows[c.id]| && c.id in Newest(next.rows)
            && (Newest(next.rows)[c.id].active <==> w.rows[c.id][c.phase.version].active)
  {
    var c := w.calls[r];
    assert CallHeld(env, w, c);
    WriteEffect(env, w, Save(r, fault));
    NewestOfAppend(w.rows, c.id, Added(w, Save(r, fault)).value.1);
  }

  predicate Inactive(w: World, id: string) {
    id in Newest(w.rows) && !Newest(w.rows)[id].active
  }

  /** The step saves an update of row `id` that read an active version. */
  predicate Revives(w: World, s: Step, id: string) {
    && s.Save? && Added(w, s).Some? && Added(w, s).value.0 == id
    && s.r in w.calls && w.calls[s.r].phase.Edited?
    && id in w.rows && w.calls[s.r].phase.version < |w.rows[id]| && w.rows[id][w.calls[s.r].phase.version].active
  }

  lemma {:induction false} NewestUnchanged(env: Env, w: World, s: Step, id: string)
    requires id in Newest(w.rows) && (Added(w, s).Some? ==> Added(w, s).value.0 != id)
    ensures id in Newest(Exec(env, w, s).rows) && Newest(Exec(env, w, s).rows)[id] == Newest(w.rows)[id]
  {
    if s.Save? || s.Remove? {
      WriteEffect(env, w, s);
    }
  }

  lemma {:induction false} StepInactiveIff(env: Env, w: World, s: Step, id: string)
    requires Sound(env, w) && Inactive(w, id)
    ensures Inactive(Exec(env, w, s), id) <==> !Revives(w, s, id)
  {
    if s.Save? && Added(w, s).Some? && Added(w, s).value.0 == id {
      assert CallHeld(env, w, w.calls[s.r]);
      SavedActiveIff(env, w, s.r, s.fault);
    } else {
      NewestUnchanged(env, w, s, id);
    }
  }

  ghost predicate InactiveThroughout(env: Env, w: World, steps: seq<Step>, id: string) {
    forall n :: 0 <= n <= |steps| ==> Inactive(Run(env, w, steps[..n]), id)
  }

  ghost predicate NoneRevives(env: Env, w: World, steps: seq<Step>, id: string) {
    forall n :: 0 <= n < |steps| ==> !Revives(Run(env, w, steps[..n]), steps[n], id)
  }

  lemma {:induction false} InactiveUpTo(env: Env, w: World, steps: seq<Step>, id: string, n: nat)
    requires Sound(env, w) && Inactive(w, id) && n <= |steps| && NoneRevives(env, w, steps, id)
    ensures Inactive(Run(env, w, steps[..n]), id)
  {
    if n == 0 {
      assert steps[..0] == [];
    } else {
      InactiveUpTo(env, w, steps, id, n - 1);
      RunNext(env, w, steps, n - 1);
      RunIsSoundFrom(env, w, steps[..n - 1]);
      StepInactiveIff(env, Run(env, w, steps[..n - 1]), steps[n - 1], id);
    }
  }

  /** After any run, a deleted user stays deleted through the next steps exactly if none of them saves an
      update that read an active version. */
  lemma {:induction false} StaysInactiveIff(env: Env, before: seq<Step>, steps: seq<Step>, id: string)
    requires Inactive(Run(env, EMPTY, before), id)
    ensures var w := Run(env, EMPTY, before); InactiveThroughout(env, w, steps, id) <==> NoneRevives(env, w, steps, id)
  {
    var w := Run(env, EMPTY, before);
    RunIsSound(env, before);
    if NoneRevives(env, w, steps, id) {
      forall n | 0 <= n <= |steps|
        ensures Inactive(Run(env, w, steps[..n]), id)
      {
        InactiveUpTo(env, w, steps, id, n);
      }
    }
    if InactiveThroughout(env, w, steps, id) {
      forall n | 0 <= n < |steps|
        ensures !Revives(Run(env, w, steps[..n]), steps[n], id)
      {
        RunNext(env, w, steps, n);
        RunIsSoundFrom(env, w, steps[..n]);
        StepInactiveIff(env, Run(env, w, steps[..n]), steps[n], id);
      }
    }
  }

  // ---- Two runs that break them ----

  /** `steps` lead from the start to `w`. */
  ghost predicate Reaches(env: Env, steps: seq<Step>, w: World) {
    Run(env, EMPTY, steps) == w
  }

  lemma {:induction false} ReachesNext(env: Env, steps: seq<Step>, w: World, s: Step, next: World)
    requires Reaches(env, steps, w) && Exec(env, w, s) == next
    ensures Reaches(env, steps + [s], next)
  {
    assert Front(steps + [s]) == steps;
  }

  /** One row with one version, and one execution. */
  function OneCall(u: User, text: string, phase: Phase): World {
    World(map[u.id := [u]], map[], map[0 := Call(text, u.id, phase)])
  }

  lemma {:induction false} BeginOne(env: Env, u: User, text: string, request: Request) returns (steps: seq<Step>)
    requires env.parse(text) == Some(u.id)
    ensures Reaches(env, steps, OneCall(u, text, Opening(request)))
  {
    var created := World(map[u.id := [u]], map[], map[]);
    assert [] + [u] == [u];
    assert Append(EMPTY.rows, u.id, u) == created.rows;
    ReachesNext(env, [], EMPTY, Create(u), created);
    ReachesNext(env, [] + [Create(u)], created, Begin(0, text, request), OneCall(u, text, Opening(request)));
    steps := [] + [Create(u)] + [Begin(0, text, request)];
  }

  lemma {:induction false} PhaseNext(env: Env, u: User, text: string, phase: Phase, s: Step, next: Phase)
    requires
      || (s == Lookup(0, true) && phase == Looking && next == Missed)
      || (s == Find(0, Version(0)) && phase == Missed && next == Loaded(ToOutput(env, u), 0))
      || (s == FindForEdit(0, Version(0)) && phase.Finding? && next.Edited? && next.version == 0
          && ApplyEdit(env, u, phase.edit) == Some(next.user))
    ensures Exec(env, OneCall(u, text, phase), s) == OneCall(u, text, next)
  {
  }

  /** A Get that has read the only version of its row. */
  lemma {:induction false} ReachesReader(env: Env, u: User, text: string) returns (steps: seq<Step>)
    requires env.parse(text) == Some(u.id)
    ensures Reaches(env, steps, OneCall(u, text, Loaded(ToOutput(env, u), 0)))
  {
    steps := BeginOne(env, u, text, GetRequest);
    var (w1, w2) := (OneCall(u, text, Looking), OneCall(u, text, Missed));
    PhaseNext(env, u, text, Looking, Lookup(0, true), Missed);
    ReachesNext(env, steps, w1, Lookup(0, true), w2);
    steps := steps + [Lookup(0, true)];
    PhaseNext(env, u, text, Missed, Find(0, Version(0)), Loaded(ToOutput(env, u), 0));
    ReachesNext(env, steps, w2, Find(0, Version(0)), OneCall(u, text, Loaded(ToOutput(env, u), 0)));
    steps := steps + [Find(0, Version(0))];
  }

  /** An Update that has read the only version of its row. */
  lemma {:induction false} ReachesEditor(env: Env, u: User, text: string, edit: Edit, v: User)
    returns (steps: seq<Step>)
    requires env.parse(text) == Some(u.id) && ApplyEdit(env, u, edit) == Some(v)
    ensures Reaches(env, steps, OneCall(u, text, Edited(v, 0)))
  {
    steps := BeginOne(env, u, text, UpdateRequest(edit));
    PhaseNext(env, u, text, Finding(edit), FindForEdit(0, Version(0)), Edited(v, 0));
    ReachesNext(env, steps, OneCall(u, text, Finding(edit)), FindForEdit(0, Version(0)),
                OneCall(u, text, Edited(v, 0)));
    steps := steps + [FindForEdit(0, Version(0))];
  }

  lemma {:induction false} ReachesUpdate(env: Env, before: seq<Step>, w: World, text: string, edit: Edit)
    returns (steps: seq<Step>)
    requires Reaches(env, before, w)
    ensures Reaches(env, steps, UpdateAlone(env, w, 1, text, edit, GOOD))
  {
    var w1 := Exec(env, w, Begin(1, text, UpdateRequest(edit)));
    ReachesNext(env, before, w, Begin(1, text, UpdateRequest(edit)), w1);
    steps := before + [Begin(1, text, UpdateRequest(edit))];
    var find := FindForEdit(1, Latest(w1.rows, Named(env, text), Fine));
    var w2 := Exec(env, w1, find);
    ReachesNext(env, steps, w1, find, w2);
    steps := steps + [find];
    var w3 := Exec(env, w2, Save(1, Fine));
    ReachesNext(env, steps, w2, Save(1, Fine), w3);
    steps := steps + [Save(1, Fine)];
    ReachesNext(env, steps, w3, Invalidate(1, Fine), Exec(env, w3, Invalidate(1, Fine)));
    steps := steps + [Invalidate(1, Fine)];
  }

  lemma {:induction false} ReachesDelete(env: Env, before: seq<Step>, w: World, text: string, now: int)
    returns (steps: seq<Step>)
    requires Reaches(env, before, w)
    ensures Reaches(env, steps, DeleteAlone(env, w, 1, text, now, GOOD))
  {
    var w1 := Exec(env, w, Begin(1, text, DeleteRequest(now)));
    ReachesNext(env, before, w, Begin(1, text, DeleteRequest(now)), w1);
    steps := before + [Begin(1, text, DeleteRequest(now))];
    var w2 := Exec(env, w1, Remove(1, Fine));
    ReachesNext(env, steps, w1, Remove(1, Fine), w2);
    steps := steps + [Remove(1, Fine)];
    ReachesNext(env, steps, w2, Invalidate(1, Fine), Exec(env, w2, Invalidate(1, Fine)));
    steps := steps + [Invalidate(1, Fine)];
  }

  /** What `other` was before it still is. */
  predicate SameCall(w: World, next: World, other: Rid) {
    (other in next.calls <==> other in w.calls) && (other in w.calls ==> next.calls[other] == w.calls[other])
  }

  lemma {:induction false} StepLeavesOthers(env: Env, w: World, s: Step, other: Rid)
    requires (s.Begin? || s.FindForEdit? || s.Save? || s.Remove? || s.Invalidate?) && s.r != other
    ensures SameCall(w, Exec(env, w, s), other)
  {
  }

  lemma {:induction false} UpdateLeavesOthers(env: Env, w: World, text: string, edit: Edit, other: Rid)
    requires other != 1
    ensures SameCall(w, UpdateAlone(env, w, 1, text, edit, GOOD), other)
  {
    var w1 := Exec(env, w, Begin(1, text, UpdateRequest(edit)));
    StepLeavesOthers(env, w, Begin(1, text, UpdateRequest(edit)), other);
    var find := FindForEdit(1, Latest(w1.rows, Named(env, text), Fine));
    StepLeavesOthers(env, w1, find, other);
    var w2 := Exec(env, w1, find);
    StepLeavesOthers(env, w2, Save(1, Fine), other);
    StepLeavesOthers(env, Exec(env, w2, Save(1, Fine)), Invalidate(1, Fine), other);
  }

  lemma {:induction false} DeleteLeavesOthers(env: Env, w: World, text: string, now: int, other: Rid)
    requires other != 1
    ensures SameCall(w, DeleteAlone(env, w, 1, text, now, GOOD), other)
  {
    var w1 := Exec(env, w, Begin(1, text, DeleteRequest(now)));
    StepLeavesOthers(env, w, Begin(1, text, DeleteRequest(now)), other);
    StepLeavesOthers(env, w1, Remove(1, Fine), other);
    StepLeavesOthers(env, Exec(env, w1, Remove(1, Fine)), Invalidate(1, Fine), other);
  }

  lemma {:induction false} EditedRow(env: Env, u: User, edit: Edit, v: User)
    requires ApplyEdit(env, u, edit) == Some(v)
    ensures SaveRow(u, v) == v && v.id == u.id && v.active == u.active
  {
  }

  lemma {:induction false} UpdateOneRow(env: Env, u: User, text: string, edit: Edit, v: User, cache: Cache)
    requires env.parse(text) == Some(u.id) && ApplyEdit(env, u, edit) == Some(v)
    ensures var (db, response) := Update(env, true, Db(map[u.id := u], cache), text, edit, GOOD);
            db.table == map[u.id := v] && response.Updated?
  {
    EditedRow(env, u, edit, v);
  }

  /** The world after an Update has run past a Get that has read the row. */
  ghost predicate IsUpdated(env: Env, u: User, text: string, v: User, updated: World) {
    && Newest(updated.rows) == map[u.id := v] && updated.calls.Keys == {0, 1}
    && updated.calls[0] == Call(text, u.id, Loaded(ToOutput(env, u), 0))
    && updated.calls[1].phase.Over? && updated.calls[1].phase.response.Updated?
  }

  lemma {:induction false} UpdatedPastReader(env: Env, u: User, text: string, edit: Edit, v: User)
    requires env.parse(text) == Some(u.id) && ApplyEdit(env, u, edit) == Some(v)
    ensures IsUpdated(env, u, text, v,
                      UpdateAlone(env, OneCall(u, text, Loaded(ToOutput(env, u), 0)), 1, text, edit, GOOD))
  {
    var w := OneCall(u, text, Loaded(ToOutput(env, u), 0));
    var updated := UpdateAlone(env, w, 1, text, edit, GOOD);
    UpdateIsRun(env, w, 1, text, edit, GOOD);
    assert Current(w) == Db(map[u.id := u], map[]);
    UpdateOneRow(env, u, text, edit, v, map[]);
    UpdateAddsOne(env, w, text, edit, updated);
  }

  lemma {:induction false} UpdateAddsOne(env: Env, w: World, text: string, edit: Edit, updated: World)
    requires updated == UpdateAlone(env, w, 1, text, edit, GOOD) && 1 in updated.calls
    requires w.calls.Keys == {0}
    ensures updated.calls.Keys == {0, 1} && updated.calls[0] == w.calls[0]
  {
    forall other | other != 1
      ensures SameCall(w, updated, other)
    {
      UpdateLeavesOthers(env, w, text, edit, other);
    }
    assert SameCall(w, updated, 0);
    forall other
      ensures other in updated.calls <==> other in {0, 1}
    {
      assert other != 1 ==> SameCall(w, updated, other);
    }
  }

  lemma {:induction false} StoreAfterwards(env: Env, w: World, output: Output)
    requires 0 in w.calls && w.calls[0].phase.Loaded? && w.calls[0].phase.output == output
    ensures var after := Exec(env, w, Store(0, Fine));
            && after.rows == w.rows && CacheKey(w.calls[0].text) in after.cache
            && after.cache[CacheKey(w.calls[0].text)] == output
            && after.calls == w.calls[0 := w.calls[0].(phase := Over(Got(output)))]
  {
  }

  /** For every change of a user there is a run, all of whose calls succeed and end, that leaves the old value
      in the cache: a Get reads the row, an Update changes it and drops the key, and the Get then stores what
      it has read. */
  lemma {:induction false} LateStoreIsStale(env: Env, u: User, text: string, edit: Edit, v: User)
    returns (steps: seq<Step>)
    requires env.parse(text) == Some(u.id) && ApplyEdit(env, u, edit) == Some(v)
    requires ToOutput(env, v) != ToOutput(env, u)
    ensures var after := Run(env, EMPTY, steps);
            && CacheKey(text) in after.cache && u.id in Newest(after.rows)
            && after.cache[CacheKey(text)] == ToOutput(env, u) != ToOutput(env, Newest(after.rows)[u.id])
            && after.calls.Keys == {0, 1}
            && after.calls[0].phase == Over(Got(ToOutput(env, u)))
            && after.calls[1].phase.Over? && after.calls[1].phase.response.Updated?
  {
    var w := OneCall(u, text, Loaded(ToOutput(env, u), 0));
    var updated := UpdateAlone(env, w, 1, text, edit, GOOD);
    steps := ReachesReader(env, u, text);
    steps := ReachesUpdate(env, steps, w, text, edit);
    UpdatedPastReader(env, u, text, edit, v);
    StoreAfterwards(env, updated, ToOutput(env, u));
    ReachesNext(env, steps, updated, Store(0, Fine), Exec(env, updated, Store(0, Fine)));
    steps := steps + [Store(0, Fine)];
  }

  /** The world after a Delete has run past an Update that has read the row. */
  lemma {:induction false} DeletedPastEditor(env: Env, u: User, text: string, v: User, now: int)
    requires env.parse(text) == Some(u.id) && u.active
    ensures var deleted := DeleteAlone(env, OneCall(u, text, Edited(v, 0)), 1, text, now, GOOD);
            && Newest(deleted.rows) == map[u.id := RemoveRow(u, now)]
            && 0 in deleted.calls && deleted.calls[0].phase == Edited(v, 0)
            && 1 in deleted.calls && deleted.calls[1].phase == Over(Deleted(text))
  {
    var w := OneCall(u, text, Edited(v, 0));
    DeleteIsRun(env, w, 1, text, now, GOOD);
    DeleteLeavesOthers(env, w, text, now, 0);
    assert Current(w).table == map[u.id := u];
  }

  lemma {:induction false} SaveAfterwards(env: Env, w: World, v: User, row: User)
    requires 0 in w.calls && w.calls[0].phase == Edited(v, 0) && Newest(w.rows) == map[v.id := row] && v.active
    ensures var saved := Exec(env, w, Save(0, Fine)); v.id in Newest(saved.rows) && Newest(saved.rows)[v.id].active
  {
    NewestOfAppend(w.rows, v.id, SaveRow(row, v));
  }

  /** For every accepted change of an active user there is a run in which a Delete succeeds and ends, and an
      Update that had read the row before then makes the user active again. */
  lemma {:induction false} LateSaveRevives(env: Env, u: User, text: string, edit: Edit, v: User, now: int)
    returns (steps: seq<Step>)
    requires env.parse(text) == Some(u.id) && ApplyEdit(env, u, edit) == Some(v) && u.active
    ensures var deleted := Run(env, EMPTY, steps);
            && Inactive(deleted, u.id) && 1 in deleted.calls && deleted.calls[1].phase == Over(Deleted(text))
    ensures var saved := Run(env, EMPTY, steps + [Save(0, Fine)]);
            u.id in Newest(saved.rows) && Newest(saved.rows)[u.id].active
  {
    var w := OneCall(u, text, Edited(v, 0));
    var deleted := DeleteAlone(env, w, 1, text, now, GOOD);
    steps := ReachesEditor(env, u, text, edit, v);
    steps := ReachesDelete(env, steps, w, text, now);
    DeletedPastEditor(env, u, text, v, now);
    EditedRow(env, u, edit, v);
    SaveAfterwards(env, deleted, v, RemoveRow(u, now));
    ReachesNext(env, steps, deleted, Save(0, Fine), Exec(env, deleted, Save(0, Fine)));
  }
}

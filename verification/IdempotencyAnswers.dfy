/** What the requests of a run are told, in terms of the store and of earlier requests: the four answers of
    internal/infrastructure/web/middleware/idempotency.go to a request that finds its key taken, and what a
    lock holder leaves behind. */
module IdempotencyAnswers {

  import opened Prelude
  import opened Idempotency

  // ---- The answers, from the entry that is read ----

  /** A request that reads an entry in progress is refused as a conflict, one that reads a completed entry of
      another body as a mismatch, and any other completed entry is replayed. */
  lemma {:induction false} AnswerToTakenKey(reqs: Requests, ls: seq<Label>, r: Rid)
    requires Exec(reqs, Initial(reqs), ls + [Get(r, true)]).Some?
    ensures r in reqs && Exec(reqs, Initial(reqs), ls).Some?
    ensures var (s, t) := (Exec(reqs, Initial(reqs), ls).value, Exec(reqs, Initial(reqs), ls + [Get(r, true)]).value);
            var (k, fp, store) := (reqs[r].key, reqs[r].fingerprint, s.store);
            && t.store == store && r in t.phases
            && (t.phases[r] == Finished(Conflict) <==> k in store && store[k].status == Processing)
            && (t.phases[r] == Finished(Mismatch) <==>
                k in store && store[k].status == Completed && store[k].fingerprint != "" && store[k].fingerprint != fp)
            && (k in store && store[k].status == Completed && (store[k].fingerprint == "" || store[k].fingerprint == fp)
                ==> t.phases[r] == Finished(Replayed(store[k].statusCode, store[k].body)))
            && (k !in store ==> t.phases[r] == Handling(false, [], []))
  {
    assert Front(ls + [Get(r, true)]) == ls;
  }

  /** A lock attempt whose call works takes a free key and is told so, and finds a taken one taken. */
  lemma {:induction false} AnswerToLock(reqs: Requests, ls: seq<Label>, r: Rid)
    requires Exec(reqs, Initial(reqs), ls + [Lock(r, NoFault)]).Some?
    ensures r in reqs && Exec(reqs, Initial(reqs), ls).Some?
    ensures var s := Exec(reqs, Initial(reqs), ls).value;
            var t := Exec(reqs, Initial(reqs), ls + [Lock(r, NoFault)]).value;
            var k := reqs[r].key;
            && r in t.phases && (Holds(t, r) <==> k !in s.store) && (t.phases[r] == Blocked <==> k in s.store)
            && t.store == if k in s.store then s.store else s.store[k := Entry(Processing, 0, [], reqs[r].fingerprint)]
  {
    assert Front(ls + [Lock(r, NoFault)]) == ls;
  }

  /** A lock holder whose last call takes effect leaves its response behind exactly if its status is in
      200..499, and otherwise frees the key. */
  lemma {:induction false} SettledKey(reqs: Requests, ls: seq<Label>, r: Rid, fault: Fault)
    requires Exec(reqs, Initial(reqs), ls + [Settle(r, fault)]).Some? && fault != FailBefore
    ensures r in reqs && Exec(reqs, Initial(reqs), ls).Some?
    ensures var s := Exec(reqs, Initial(reqs), ls).value;
            var t := Exec(reqs, Initial(reqs), ls + [Settle(r, fault)]).value;
            var k := reqs[r].key;
            exists status :: Return(r, status) in ls
              && t.phases == s.phases[r := Finished(Answered(status, SentBy(ls, r)))]
              && t.store == if 200 <= status < 500 then
                              s.store[k := Entry(Completed, status, WrittenBy(ls, r), reqs[r].fingerprint)]
                            else s.store - {k}
  {
    assert Front(ls + [Settle(r, fault)]) == ls;
    var s := Exec(reqs, Initial(reqs), ls).value;
    OutputIsTold(reqs, ls);
    assert PhaseTells(ls, r, s.phases[r]);
    assert Return(r, s.phases[r].statusCode) in ls;
  }

  // ---- What a refusal says about the past ----

  /** An earlier request of the same key returned a response to be stored, for another body. */
  ghost predicate OtherBodyStored(reqs: Requests, runs: seq<HandlerRun>, r: Rid)
    requires r in reqs
  {
    exists run :: run in runs && run.rid in reqs && reqs[run.rid].key == reqs[r].key
                  && reqs[run.rid].fingerprint != reqs[r].fingerprint && 200 <= run.status < 500
  }

  /** The handler of the request runs or has run. */
  predicate Ran(p: Phase) {
    p.Handling? || p.Settling? || (p.Finished? && (p.outcome.Answered? || p.outcome.Panicked?))
  }

  ghost predicate SomeRan(reqs: Requests, s: State, k: Key) {
    exists q :: q in reqs && q in s.phases && reqs[q].key == k && Ran(s.phases[q])
  }

  /** Every key in the store is that of a request whose handler runs or has run, and every refusal has its
      reason. */
  ghost predicate RefusalsAreReal(reqs: Requests, s: State) {
    && (forall k :: k in s.store ==> SomeRan(reqs, s, k))
    && (forall r :: r in s.phases && r in reqs && s.phases[r] == Finished(Conflict) ==> SomeRan(reqs, s, reqs[r].key))
    && (forall r :: r in s.phases && r in reqs && s.phases[r] == Finished(Mismatch) ==>
          OtherBodyStored(reqs, s.runs, r))
  }

  lemma {:induction false} StillRan(reqs: Requests, s: State, l: Label, k: Key)
    requires Enabled(reqs, s, l) && SomeRan(reqs, s, k)
    ensures SomeRan(reqs, Step(reqs, s, l), k)
  {
    var q :| q in reqs && q in s.phases && reqs[q].key == k && Ran(s.phases[q]);
    assert q in Step(reqs, s, l).phases && Ran(Step(reqs, s, l).phases[q]);
  }

  lemma {:induction false} StillStored(reqs: Requests, s: State, l: Label, r: Rid)
    requires Enabled(reqs, s, l) && r in reqs && OtherBodyStored(reqs, s.runs, r)
    ensures OtherBodyStored(reqs, Step(reqs, s, l).runs, r)
  {
    var run :| run in s.runs && run.rid in reqs && reqs[run.rid].key == reqs[r].key
        && reqs[run.rid].fingerprint != reqs[r].fingerprint && 200 <= run.status < 500;
    assert run in Step(reqs, s, l).runs;
  }

  lemma {:induction false} StoredKeyRan(reqs: Requests, s: State, l: Label, k: Key)
    requires Enabled(reqs, s, l) && RefusalsAreReal(reqs, s) && k in Step(reqs, s, l).store
    ensures SomeRan(reqs, Step(reqs, s, l), k)
  {
    if k in s.store {
      StillRan(reqs, s, l, k);
    } else {
      assert l.r in reqs && reqs[l.r].key == k && Ran(Step(reqs, s, l).phases[l.r]);
    }
  }

  lemma {:induction false} NewRefusal(reqs: Requests, s: State, l: Label)
    requires Faithful(reqs, s) && RefusalsAreReal(reqs, s) && Enabled(reqs, s, l) && l.Get?
    ensures Step(reqs, s, l).phases[l.r] == Finished(Conflict) ==> SomeRan(reqs, Step(reqs, s, l), reqs[l.r].key)
    ensures Step(reqs, s, l).phases[l.r] == Finished(Mismatch) ==> OtherBodyStored(reqs, s.runs, l.r)
  {
    var k := reqs[l.r].key;
    if Step(reqs, s, l).phases[l.r] == Finished(Conflict) {
      StillRan(reqs, s, l, k);
    } else if Step(reqs, s, l).phases[l.r] == Finished(Mismatch) {
      var e := s.store[k];
      assert FromRun(reqs, s.runs, k, e.fingerprint, e.statusCode, e.body);
      var run :| run in s.runs && run.rid in reqs && reqs[run.rid] == Request(k, e.fingerprint)
          && run.status == e.statusCode && run.captured == e.body;
      assert reqs[run.rid].key == k && reqs[run.rid].fingerprint != reqs[l.r].fingerprint;
    }
  }

  lemma {:induction false} StepKeepsReal(reqs: Requests, s: State, l: Label)
    requires Faithful(reqs, s) && RefusalsAreReal(reqs, s) && Enabled(reqs, s, l)
    ensures RefusalsAreReal(reqs, Step(reqs, s, l))
  {
    var t := Step(reqs, s, l);
    forall k | k in t.store
      ensures SomeRan(reqs, t, k)
    {
      StoredKeyRan(reqs, s, l, k);
    }
    forall r | r in t.phases && r in reqs && (t.phases[r] == Finished(Conflict) || t.phases[r] == Finished(Mismatch))
      ensures t.phases[r] == Finished(Conflict) ==> SomeRan(reqs, t, reqs[r].key)
      ensures t.phases[r] == Finished(Mismatch) ==> OtherBodyStored(reqs, t.runs, r)
    {
      if !l.Expire? && r == l.r {
        NewRefusal(reqs, s, l);
        assert t.runs == s.runs;
      } else {
        assert t.phases[r] == s.phases[r];
        if t.phases[r] == Finished(Conflict) {
          StillRan(reqs, s, l, reqs[r].key);
        } else {
          StillStored(reqs, s, l, r);
        }
      }
    }
  }

  lemma {:induction false} RunKeepsReal(reqs: Requests, ls: seq<Label>)
    requires ValidRequests(reqs) && Exec(reqs, Initial(reqs), ls).Some?
    ensures RefusalsAreReal(reqs, Exec(reqs, Initial(reqs), ls).value)
    decreases |ls|
  {
    if ls != [] {
      RunKeepsReal(reqs, Front(ls));
      RunKeepsFaithful(reqs, Front(ls));
      StepKeepsReal(reqs, Exec(reqs, Initial(reqs), Front(ls)).value, Last(ls));
    }
  }

  /** In every run, whatever expires or fails: who is refused for another body is so because of an earlier run
      under the lock, for the same key and another body, with a status in 200..499. */
  lemma {:induction false} MismatchIsReal(reqs: Requests, ls: seq<Label>, r: Rid)
    requires ValidRequests(reqs) && Exec(reqs, Initial(reqs), ls).Some? && r in reqs
    requires var p := Exec(reqs, Initial(reqs), ls).value.phases; r in p && p[r] == Finished(Mismatch)
    ensures exists run :: ReturnedUnderLock(reqs, ls, run) && run.rid in reqs && reqs[run.rid].key == reqs[r].key
                          && reqs[run.rid].fingerprint != reqs[r].fingerprint && 200 <= run.status < 500
  {
    RunKeepsReal(reqs, ls);
    var s := Exec(reqs, Initial(reqs), ls).value;
    var run :| run in s.runs && run.rid in reqs && reqs[run.rid].key == reqs[r].key
        && reqs[run.rid].fingerprint != reqs[r].fingerprint && 200 <= run.status < 500;
    RecordedRunsHeldTheLock(reqs, ls, run);
  }

  /** Who is refused for a conflict shares its key with another request whose handler runs or has run. */
  lemma {:induction false} ConflictIsReal(reqs: Requests, ls: seq<Label>, r: Rid) returns (q: Rid)
    requires ValidRequests(reqs) && Exec(reqs, Initial(reqs), ls).Some? && r in reqs
    requires var p := Exec(reqs, Initial(reqs), ls).value.phases; r in p && p[r] == Finished(Conflict)
    ensures q != r && q in reqs && reqs[q].key == reqs[r].key
    ensures var p := Exec(reqs, Initial(reqs), ls).value.phases; q in p && Ran(p[q])
  {
    RunKeepsReal(reqs, ls);
    var s := Exec(reqs, Initial(reqs), ls).value;
    assert SomeRan(reqs, s, reqs[r].key);
    q :| q in reqs && q in s.phases && reqs[q].key == reqs[r].key && Ran(s.phases[q]);
  }
}

/** How often a handler can run under the lock to a response that is kept: a bound for every run of the
    idempotency protocol, whatever store calls fail, and runs that attain it. */
module AtMostOnce {

  import opened Prelude
  import opened Idempotency

  predicate ForKey(reqs: Requests, r: Rid, k: Key) {
    r in reqs && reqs[r].key == k
  }

  /** The completed handler runs for a key whose response is to be stored. */
  function Kept(reqs: Requests, runs: seq<HandlerRun>, k: Key): seq<HandlerRun> {
    if runs == [] then []
    else
      Kept(reqs, Front(runs), k) +
      if ForKey(reqs, Last(runs).rid, k) && 200 <= Last(runs).status < 500 then [Last(runs)] else []
  }

  function Expiries(ls: seq<Label>, k: Key): nat {
    if ls == [] then 0 else Expiries(Front(ls), k) + if Last(ls) == Expire(k) then 1 else 0
  }

  /** A lock holder that may still return a response to be stored, or free the key. */
  predicate IsPending(p: Phase) {
    (p.Handling? && p.holder) || (p.Settling? && !ShouldStoreResponse(p.statusCode))
  }

  function Pending(reqs: Requests, s: State, k: Key): set<Rid> {
    set r | r in s.phases && ForKey(reqs, r, k) && IsPending(s.phases[r])
  }

  /** The kept runs, those that may still be kept, and one more when the key is free. */
  function Charge(reqs: Requests, s: State, k: Key): nat {
    |Kept(reqs, s.runs, k)| + |Pending(reqs, s, k)| + if k in s.store then 0 else 1
  }

  lemma {:induction false} PendingAfter(reqs: Requests, s: State, l: Label, k: Key)
    requires Enabled(reqs, s, l) && !l.Expire?
    ensures var (next, now) := (Step(reqs, s, l), Pending(reqs, s, k));
            Pending(reqs, next, k) ==
            if ForKey(reqs, l.r, k) && IsPending(next.phases[l.r]) then now + {l.r} else now - {l.r}
  {
    var next := Step(reqs, s, l);
    assert next.phases.Keys == s.phases.Keys;
    assert forall r :: r in s.phases && r != l.r ==> next.phases[r] == s.phases[r];
  }

  lemma {:induction false} Sizes(now: set<Rid>, r: Rid)
    ensures |now + {r}| == |now| + if r in now then 0 else 1
    ensures |now - {r}| == |now| - if r in now then 1 else 0
  {
    if r in now {
      assert now + {r} == now;
    } else {
      assert now - {r} == now;
    }
  }

  lemma {:induction false} KeptAfter(reqs: Requests, runs: seq<HandlerRun>, run: HandlerRun, k: Key)
    ensures Kept(reqs, runs + [run], k) ==
            Kept(reqs, runs, k) + if ForKey(reqs, run.rid, k) && 200 <= run.status < 500 then [run] else []
  {
    assert Front(runs + [run]) == runs;
  }

  lemma {:induction false} ExpiryCharge(reqs: Requests, s: State, k: Key, other: Key)
    requires other in s.store
    ensures Charge(reqs, Step(reqs, s, Expire(other)), k) <= Charge(reqs, s, k) + if other == k then 1 else 0
  {
    assert Pending(reqs, Step(reqs, s, Expire(other)), k) == Pending(reqs, s, k);
  }

  lemma {:induction false} LockCharge(reqs: Requests, s: State, l: Label, k: Key)
    requires Enabled(reqs, s, l) && l.Lock?
    ensures Charge(reqs, Step(reqs, s, l), k) <= Charge(reqs, s, k)
  {
    PendingAfter(reqs, s, l, k);
    Sizes(Pending(reqs, s, k), l.r);
  }

  lemma {:induction false} SettleCharge(reqs: Requests, s: State, l: Label, k: Key)
    requires Enabled(reqs, s, l) && l.Settle?
    ensures Charge(reqs, Step(reqs, s, l), k) <= Charge(reqs, s, k)
  {
    PendingAfter(reqs, s, l, k);
    Sizes(Pending(reqs, s, k), l.r);
  }

  lemma {:induction false} ReturnCharge(reqs: Requests, s: State, l: Label, k: Key)
    requires Enabled(reqs, s, l) && l.Return?
    ensures Charge(reqs, Step(reqs, s, l), k) <= Charge(reqs, s, k)
  {
    PendingAfter(reqs, s, l, k);
    Sizes(Pending(reqs, s, k), l.r);
    ReturnKeeps(reqs, s, l, k);
  }

  lemma {:induction false} ReturnKeeps(reqs: Requests, s: State, l: Label, k: Key)
    requires Enabled(reqs, s, l) && l.Return?
    ensures var (next, holder) := (Step(reqs, s, l), s.phases[l.r].holder);
            var added := if holder && ForKey(reqs, l.r, k) && ShouldStoreResponse(l.status) then 1 else 0;
            && next.store == s.store && |Kept(reqs, next.runs, k)| == |Kept(reqs, s.runs, k)| + added
            && (IsPending(next.phases[l.r]) <==> holder && !ShouldStoreResponse(l.status))
  {
    if s.phases[l.r].holder {
      KeptAfter(reqs, s.runs, HandlerRun(l.r, l.status, s.phases[l.r].sent, s.phases[l.r].captured), k);
    }
  }

  /** Steps inside a handler change neither the store nor the recorded runs, and make nobody a holder. */
  lemma {:induction false} OtherKeeps(reqs: Requests, s: State, l: Label)
    requires Enabled(reqs, s, l) && !l.Expire? && !l.Lock? && !l.Settle? && !l.Return?
    ensures var next := Step(reqs, s, l);
            && next.store == s.store && next.runs == s.runs
            && (IsPending(next.phases[l.r]) ==> IsPending(s.phases[l.r]))
  {
  }

  lemma {:induction false} OtherCharge(reqs: Requests, s: State, l: Label, k: Key)
    requires Enabled(reqs, s, l) && !l.Expire? && !l.Lock? && !l.Settle? && !l.Return?
    ensures Charge(reqs, Step(reqs, s, l), k) <= Charge(reqs, s, k)
  {
    OtherKeeps(reqs, s, l);
    PendingAfter(reqs, s, l, k);
    Sizes(Pending(reqs, s, k), l.r);
  }

  /** Only the expiry of the key raises the charge, by one. */
  lemma {:induction false} StepCharge(reqs: Requests, s: State, l: Label, k: Key)
    requires Enabled(reqs, s, l)
    ensures Charge(reqs, Step(reqs, s, l), k) <= Charge(reqs, s, k) + if l == Expire(k) then 1 else 0
  {
    if l.Expire? {
      ExpiryCharge(reqs, s, k, l.k);
    } else if l.Lock? {
      LockCharge(reqs, s, l, k);
    } else if l.Settle? {
      SettleCharge(reqs, s, l, k);
    } else if l.Return? {
      ReturnCharge(reqs, s, l, k);
    } else {
      OtherCharge(reqs, s, l, k);
    }
  }

  lemma {:induction false} RunCharge(reqs: Requests, ls: seq<Label>, k: Key)
    requires Exec(reqs, Initial(reqs), ls).Some?
    ensures Charge(reqs, Exec(reqs, Initial(reqs), ls).value, k) <= 1 + Expiries(ls, k)
    decreases |ls|
  {
    if ls == [] {
      assert Pending(reqs, Initial(reqs), k) == {};
    } else {
      RunCharge(reqs, Front(ls), k);
      StepCharge(reqs, Exec(reqs, Initial(reqs), Front(ls)).value, Last(ls), k);
    }
  }

  /** In every run, whatever store calls fail and whatever expires, the responses to be stored for a key are
      at most one more than the expiries of its entry. */
  lemma {:induction false} KeptAtMostExpiries(reqs: Requests, ls: seq<Label>, k: Key)
    requires Exec(reqs, Initial(reqs), ls).Some?
    ensures |Kept(reqs, Exec(reqs, Initial(reqs), ls).value.runs, k)| <= 1 + Expiries(ls, k)
  {
    RunCharge(reqs, ls, k);
  }

  // ---- The bound is attained ----

  lemma {:induction false} LockFree(reqs: Requests, s: State, r: Rid)
    requires r in reqs && r in s.phases && s.phases[r] == Arrived && reqs[r].key !in s.store
    ensures Enabled(reqs, s, Lock(r, NoFault))
    ensures var t := Step(reqs, s, Lock(r, NoFault));
            && reqs[r].key in t.store && t.runs == s.runs && t.phases == s.phases[r := Handling(true, [], [])]
  {
  }

  lemma {:induction false} ReturnHeld(reqs: Requests, t: State, r: Rid)
    requires r in reqs && r in t.phases && t.phases[r] == Handling(true, [], [])
    ensures Enabled(reqs, t, Return(r, 200))
    ensures var u := Step(reqs, t, Return(r, 200));
            && u.store == t.store && u.phases == t.phases[r := Settling(200, [], [])]
            && |Kept(reqs, u.runs, reqs[r].key)| == |Kept(reqs, t.runs, reqs[r].key)| + 1
  {
    KeptAfter(reqs, t.runs, HandlerRun(r, 200, [], []), reqs[r].key);
  }

  lemma {:induction false} OneMore(reqs: Requests, ls: seq<Label>, s: State, r: Rid)
    returns (ls': seq<Label>, s': State)
    requires Exec(reqs, Initial(reqs), ls) == Some(s) && r in reqs && r in s.phases && s.phases[r] == Arrived
    requires reqs[r].key !in s.store
    ensures Exec(reqs, Initial(reqs), ls') == Some(s') && reqs[r].key in s'.store
    ensures ls' == ls + [Lock(r, NoFault)] + [Return(r, 200)]
    ensures |Kept(reqs, s'.runs, reqs[r].key)| == |Kept(reqs, s.runs, reqs[r].key)| + 1
    ensures s'.phases == s.phases[r := Settling(200, [], [])]
  {
    var (l, m) := (Lock(r, NoFault), Return(r, 200));
    LockFree(reqs, s, r);
    var t := Step(reqs, s, l);
    ReturnHeld(reqs, t, r);
    Extend(reqs, Initial(reqs), ls, s, l);
    Extend(reqs, Initial(reqs), ls + [l], t, m);
    ls', s' := ls + [l] + [m], Step(reqs, t, m);
  }

  lemma {:induction false} ExpiriesAfter(ls: seq<Label>, l: Label, k: Key)
    ensures Expiries(ls + [l], k) == Expiries(ls, k) + if l == Expire(k) then 1 else 0
  {
    assert Front(ls + [l]) == ls;
  }

  ghost predicate Distinct(rids: seq<Rid>) {
    forall i, j :: 0 <= i < j < |rids| ==> rids[i] != rids[j]
  }

  lemma {:induction false} FirstOne(reqs: Requests, r: Rid) returns (ls: seq<Label>, s: State)
    requires r in reqs
    ensures Exec(reqs, Initial(reqs), ls) == Some(s) && reqs[r].key in s.store
    ensures |Kept(reqs, s.runs, reqs[r].key)| == 1 && Expiries(ls, reqs[r].key) == 0
    ensures s.phases == Initial(reqs).phases[r := Settling(200, [], [])]
  {
    ls, s := OneMore(reqs, [], Initial(reqs), r);
    ExpiriesAfter([], Lock(r, NoFault), reqs[r].key);
    ExpiriesAfter([] + [Lock(r, NoFault)], Return(r, 200), reqs[r].key);
  }

  /** After an expiry the next request runs its handler, too. */
  lemma {:induction false} OneMoreAfterExpiry(reqs: Requests, ls: seq<Label>, s: State, r: Rid)
    returns (ls': seq<Label>, s': State)
    requires Exec(reqs, Initial(reqs), ls) == Some(s) && r in reqs && r in s.phases && s.phases[r] == Arrived
    requires reqs[r].key in s.store
    ensures Exec(reqs, Initial(reqs), ls') == Some(s') && reqs[r].key in s'.store
    ensures Expiries(ls', reqs[r].key) == Expiries(ls, reqs[r].key) + 1
    ensures |Kept(reqs, s'.runs, reqs[r].key)| == |Kept(reqs, s.runs, reqs[r].key)| + 1
    ensures s'.phases == s.phases[r := Settling(200, [], [])]
  {
    var k := reqs[r].key;
    Extend(reqs, Initial(reqs), ls, s, Expire(k));
    ls', s' := OneMore(reqs, ls + [Expire(k)], Step(reqs, s, Expire(k)), r);
    ExpiriesAfter(ls, Expire(k), k);
    ExpiriesAfter(ls + [Expire(k)], Lock(r, NoFault), k);
    ExpiriesAfter(ls + [Expire(k)] + [Lock(r, NoFault)], Return(r, 200), k);
  }

  lemma {:induction false} LastIsNew(rids: seq<Rid>)
    requires rids != [] && Distinct(rids)
    ensures Distinct(Front(rids)) && Last(rids) !in Front(rids)
    ensures forall r :: r in rids <==> r in Front(rids) || r == Last(rids)
  {
    assert rids == Front(rids) + [Last(rids)];
  }

  /** For any number of requests with one key there is a run that keeps a response of each of them, with one
      expiry between two of them. */
  lemma {:induction false} BoundIsAttained(reqs: Requests, rids: seq<Rid>, k: Key)
    returns (ls: seq<Label>, s: State)
    requires rids != [] && Distinct(rids) && forall r :: r in rids ==> ForKey(reqs, r, k)
    ensures Exec(reqs, Initial(reqs), ls) == Some(s) && k in s.store
    ensures |Kept(reqs, s.runs, k)| == |rids| == 1 + Expiries(ls, k)
    ensures s.phases.Keys == reqs.Keys && forall r :: r in reqs && r !in rids ==> s.phases[r] == Arrived
  {
    var (f, r) := (Front(rids), Last(rids));
    LastIsNew(rids);
    if f == [] {
      ls, s := FirstOne(reqs, r);
    } else {
      ls, s := BoundIsAttained(reqs, f, k);
      ls, s := OneMoreAfterExpiry(reqs, ls, s, r);
    }
  }

  // ---- What clients are replayed ----

  ghost predicate IsKept(reqs: Requests, runs: seq<HandlerRun>, k: Key, status: int, body: Bytes) {
    exists run :: run in Kept(reqs, runs, k) && run.status == status && run.captured == body
  }

  lemma {:induction false} InKept(reqs: Requests, runs: seq<HandlerRun>, k: Key, run: HandlerRun)
    ensures run in Kept(reqs, runs, k) <==> run in runs && ForKey(reqs, run.rid, k) && 200 <= run.status < 500
  {
    if runs != [] {
      InKept(reqs, Front(runs), k, run);
      assert runs == Front(runs) + [Last(runs)];
    }
  }

  ghost predicate ReplaysAreKept(reqs: Requests, s: State, k: Key) {
    forall r :: r in s.phases && ForKey(reqs, r, k) && s.phases[r].Finished? && s.phases[r].outcome.Replayed? ==>
      IsKept(reqs, s.runs, k, s.phases[r].outcome.status, s.phases[r].outcome.body)
  }

  lemma {:induction false} FromRunIsKept(reqs: Requests, runs: seq<HandlerRun>, k: Key, fingerprint: string,
      status: int, body: Bytes)
    requires FromRun(reqs, runs, k, fingerprint, status, body)
    ensures IsKept(reqs, runs, k, status, body)
  {
    var run :| run in runs && run.rid in reqs && reqs[run.rid] == Request(k, fingerprint) && run.status == status
        && run.captured == body;
    InKept(reqs, runs, k, run);
  }

  lemma {:induction false} KeptStays(reqs: Requests, s: State, l: Label, k: Key, status: int, body: Bytes)
    requires Enabled(reqs, s, l) && IsKept(reqs, s.runs, k, status, body)
    ensures IsKept(reqs, Step(reqs, s, l).runs, k, status, body)
  {
    var run :| run in Kept(reqs, s.runs, k) && run.status == status && run.captured == body;
    InKept(reqs, s.runs, k, run);
    InKept(reqs, Step(reqs, s, l).runs, k, run);
  }

  lemma {:induction false} StepReplays(reqs: Requests, s: State, l: Label, k: Key)
    requires Faithful(reqs, s) && ReplaysAreKept(reqs, s, k) && Enabled(reqs, s, l)
    ensures ReplaysAreKept(reqs, Step(reqs, s, l), k)
  {
    var next := Step(reqs, s, l);
    forall r | r in next.phases && ForKey(reqs, r, k) && next.phases[r].Finished? && next.phases[r].outcome.Replayed?
      ensures IsKept(reqs, next.runs, k, next.phases[r].outcome.status, next.phases[r].outcome.body)
    {
      if !l.Expire? && r == l.r {
        var e := s.store[k];
        FromRunIsKept(reqs, s.runs, k, e.fingerprint, e.statusCode, e.body);
      } else {
        assert next.phases[r] == s.phases[r];
        KeptStays(reqs, s, l, k, next.phases[r].outcome.status, next.phases[r].outcome.body);
      }
    }
  }

  lemma {:induction false} RunReplays(reqs: Requests, ls: seq<Label>, k: Key)
    requires ValidRequests(reqs) && Exec(reqs, Initial(reqs), ls).Some?
    ensures ReplaysAreKept(reqs, Exec(reqs, Initial(reqs), ls).value, k)
    decreases |ls|
  {
    if ls != [] {
      RunReplays(reqs, Front(ls), k);
      RunKeepsFaithful(reqs, Front(ls));
      StepReplays(reqs, Exec(reqs, Initial(reqs), Front(ls)).value, Last(ls), k);
    }
  }

  /** As long as the entry of a key does not expire, all replays for the key are of one and the same run. */
  lemma {:induction false} ReplaysAgree(reqs: Requests, ls: seq<Label>, k: Key, r: Rid, r': Rid)
    requires ValidRequests(reqs) && Exec(reqs, Initial(reqs), ls).Some? && Expiries(ls, k) == 0
    requires ForKey(reqs, r, k) && ForKey(reqs, r', k)
    requires var p := Exec(reqs, Initial(reqs), ls).value.phases;
             && r in p && p[r].Finished? && p[r].outcome.Replayed?
             && r' in p && p[r'].Finished? && p[r'].outcome.Replayed?
    ensures var p := Exec(reqs, Initial(reqs), ls).value.phases; p[r] == p[r']
  {
    RunReplays(reqs, ls, k);
    KeptAtMostExpiries(reqs, ls, k);
  }
}

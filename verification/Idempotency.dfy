/** The idempotency protocol: internal/infrastructure/web/middleware/idempotency.go over
    pkg/idempotency/redisstore/store.go.

    Every store call is one atomic step.  The environment may let entries expire, make a store call
    fail with or without its effect having happened, and make a handler panic. */
module Idempotency {

  import opened Prelude

  type Key = string
  type Bytes = seq<int>
  type Rid = nat

  datatype EntryStatus = Processing | Completed

  datatype Entry = Entry(status: EntryStatus, statusCode: int, body: Bytes, fingerprint: string)

  type Store = map<Key, Entry>

  /** How a store call ends: normally, or with an error before or after its effect. */
  datatype Fault = NoFault | FailBefore | FailAfter

  function LockEntry(fingerprint: string): Entry {
    Entry(Processing, 0, [], fingerprint)
  }

  /** SET NX: the entry is written only when the key is free. */
  function SetIfAbsent(s: Store, k: Key, e: Entry): Store {
    if k in s then s else s[k := e]
  }

  // ---- Requests and handler runs ----

  /** A POST request that carries the header: its store key and the hash of its body. */
  datatype Request = Request(key: Key, fingerprint: string)

  type Requests = map<Rid, Request>

  /** A body hash is never the empty string. */
  predicate ValidRequests(reqs: Requests) {
    forall r :: r in reqs ==> reqs[r].fingerprint != ""
  }

  datatype Outcome =
    | Answered(status: int, body: Bytes)
    | Conflict
    | Mismatch
    | Replayed(status: int, body: Bytes)
    | Panicked

  /** Where a request is.  `sent` went to the client, `captured` into the buffer of the response
      writer that only a lock holder installs. */
  datatype Phase =
    | Arrived
    | Blocked
    | Handling(holder: bool, sent: Bytes, captured: Bytes)
    | Settling(statusCode: int, sent: Bytes, captured: Bytes)
    | Finished(outcome: Outcome)

  /** A completed handler run under the lock: what its own client was sent, and what was captured of it. */
  datatype HandlerRun = HandlerRun(rid: Rid, status: int, sent: Bytes, captured: Bytes)

  datatype State = State(store: Store, phases: map<Rid, Phase>, runs: seq<HandlerRun>)

  datatype Label =
    | Lock(r: Rid, fault: Fault)
    | Get(r: Rid, ok: bool)
    | Write(r: Rid, data: Bytes)
    | WriteString(r: Rid, data: Bytes)
    | Return(r: Rid, status: int)
    | Settle(r: Rid, fault: Fault)
    | Panic(r: Rid)
    | Expire(k: Key)

  function ShouldStoreResponse(status: int): bool {
    200 <= status < 500
  }

  /** What a request that found the key taken does with the entry it reads. */
  function Decide(q: Request, e: Option<Entry>): Phase {
    match e
    case None => Handling(false, [], [])
    case Some(entry) =>
      if entry.status == Processing then Finished(Conflict)
      else if entry.fingerprint != "" && q.fingerprint != entry.fingerprint then Finished(Mismatch)
      else Finished(Replayed(entry.statusCode, entry.body))
  }

  function Lookup(s: Store, k: Key): Option<Entry> {
    if k in s then Some(s[k]) else None
  }

  /** The store after the last step of a lock holder. */
  function SettleStore(s: Store, q: Request, status: int, captured: Bytes, fault: Fault): Store {
    if fault == FailBefore then s
    else if ShouldStoreResponse(status) then s[q.key := Entry(Completed, status, captured, q.fingerprint)]
    else s - {q.key}
  }

  predicate Enabled(reqs: Requests, s: State, l: Label) {
    match l
    case Expire(k) => k in s.store
    case Lock(r, _) => r in reqs && r in s.phases && s.phases[r].Arrived?
    case Get(r, _) => r in reqs && r in s.phases && s.phases[r].Blocked?
    case Settle(r, _) => r in reqs && r in s.phases && s.phases[r].Settling?
    case Write(r, _) => r in reqs && r in s.phases && s.phases[r].Handling?
    case WriteString(r, _) => r in reqs && r in s.phases && s.phases[r].Handling?
    case Return(r, _) => r in reqs && r in s.phases && s.phases[r].Handling?
    case Panic(r) => r in reqs && r in s.phases && s.phases[r].Handling?
  }

  function Step(reqs: Requests, s: State, l: Label): State
    requires Enabled(reqs, s, l)
  {
    match l
    case Expire(k) => s.(store := s.store - {k})
    case Lock(r, fault) =>
      var (q, lock) := (reqs[r], LockEntry(reqs[r].fingerprint));
      if fault == FailBefore then s.(phases := s.phases[r := Handling(false, [], [])])
      else
        var p := if fault == FailAfter then Handling(false, [], [])
                 else if q.key in s.store then Blocked
                 else Handling(true, [], []);
        s.(store := SetIfAbsent(s.store, q.key, lock), phases := s.phases[r := p])
    case Get(r, ok) =>
      var p := if ok then Decide(reqs[r], Lookup(s.store, reqs[r].key)) else Handling(false, [], []);
      s.(phases := s.phases[r := p])
    case Write(r, data) =>
      var h := s.phases[r];
      s.(phases := s.phases[r := Handling(h.holder, h.sent + data, if h.holder then h.captured + data else h.captured)])
    case WriteString(r, data) =>
      var h := s.phases[r];
      s.(phases := s.phases[r := Handling(h.holder, h.sent + data, h.captured)])
    case Return(r, status) =>
      var h := s.phases[r];
      if h.holder then
        s.(phases := s.phases[r := Settling(status, h.sent, h.captured)],
           runs := s.runs + [HandlerRun(r, status, h.sent, h.captured)])
      else s.(phases := s.phases[r := Finished(Answered(status, h.sent))])
    case Settle(r, fault) =>
      var h := s.phases[r];
      s.(store := SettleStore(s.store, reqs[r], h.statusCode, h.captured, fault),
         phases := s.phases[r := Finished(Answered(h.statusCode, h.sent))])
    case Panic(r) => s.(phases := s.phases[r := Finished(Panicked)])
  }

  function Initial(reqs: Requests): State {
    State(map[], map r | r in reqs :: Arrived, [])
  }

  /** The state after a run of steps from `s`; None when some step is not possible. */
  function Exec(reqs: Requests, s: State, ls: seq<Label>): Option<State> {
    if ls == [] then Some(s)
    else
      var before := Exec(reqs, s, Front(ls));
      if before.Some? && Enabled(reqs, before.value, Last(ls)) then Some(Step(reqs, before.value, Last(ls))) else None
  }

  // ---- Exclusion, as long as no held entry expires ----

  predicate Holds(s: State, r: Rid) {
    r in s.phases && (s.phases[r].Settling? || (s.phases[r].Handling? && s.phases[r].holder))
  }

  /** A held key maps to the lock of its holder, and has one holder only. */
  ghost predicate Exclusive(reqs: Requests, s: State) {
    && (forall r :: Holds(s, r) ==>
          r in reqs && reqs[r].key in s.store && s.store[reqs[r].key] == LockEntry(reqs[r].fingerprint))
    && (forall r, r' :: Holds(s, r) && Holds(s, r') && reqs[r].key == reqs[r'].key ==> r == r')
  }

  /** Only entries whose holder is gone expire. */
  ghost predicate SafeLabel(reqs: Requests, s: State, l: Label) {
    l.Expire? ==> forall r :: Holds(s, r) && r in reqs ==> reqs[r].key != l.k
  }

  ghost predicate SafeRun(reqs: Requests, s: State, ls: seq<Label>) {
    forall i :: 0 <= i < |ls| && Exec(reqs, s, ls[..i]).Some? ==> SafeLabel(reqs, Exec(reqs, s, ls[..i]).value, ls[i])
  }

  /** A step keeps exclusion exactly if it is not the expiry of a held entry. */
  lemma {:induction false} StepKeepsExclusive(reqs: Requests, s: State, l: Label)
    requires Exclusive(reqs, s) && Enabled(reqs, s, l)
    ensures Exclusive(reqs, Step(reqs, s, l)) <==> SafeLabel(reqs, s, l)
  {
    var s' := Step(reqs, s, l);
    if l.Expire? {
      assert forall r :: Holds(s', r) <==> Holds(s, r);
      if !SafeLabel(reqs, s, l) {
        var r :| Holds(s, r) && r in reqs && reqs[r].key == l.k;
        assert Holds(s', r) && reqs[r].key !in s'.store;
      }
    } else {
      assert forall r :: r != l.r ==> (Holds(s', r) <==> Holds(s, r));
    }
  }

  /** A completed entry can only disappear by expiry; no step of a request alters it. */
  lemma {:induction false} StepKeepsCompleted(reqs: Requests, s: State, l: Label, k: Key)
    requires Exclusive(reqs, s) && Enabled(reqs, s, l)
    requires k in s.store && s.store[k].status == Completed
    ensures l != Expire(k) ==> Lookup(Step(reqs, s, l).store, k) == Some(s.store[k])
  {
    if l.Settle? {
      assert Holds(s, l.r);
    }
  }

  lemma {:induction false} SafeFront(reqs: Requests, s: State, ls: seq<Label>)
    requires ls != [] && SafeRun(reqs, s, ls)
    ensures SafeRun(reqs, s, Front(ls))
    ensures Exec(reqs, s, Front(ls)).Some? ==> SafeLabel(reqs, Exec(reqs, s, Front(ls)).value, Last(ls))
  {
    var f := Front(ls);
    forall i | 0 <= i < |f| && Exec(reqs, s, f[..i]).Some?
      ensures SafeLabel(reqs, Exec(reqs, s, f[..i]).value, f[i])
    {
      assert f[..i] == ls[..i];
    }
    assert ls[..|ls| - 1] == f;
  }

  /** In every interleaving of any number of requests, with store errors and panics but without
      expiry of a held entry, exclusion holds at every moment. */
  lemma {:induction false} RunKeepsExclusive(reqs: Requests, ls: seq<Label>)
    requires SafeRun(reqs, Initial(reqs), ls) && Exec(reqs, Initial(reqs), ls).Some?
    ensures Exclusive(reqs, Exec(reqs, Initial(reqs), ls).value)
    decreases |ls|
  {
    if ls != [] {
      SafeFront(reqs, Initial(reqs), ls);
      RunKeepsExclusive(reqs, Front(ls));
      StepKeepsExclusive(reqs, Exec(reqs, Initial(reqs), Front(ls)).value, Last(ls));
    }
  }

  lemma {:induction false} PrefixRuns(reqs: Requests, s: State, ls: seq<Label>, i: nat)
    requires i <= |ls| && Exec(reqs, s, ls).Some?
    ensures Exec(reqs, s, ls[..i]).Some?
    decreases |ls|
  {
    if i == |ls| {
      assert ls[..i] == ls;
    } else {
      assert Front(ls)[..i] == ls[..i];
      PrefixRuns(reqs, s, Front(ls), i);
    }
  }

  ghost predicate ExclusiveThroughout(reqs: Requests, ls: seq<Label>) {
    forall i :: 0 <= i <= |ls| && Exec(reqs, Initial(reqs), ls[..i]).Some? ==>
      Exclusive(reqs, Exec(reqs, Initial(reqs), ls[..i]).value)
  }

  lemma {:induction false} SafePrefix(reqs: Requests, s: State, ls: seq<Label>, n: nat)
    requires n <= |ls| && SafeRun(reqs, s, ls)
    ensures SafeRun(reqs, s, ls[..n])
  {
    forall i | 0 <= i < n && Exec(reqs, s, ls[..n][..i]).Some?
      ensures SafeLabel(reqs, Exec(reqs, s, ls[..n][..i]).value, ls[..n][i])
    {
      assert ls[..n][..i] == ls[..i];
    }
  }

  /** Exclusion holds at every moment of a run exactly if no held entry expires in it. */
  lemma {:induction false} ExclusiveIffSafe(reqs: Requests, ls: seq<Label>)
    requires Exec(reqs, Initial(reqs), ls).Some?
    ensures ExclusiveThroughout(reqs, ls) <==> SafeRun(reqs, Initial(reqs), ls)
  {
    var s0 := Initial(reqs);
    if SafeRun(reqs, s0, ls) {
      forall i | 0 <= i <= |ls| && Exec(reqs, s0, ls[..i]).Some?
        ensures Exclusive(reqs, Exec(reqs, s0, ls[..i]).value)
      {
        SafePrefix(reqs, s0, ls, i);
        RunKeepsExclusive(reqs, ls[..i]);
      }
    }
    if ExclusiveThroughout(reqs, ls) {
      forall i | 0 <= i < |ls| && Exec(reqs, s0, ls[..i]).Some?
        ensures SafeLabel(reqs, Exec(reqs, s0, ls[..i]).value, ls[i])
      {
        ExclusiveAfter(reqs, ls, i);
      }
    }
  }

  lemma {:induction false} ExclusiveAfter(reqs: Requests, ls: seq<Label>, i: nat)
    requires Exec(reqs, Initial(reqs), ls).Some? && i < |ls| && ExclusiveThroughout(reqs, ls)
    ensures Exec(reqs, Initial(reqs), ls[..i]).Some?
    ensures SafeLabel(reqs, Exec(reqs, Initial(reqs), ls[..i]).value, ls[i])
  {
    PrefixRuns(reqs, Initial(reqs), ls, i);
    PrefixRuns(reqs, Initial(reqs), ls, i + 1);
    assert Front(ls[..i + 1]) == ls[..i] && Last(ls[..i + 1]) == ls[i];
    StepKeepsExclusive(reqs, Exec(reqs, Initial(reqs), ls[..i]).value, ls[i]);
  }

  /** Once an entry is completed it stays as it is for the rest of the run, until it expires. */
  lemma {:induction false} RunKeepsCompleted(reqs: Requests, ls: seq<Label>, i: nat, k: Key)
    requires SafeRun(reqs, Initial(reqs), ls) && Exec(reqs, Initial(reqs), ls).Some?
    requires i <= |ls| && Exec(reqs, Initial(reqs), ls[..i]).Some?
    requires forall j :: i <= j < |ls| ==> ls[j] != Expire(k)
    requires var earlier := Exec(reqs, Initial(reqs), ls[..i]).value.store;
             k in earlier && earlier[k].status == Completed
    ensures Lookup(Exec(reqs, Initial(reqs), ls).value.store, k) ==
            Lookup(Exec(reqs, Initial(reqs), ls[..i]).value.store, k)
    decreases |ls|
  {
    if i == |ls| {
      assert ls[..i] == ls;
    } else {
      var f := Front(ls);
      SafeFront(reqs, Initial(reqs), ls);
      assert f[..i] == ls[..i];
      assert forall j :: i <= j < |f| ==> f[j] == ls[j];
      RunKeepsCompleted(reqs, f, i, k);
      RunKeepsExclusive(reqs, f);
      StepKeepsCompleted(reqs, Exec(reqs, Initial(reqs), f).value, Last(ls), k);
    }
  }

  /** One more step after a run. */
  lemma {:induction false} Extend(reqs: Requests, s0: State, ls: seq<Label>, s: State, l: Label)
    requires Exec(reqs, s0, ls) == Some(s) && Enabled(reqs, s, l)
    ensures Exec(reqs, s0, ls + [l]) == Some(Step(reqs, s, l))
  {
    assert Front(ls + [l]) == ls;
  }

  /** Without the restriction on expiry exclusion fails for any two requests that share a key: the
      first one's lock expires while its handler runs, and the second one takes the key. */
  lemma {:induction false} ExpiryAllowsTwoHolders(reqs: Requests, r: Rid, r': Rid) returns (ls: seq<Label>, s: State)
    requires r in reqs && r' in reqs && r != r' && reqs[r].key == reqs[r'].key
    ensures Exec(reqs, Initial(reqs), ls) == Some(s)
    ensures Holds(s, r) && s.phases[r] == Handling(true, [], [])
    ensures Holds(s, r') && s.phases[r'] == Handling(true, [], [])
    ensures s.store == map[reqs[r].key := LockEntry(reqs[r'].fingerprint)]
  {
    var (s0, k) := (Initial(reqs), reqs[r].key);
    ls, s := [], s0;
    Extend(reqs, s0, ls, s, Lock(r, NoFault));
    ls, s := ls + [Lock(r, NoFault)], Step(reqs, s, Lock(r, NoFault));
    assert k in s.store && r' in s.phases && s.phases[r'] == Arrived;
    Extend(reqs, s0, ls, s, Expire(k));
    ls, s := ls + [Expire(k)], Step(reqs, s, Expire(k));
    assert s.store == map[];
    Extend(reqs, s0, ls, s, Lock(r', NoFault));
    ls, s := ls + [Lock(r', NoFault)], Step(reqs, s, Lock(r', NoFault));
  }

  lemma {:induction false} ReturnRun(reqs: Requests, ls: seq<Label>, s: State, r: Rid, status: int)
    returns (ls': seq<Label>, s': State)
    requires Exec(reqs, Initial(reqs), ls) == Some(s) && r in reqs && Holds(s, r) && s.phases[r].Handling?
    ensures Exec(reqs, Initial(reqs), ls') == Some(s') && s'.store == s.store
    ensures s'.phases == s.phases[r := Settling(status, s.phases[r].sent, s.phases[r].captured)]
  {
    Extend(reqs, Initial(reqs), ls, s, Return(r, status));
    ls', s' := ls + [Return(r, status)], Step(reqs, s, Return(r, status));
  }

  /** ... and the first one then overwrites the completed result of the second. */
  lemma {:induction false} StaleHolderOverwrites(reqs: Requests, r: Rid, r': Rid)
    returns (ls: seq<Label>, s: State, t: State)
    requires r in reqs && r' in reqs && r != r' && reqs[r].key == reqs[r'].key
    ensures Exec(reqs, Initial(reqs), ls) == Some(s) && Enabled(reqs, s, Settle(r, NoFault))
    ensures t == Step(reqs, s, Settle(r, NoFault))
    ensures var k := reqs[r].key;
            && k in s.store && s.store[k] == Entry(Completed, 201, [], reqs[r'].fingerprint)
            && k in t.store && t.store[k] == Entry(Completed, 200, [], reqs[r].fingerprint)
  {
    var (s0, k) := (Initial(reqs), reqs[r].key);
    ls, s := ExpiryAllowsTwoHolders(reqs, r, r');
    ls, s := ReturnRun(reqs, ls, s, r', 201);
    Extend(reqs, s0, ls, s, Settle(r', NoFault));
    ls, s := ls + [Settle(r', NoFault)], Step(reqs, s, Settle(r', NoFault));
    ls, s := ReturnRun(reqs, ls, s, r, 200);
    t := Step(reqs, s, Settle(r, NoFault));
  }

  // ---- Replay fidelity, with arbitrary expiry and store failures ----

  /** The response `(status, body)` is what was captured of an earlier lock-holding run for the same key
      and the same request body. */
  ghost predicate FromRun(reqs: Requests, runs: seq<HandlerRun>, k: Key, fingerprint: string, status: int,
      body: Bytes) {
    && 200 <= status < 500
    && exists run :: run in runs && run.rid in reqs && reqs[run.rid] == Request(k, fingerprint)
                     && run.status == status && run.captured == body
  }

  ghost predicate Faithful(reqs: Requests, s: State) {
    && (forall k :: k in s.store && s.store[k].status == Completed ==>
          FromRun(reqs, s.runs, k, s.store[k].fingerprint, s.store[k].statusCode, s.store[k].body)
          && s.store[k].fingerprint != "")
    && (forall r :: r in s.phases && s.phases[r].Settling? ==>
          HandlerRun(r, s.phases[r].statusCode, s.phases[r].sent, s.phases[r].captured) in s.runs)
  }

  lemma {:induction false} RunsOnlyGrow(reqs: Requests, s: State, l: Label)
    requires Enabled(reqs, s, l)
    ensures s.runs <= Step(reqs, s, l).runs
    ensures forall k, fp, st, b :: FromRun(reqs, s.runs, k, fp, st, b) ==>
            FromRun(reqs, Step(reqs, s, l).runs, k, fp, st, b)
  {
    var s' := Step(reqs, s, l);
    forall k, fp, st, b | FromRun(reqs, s.runs, k, fp, st, b)
      ensures FromRun(reqs, s'.runs, k, fp, st, b)
    {
      var run :| run in s.runs && run.rid in reqs && reqs[run.rid] == Request(k, fp) && run.status == st
          && run.captured == b;
      assert run in s'.runs;
    }
  }

  lemma {:induction false} StepKeepsFaithful(reqs: Requests, s: State, l: Label)
    requires ValidRequests(reqs) && Faithful(reqs, s) && Enabled(reqs, s, l)
    ensures Faithful(reqs, Step(reqs, s, l))
  {
    RunsOnlyGrow(reqs, s, l);
    if l.Settle? {
      var h := s.phases[l.r];
      assert HandlerRun(l.r, h.statusCode, h.sent, h.captured) in s.runs;
    }
  }

  lemma {:induction false} RunKeepsFaithful(reqs: Requests, ls: seq<Label>)
    requires ValidRequests(reqs) && Exec(reqs, Initial(reqs), ls).Some?
    ensures Faithful(reqs, Exec(reqs, Initial(reqs), ls).value)
    decreases |ls|
  {
    if ls != [] {
      RunKeepsFaithful(reqs, Front(ls));
      StepKeepsFaithful(reqs, Exec(reqs, Initial(reqs), Front(ls)).value, Last(ls));
    }
  }

  /** A recorded run is one whose handler returned while its request held the lock. */
  ghost predicate ReturnedUnderLock(reqs: Requests, ls: seq<Label>, run: HandlerRun) {
    exists j :: 0 <= j < |ls| && ReturnsAt(reqs, ls, j, run)
  }

  ghost predicate ReturnsAt(reqs: Requests, ls: seq<Label>, j: nat, run: HandlerRun)
    requires j < |ls|
  {
    && ls[j] == Return(run.rid, run.status) && Exec(reqs, Initial(reqs), ls[..j]).Some?
    && var s := Exec(reqs, Initial(reqs), ls[..j]).value;
       && run.rid in s.phases && s.phases[run.rid] == Handling(true, run.sent, run.captured)
  }

  lemma {:induction false} RecordedRunsHeldTheLock(reqs: Requests, ls: seq<Label>, run: HandlerRun)
    requires Exec(reqs, Initial(reqs), ls).Some? && run in Exec(reqs, Initial(reqs), ls).value.runs
    ensures ReturnedUnderLock(reqs, ls, run)
    decreases |ls|
  {
    var f := Front(ls);
    var s := Exec(reqs, Initial(reqs), f).value;
    if run in s.runs {
      RecordedRunsHeldTheLock(reqs, f, run);
      var j :| 0 <= j < |f| && ReturnsAt(reqs, f, j, run);
      assert f[..j] == ls[..j] && ls[j] == f[j];
      assert ReturnsAt(reqs, ls, j, run);
    } else {
      assert ls[..|ls| - 1] == f && ls[|ls| - 1] == Last(ls);
      assert ReturnsAt(reqs, ls, |ls| - 1, run);
    }
  }

  // ---- What requests send ----

  predicate SendsFor(l: Label, r: Rid) {
    (l.Write? || l.WriteString?) && l.r == r
  }

  /** What request `r` sends, in order. */
  function SentBy(ls: seq<Label>, r: Rid): Bytes {
    if ls == [] then [] else SentBy(Front(ls), r) + if SendsFor(Last(ls), r) then Last(ls).data else []
  }

  /** What of that goes through the capturing Write. */
  function WrittenBy(ls: seq<Label>, r: Rid): Bytes {
    if ls == [] then [] else WrittenBy(Front(ls), r) + if Last(ls).Write? && Last(ls).r == r then Last(ls).data else []
  }

  /** The number of bytes that request `r` sends with WriteString, which the capturing writer does not override. */
  function Bypassed(ls: seq<Label>, r: Rid): nat {
    if ls == [] then 0
    else Bypassed(Front(ls), r) + if Last(ls).WriteString? && Last(ls).r == r then |Last(ls).data| else 0
  }

  lemma {:induction false} BypassedIsTheRest(ls: seq<Label>, r: Rid)
    ensures |SentBy(ls, r)| == |WrittenBy(ls, r)| + Bypassed(ls, r)
    ensures SentBy(ls, r) == WrittenBy(ls, r) <==> Bypassed(ls, r) == 0
  {
    if ls != [] {
      BypassedIsTheRest(Front(ls), r);
      if Last(ls).WriteString? && Last(ls).r == r && Last(ls).data == [] {
        assert SentBy(Front(ls), r) + [] == SentBy(Front(ls), r);
      }
    }
  }

  /** What a request's phase says about its output and its end is what its labels say. */
  predicate PhaseTells(ls: seq<Label>, r: Rid, p: Phase) {
    match p
    case Handling(holder, sent, captured) =>
      sent == SentBy(ls, r) && captured == if holder then WrittenBy(ls, r) else []
    case Settling(status, sent, captured) =>
      sent == SentBy(ls, r) && captured == WrittenBy(ls, r) && Return(r, status) in ls
    case Finished(Answered(status, body)) => body == SentBy(ls, r) && Return(r, status) in ls
    case Finished(Panicked) => Panic(r) in ls
    case _ => SentBy(ls, r) == [] && WrittenBy(ls, r) == []
  }

  predicate RunTells(ls: seq<Label>, s: State, run: HandlerRun) {
    && run.sent == SentBy(ls, run.rid) && run.captured == WrittenBy(ls, run.rid)
    && Return(run.rid, run.status) in ls
    && run.rid in s.phases && (s.phases[run.rid].Settling? || s.phases[run.rid].Finished?)
  }

  ghost predicate Tells(reqs: Requests, ls: seq<Label>, s: State) {
    && s.phases.Keys == reqs.Keys
    && (forall r :: r in s.phases ==> PhaseTells(ls, r, s.phases[r]))
    && (forall run :: run in s.runs ==> RunTells(ls, s, run))
  }

  lemma {:induction false} OneMoreLabel(ls: seq<Label>, l: Label, r: Rid)
    ensures SentBy(ls + [l], r) == SentBy(ls, r) + if SendsFor(l, r) then l.data else []
    ensures WrittenBy(ls + [l], r) == WrittenBy(ls, r) + if l.Write? && l.r == r then l.data else []
    ensures forall k :: k in ls + [l] <==> k in ls || k == l
  {
    assert Front(ls + [l]) == ls;
  }

  lemma {:induction false} SilentLabel(ls: seq<Label>, l: Label, r: Rid)
    requires !SendsFor(l, r)
    ensures SentBy(ls + [l], r) == SentBy(ls, r) && WrittenBy(ls + [l], r) == WrittenBy(ls, r)
    ensures forall k :: k in ls ==> k in ls + [l]
  {
    OneMoreLabel(ls, l, r);
    assert SentBy(ls, r) + [] == SentBy(ls, r) && WrittenBy(ls, r) + [] == WrittenBy(ls, r);
  }

  lemma {:induction false} SendTells(reqs: Requests, ls: seq<Label>, s: State, l: Label)
    requires Tells(reqs, ls, s) && Enabled(reqs, s, l) && (l.Write? || l.WriteString?)
    ensures PhaseTells(ls + [l], l.r, Step(reqs, s, l).phases[l.r])
  {
    assert PhaseTells(ls, l.r, s.phases[l.r]);
    OneMoreLabel(ls, l, l.r);
    assert WrittenBy(ls, l.r) + [] == WrittenBy(ls, l.r);
  }

  lemma {:induction false} SilenceTells(reqs: Requests, ls: seq<Label>, s: State, l: Label)
    requires Tells(reqs, ls, s) && Enabled(reqs, s, l) && (l.Lock? || l.Get?)
    ensures PhaseTells(ls + [l], l.r, Step(reqs, s, l).phases[l.r])
  {
    assert PhaseTells(ls, l.r, s.phases[l.r]);
    SilentLabel(ls, l, l.r);
  }

  lemma {:induction false} SettleTells(reqs: Requests, ls: seq<Label>, s: State, l: Label)
    requires Tells(reqs, ls, s) && Enabled(reqs, s, l) && l.Settle?
    ensures PhaseTells(ls + [l], l.r, Step(reqs, s, l).phases[l.r])
  {
    assert PhaseTells(ls, l.r, s.phases[l.r]);
    SilentLabel(ls, l, l.r);
  }

  lemma {:induction false} EndTells(reqs: Requests, ls: seq<Label>, s: State, l: Label)
    requires Tells(reqs, ls, s) && Enabled(reqs, s, l) && (l.Return? || l.Panic?)
    ensures PhaseTells(ls + [l], l.r, Step(reqs, s, l).phases[l.r])
  {
    assert PhaseTells(ls, l.r, s.phases[l.r]);
    SilentLabel(ls, l, l.r);
    assert (ls + [l])[|ls|] == l;
  }

  lemma {:induction false} PhaseStepTells(reqs: Requests, ls: seq<Label>, s: State, l: Label)
    requires Tells(reqs, ls, s) && Enabled(reqs, s, l) && !l.Expire?
    ensures PhaseTells(ls + [l], l.r, Step(reqs, s, l).phases[l.r])
  {
    if l.Write? || l.WriteString? {
      SendTells(reqs, ls, s, l);
    } else if l.Settle? {
      SettleTells(reqs, ls, s, l);
    } else if l.Return? || l.Panic? {
      EndTells(reqs, ls, s, l);
    } else {
      SilenceTells(reqs, ls, s, l);
    }
  }

  lemma {:induction false} OtherPhaseTells(reqs: Requests, ls: seq<Label>, s: State, l: Label, r: Rid)
    requires Tells(reqs, ls, s) && Enabled(reqs, s, l) && r in s.phases && (l.Expire? || r != l.r)
    ensures PhaseTells(ls + [l], r, s.phases[r]) && Step(reqs, s, l).phases[r] == s.phases[r]
  {
    assert PhaseTells(ls, r, s.phases[r]);
    SilentLabel(ls, l, r);
  }

  lemma {:induction false} RunStepTells(reqs: Requests, ls: seq<Label>, s: State, l: Label, run: HandlerRun)
    requires Tells(reqs, ls, s) && Enabled(reqs, s, l) && run in Step(reqs, s, l).runs
    ensures RunTells(ls + [l], Step(reqs, s, l), run)
  {
    if run in s.runs {
      assert RunTells(ls, s, run);
      SilentLabel(ls, l, run.rid);
    } else {
      PhaseStepTells(reqs, ls, s, l);
    }
  }

  lemma {:induction false} StepTells(reqs: Requests, ls: seq<Label>, s: State, l: Label)
    requires Tells(reqs, ls, s) && Enabled(reqs, s, l)
    ensures Tells(reqs, ls + [l], Step(reqs, s, l))
  {
    var next := Step(reqs, s, l);
    forall r | r in next.phases
      ensures PhaseTells(ls + [l], r, next.phases[r])
    {
      if !l.Expire? && r == l.r {
        PhaseStepTells(reqs, ls, s, l);
      } else {
        OtherPhaseTells(reqs, ls, s, l, r);
      }
    }
    forall run | run in next.runs
      ensures RunTells(ls + [l], next, run)
    {
      RunStepTells(reqs, ls, s, l, run);
    }
  }

  /** In every run, what a request has sent is its output in the order of its writes, what is captured of a
      lock holder's is what it sent with Write, and an answered request is one whose handler returned that
      status. */
  lemma {:induction false} OutputIsTold(reqs: Requests, ls: seq<Label>)
    requires Exec(reqs, Initial(reqs), ls).Some?
    ensures Tells(reqs, ls, Exec(reqs, Initial(reqs), ls).value)
    decreases |ls|
  {
    if ls != [] {
      OutputIsTold(reqs, Front(ls));
      StepTells(reqs, Front(ls), Exec(reqs, Initial(reqs), Front(ls)).value, Last(ls));
      assert Front(ls) + [Last(ls)] == ls;
    }
  }

  /** In every run, whatever expires or fails: a response that is replayed is exactly the status and
      the bytes captured of one earlier lock-holding run for the same key and request body; they are what
      that run sent exactly if it sent nothing around the capturing Write. */
  lemma {:induction false} ReplayIsFaithful(reqs: Requests, ls: seq<Label>, r: Rid, status: int, body: Bytes)
    requires ValidRequests(reqs) && Exec(reqs, Initial(reqs), ls + [Get(r, true)]).Some?
    requires Exec(reqs, Initial(reqs), ls + [Get(r, true)]).value.phases[r] == Finished(Replayed(status, body))
    ensures 200 <= status < 500
    ensures exists run :: ReturnedUnderLock(reqs, ls, run) && run.rid in reqs && reqs[run.rid] == reqs[r]
                          && run.status == status && run.captured == body == WrittenBy(ls, run.rid)
                          && run.sent == SentBy(ls, run.rid)
                          && (run.sent == body <==> Bypassed(ls, run.rid) == 0)
  {
    assert Front(ls + [Get(r, true)]) == ls;
    var s := Exec(reqs, Initial(reqs), ls).value;
    RunKeepsFaithful(reqs, ls);
    OutputIsTold(reqs, ls);
    assert FromRun(reqs, s.runs, reqs[r].key, reqs[r].fingerprint, status, body);
    var run :| run in s.runs && run.rid in reqs && reqs[run.rid] == reqs[r] && run.status == status
        && run.captured == body;
    assert RunTells(ls, s, run);
    BypassedIsTheRest(ls, run.rid);
    RecordedRunsHeldTheLock(reqs, ls, run);
  }

  // ---- The imperative forms ----

  /** The Redis store; `fault` says how the call to the server goes. */
  class RedisStore {
    var entries: Store

    constructor ()
      ensures entries == map[]
    {
      entries := map[];
    }

    method Lock(key: Key, fingerprint: string, fault: Fault) returns (acquired: Option<bool>)
      modifies this
      ensures fault == FailBefore ==> entries == old(entries)
      ensures fault != FailBefore ==>
                entries == if key in old(entries) then old(entries)
                           else old(entries)[key := Entry(Processing, 0, [], fingerprint)]
      ensures acquired == if fault == NoFault then Some(key !in old(entries)) else None
    {
      if fault == FailBefore {
        return None;
      }
      var ok := key !in entries;
      if ok {
        entries := entries[key := Entry(Processing, 0, [], fingerprint)];
      }
      return if fault == FailAfter then None else Some(ok);
    }

    /** The outer option is None on an error, the inner one when the key does not exist. */
    method Get(key: Key, ok: bool) returns (r: Option<Option<Entry>>)
      ensures r == if ok then Some(Lookup(entries, key)) else None
    {
      if !ok {
        return None;
      }
      if key !in entries {
        return Some(None);
      }
      return Some(Some(entries[key]));
    }

    method Complete(key: Key, entry: Entry, fault: Fault)
      modifies this
      ensures entries == if fault == FailBefore then old(entries) else old(entries)[key := entry.(status := Completed)]
    {
      var data := entry.(status := Completed);
      if fault != FailBefore {
        entries := entries[key := data];
      }
    }

    method Unlock(key: Key, fault: Fault)
      modifies this
      ensures entries == if fault == FailBefore then old(entries) else old(entries) - {key}
    {
      if fault != FailBefore {
        entries := entries - {key};
      }
    }
  }

  /** The response writer a lock holder installs: what is written is also kept.  WriteString is the method
      of the embedded writer, which sends without keeping. */
  class ResponseWriter {
    var body: Bytes
    var sent: Bytes

    constructor ()
      ensures body == [] && sent == []
    {
      body := [];
      sent := [];
    }

    method Write(data: Bytes)
      modifies this
      ensures body == old(body) + data && sent == old(sent) + data
    {
      body := body + data;
      sent := sent + data;
    }

    method WriteString(data: Bytes)
      modifies this
      ensures body == old(body) && sent == old(sent) + data
    {
      sent := sent + data;
    }
  }

  /** One piece of output, sent with Write or with WriteString. */
  datatype Piece = Plain(data: Bytes) | Text(data: Bytes)

  /** What the handler behind the middleware does: some writes, then a status or a panic. */
  datatype Handler = Handler(writes: seq<Piece>, status: Option<int>)

  /** How the store calls of one request go. */
  datatype Weather = Weather(lock: Fault, get: bool, settle: Fault)

  function WriteLabel(r: Rid, w: Piece): Label {
    if w.Plain? then Label.Write(r, w.data) else Label.WriteString(r, w.data)
  }

  function WriteLabels(r: Rid, writes: seq<Piece>): seq<Label> {
    if writes == [] then [] else WriteLabels(r, Front(writes)) + [WriteLabel(r, Last(writes))]
  }

  /** Everything a handler sends, and what of it goes through the capturing Write. */
  function Output(writes: seq<Piece>): Bytes {
    if writes == [] then [] else Output(Front(writes)) + Last(writes).data
  }

  function Captured(writes: seq<Piece>): Bytes {
    if writes == [] then [] else Captured(Front(writes)) + if Last(writes).Plain? then Last(writes).data else []
  }

  function HandlerLabels(r: Rid, h: Handler): seq<Label> {
    WriteLabels(r, h.writes) + [if h.status.None? then Panic(r) else Return(r, h.status.value)]
  }

  /** The steps of a request whose handler runs under the lock. */
  function HolderLabels(r: Rid, h: Handler, settle: Fault): seq<Label> {
    HandlerLabels(r, h) + if h.status.None? then [] else [Settle(r, settle)]
  }

  /** The steps of one request that nothing interferes with. */
  function SoloLabels(r: Rid, q: Request, store: Store, h: Handler, w: Weather): seq<Label> {
    if w.lock != NoFault then [Label.Lock(r, w.lock)] + HandlerLabels(r, h)
    else if q.key in store then
      [Label.Lock(r, NoFault), Label.Get(r, w.get)] + if w.get then [] else HandlerLabels(r, h)
    else [Label.Lock(r, NoFault)] + HolderLabels(r, h, w.settle)
  }

  /** `labels` leads from the arrival of `r` to the phase `p` and to the present store. */
  ghost predicate Follows(reqs: Requests, store: Store, r: Rid, labels: seq<Label>, now: Store, p: Phase) {
    var end := Exec(reqs, State(store, map[r := Arrived], []), labels);
    end.Some? && end.value.store == now && end.value.phases == map[r := p]
  }

  /** What a request's step does to the store and to its phase does not depend on the recorded runs. */
  lemma {:induction false} SameStep(reqs: Requests, s: State, r: Rid, p: Phase, l: Label)
    requires s.phases == map[r := p] && !l.Expire? && l.r == r
    requires Enabled(reqs, State(s.store, map[r := p], []), l)
    ensures Enabled(reqs, s, l)
    ensures var (a, b) := (Step(reqs, s, l), Step(reqs, State(s.store, map[r := p], []), l));
            a.store == b.store && a.phases == b.phases == map[r := b.phases[r]]
  {
  }

  lemma {:induction false} FollowStep(reqs: Requests, store: Store, r: Rid, labels: seq<Label>, now: Store, p: Phase,
      l: Label)
    requires r in reqs && Follows(reqs, store, r, labels, now, p)
    requires Enabled(reqs, State(now, map[r := p], []), l) && !l.Expire? && l.r == r
    ensures var next := Step(reqs, State(now, map[r := p], []), l);
            Follows(reqs, store, r, labels + [l], next.store, next.phases[r])
  {
    var s0 := State(store, map[r := Arrived], []);
    var s := Exec(reqs, s0, labels).value;
    SameStep(reqs, s, r, p, l);
    Extend(reqs, s0, labels, s, l);
  }

  lemma {:induction false} FollowHandler(
    reqs: Requests, store: Store, r: Rid, before: seq<Label>, now: Store, holder: bool, sent: Bytes, captured: Bytes,
    h: Handler)
    requires r in reqs
    requires Follows(reqs, store, r, before + WriteLabels(r, h.writes), now, Handling(holder, sent, captured))
    ensures var p := if h.status.None? then Finished(Panicked)
                     else if holder then Settling(h.status.value, sent, captured)
                     else Finished(Answered(h.status.value, sent));
            Follows(reqs, store, r, before + HandlerLabels(r, h), now, p)
  {
    var l := if h.status.None? then Panic(r) else Return(r, h.status.value);
    FollowStep(reqs, store, r, before + WriteLabels(r, h.writes), now, Handling(holder, sent, captured), l);
    assert before + WriteLabels(r, h.writes) + [l] == before + HandlerLabels(r, h);
  }

  lemma {:induction false} FollowWrite(
    reqs: Requests, store: Store, r: Rid, labels: seq<Label>, now: Store, holder: bool, sent: Bytes, captured: Bytes,
    w: Piece)
    requires r in reqs && Follows(reqs, store, r, labels, now, Handling(holder, sent, captured))
    ensures var more := if holder && w.Plain? then captured + w.data else captured;
            Follows(reqs, store, r, labels + [WriteLabel(r, w)], now, Handling(holder, sent + w.data, more))
  {
    FollowStep(reqs, store, r, labels, now, Handling(holder, sent, captured), WriteLabel(r, w));
  }

  /** The writes of a handler are steps of the machine. */
  lemma {:induction false} FollowWrites(
    reqs: Requests, store: Store, r: Rid, before: seq<Label>, now: Store, holder: bool, writes: seq<Piece>)
    requires r in reqs && Follows(reqs, store, r, before, now, Handling(holder, [], []))
    ensures var captured := if holder then Captured(writes) else [];
            Follows(reqs, store, r, before + WriteLabels(r, writes), now, Handling(holder, Output(writes), captured))
    decreases |writes|
  {
    if writes == [] {
      assert before + [] == before;
    } else {
      var (earlier, w) := (Front(writes), Last(writes));
      FollowWrites(reqs, store, r, before, now, holder, earlier);
      FollowWrite(reqs, store, r, before + WriteLabels(r, earlier), now, holder, Output(earlier),
                  if holder then Captured(earlier) else [], w);
      assert before + WriteLabels(r, earlier) + [WriteLabel(r, w)] == before + WriteLabels(r, writes);
      assert Captured(earlier) + [] == Captured(earlier);
    }
  }

  lemma {:induction false} NextPiece(writes: seq<Piece>, i: nat)
    requires i < |writes|
    ensures Output(writes[..i + 1]) == Output(writes[..i]) + writes[i].data
    ensures Captured(writes[..i + 1]) == if writes[i].Plain? then Captured(writes[..i]) + writes[i].data
                                         else Captured(writes[..i])
  {
    assert Front(writes[..i + 1]) == writes[..i];
    assert Captured(writes[..i]) + [] == Captured(writes[..i]);
  }

  /** Runs the handler; a lock holder installs the capturing writer first. */
  method RunHandler(
    r: Rid, reqs: Requests, holder: bool, h: Handler, ghost store: Store, ghost now: Store, ghost before: seq<Label>)
    returns (sent: Bytes, captured: Bytes)
    requires r in reqs && Follows(reqs, store, r, before, now, Handling(holder, [], []))
    ensures Follows(reqs, store, r, before + WriteLabels(r, h.writes), now, Handling(holder, sent, captured))
    ensures sent == Output(h.writes) && captured == if holder then Captured(h.writes) else []
  {
    var rw := new ResponseWriter();
    for i := 0 to |h.writes|
      invariant rw.sent == Output(h.writes[..i]) && rw.body == Captured(h.writes[..i])
    {
      NextPiece(h.writes, i);
      var w := h.writes[i];
      if w.Plain? {
        rw.Write(w.data);
      } else {
        rw.WriteString(w.data);
      }
    }
    assert h.writes[..|h.writes|] == h.writes;
    sent, captured := rw.sent, if holder then rw.body else [];
    FollowWrites(reqs, store, r, before, now, holder, h.writes);
  }

  /** Fail-open: the handler runs without the lock and nothing is stored. */
  method HandleWithoutLock(r: Rid, reqs: Requests, h: Handler, ghost store: Store, ghost now: Store,
      ghost before: seq<Label>)
    returns (outcome: Outcome)
    requires r in reqs && Follows(reqs, store, r, before, now, Handling(false, [], []))
    ensures Follows(reqs, store, r, before + HandlerLabels(r, h), now, Finished(outcome))
    ensures outcome == if h.status.None? then Panicked else Answered(h.status.value, Output(h.writes))
  {
    var sent, captured := RunHandler(r, reqs, false, h, store, now, before);
    FollowHandler(reqs, store, r, before, now, false, sent, captured, h);
    outcome := if h.status.None? then Panicked else Answered(h.status.value, sent);
  }

  /** The lock holder: captures the response, then stores it or releases the key. */
  method HandleWithLock(
    store: RedisStore, r: Rid, reqs: Requests, h: Handler, settle: Fault, ghost start: Store, ghost before: seq<Label>)
    returns (outcome: Outcome)
    requires r in reqs && Follows(reqs, start, r, before, store.entries, Handling(true, [], []))
    modifies store
    ensures Follows(reqs, start, r, before + HolderLabels(r, h, settle), store.entries, Finished(outcome))
    ensures outcome == if h.status.None? then Panicked else Answered(h.status.value, Output(h.writes))
    ensures h.status.None? || settle == FailBefore ==> store.entries == old(store.entries)
    ensures h.status.Some? && settle != FailBefore ==>
              store.entries == if 200 <= h.status.value < 500 then
                                 old(store.entries)[reqs[r].key := Entry(Completed, h.status.value, Captured(h.writes),
                                                                         reqs[r].fingerprint)]
                               else old(store.entries) - {reqs[r].key}
  {
    var sent, captured := RunHandler(r, reqs, true, h, start, store.entries, before);
    FollowHandler(reqs, start, r, before, store.entries, true, sent, captured, h);
    ghost var labels := before + HandlerLabels(r, h);
    if h.status.None? {
      assert before + HolderLabels(r, h, settle) == labels;
      return Panicked;
    }
    FollowStep(reqs, start, r, labels, store.entries, Settling(h.status.value, sent, captured), Settle(r, settle));
    assert before + HolderLabels(r, h, settle) == labels + [Settle(r, settle)];
    if ShouldStoreResponse(h.status.value) {
      store.Complete(reqs[r].key, Entry(Processing, h.status.value, captured, reqs[r].fingerprint), settle);
    } else {
      store.Unlock(reqs[r].key, settle);
    }
    outcome := Answered(h.status.value, sent);
  }

  /** The middleware on a request that is alone: its effect is a run of the step machine. */
  method Middleware(store: RedisStore, r: Rid, reqs: Requests, h: Handler, w: Weather) returns (outcome: Outcome)
    requires r in reqs
    modifies store
    ensures Follows(reqs, old(store.entries), r, SoloLabels(r, reqs[r], old(store.entries), h, w),
                    store.entries, Finished(outcome))
    // A taken key that can be read: the handler does not run, and nothing is stored.
    ensures w.lock == NoFault && w.get && reqs[r].key in old(store.entries) ==>
              var (q, e) := (reqs[r], old(store.entries)[reqs[r].key]);
              && store.entries == old(store.entries)
              && (outcome == Conflict <==> e.status == Processing)
              && (outcome == Mismatch <==>
                  e.status == Completed && e.fingerprint != "" && e.fingerprint != q.fingerprint)
              && (outcome == Replayed(e.statusCode, e.body) <==>
                  e.status == Completed && (e.fingerprint == "" || e.fingerprint == q.fingerprint))
    // A free key: the handler runs, and what it returned decides what is stored.
    ensures w.lock == NoFault && reqs[r].key !in old(store.entries) ==>
              var (q, free) := (reqs[r], old(store.entries));
              && outcome == (if h.status.None? then Panicked else Answered(h.status.value, Output(h.writes)))
              && store.entries ==
                 if h.status.None? || w.settle == FailBefore then
                   free[q.key := Entry(Processing, 0, [], q.fingerprint)]
                 else if 200 <= h.status.value < 500 then
                   free[q.key := Entry(Completed, h.status.value, Captured(h.writes), q.fingerprint)]
                 else free
    // A lock error, or a taken key that cannot be read: the handler runs, and nothing is stored.
    ensures w.lock != NoFault || (!w.get && reqs[r].key in old(store.entries)) ==>
              && outcome == (if h.status.None? then Panicked else Answered(h.status.value, Output(h.writes)))
              && store.entries ==
                 if w.lock == FailAfter && reqs[r].key !in old(store.entries) then
                   old(store.entries)[reqs[r].key := Entry(Processing, 0, [], reqs[r].fingerprint)]
                 else old(store.entries)
  {
    var q := reqs[r];
    ghost var start := store.entries;
    FollowStep(reqs, start, r, [], start, Arrived, Label.Lock(r, w.lock));
    var acquired := store.Lock(q.key, q.fingerprint, w.lock);
    ghost var locked := [Label.Lock(r, w.lock)];
    assert [] + locked == locked;
    if acquired.None? {
      outcome := HandleWithoutLock(r, reqs, h, start, store.entries, locked);
    } else if !acquired.value {
      FollowStep(reqs, start, r, locked, store.entries, Blocked, Label.Get(r, w.get));
      ghost var read := [Label.Lock(r, w.lock), Label.Get(r, w.get)];
      assert locked + [Label.Get(r, w.get)] == read == read + [];
      var got := store.Get(q.key, w.get);
      if got.None? || got.value.None? {
        outcome := HandleWithoutLock(r, reqs, h, start, store.entries, read);
      } else {
        var entry := got.value.value;
        if entry.status == Processing {
          outcome := Conflict;
        } else if entry.fingerprint != "" && q.fingerprint != entry.fingerprint {
          outcome := Mismatch;
        } else {
          outcome := Replayed(entry.statusCode, entry.body);
        }
      }
    } else {
      outcome := HandleWithLock(store, r, reqs, h, w.settle, start, locked);
    }
  }
}

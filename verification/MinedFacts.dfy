/** What the mined candidates say about the sources: which signatures are listed, how often they were met and
    where, the share of the score, and the earliest and the latest time. */
module MinedFacts {

  import opened Prelude
  import Lex
  import opened NGrams
  import opened Miner

  // ---- Validate ----

  /** The four flaws, each reported when it is the first one. */
  lemma {:induction false} ValidateIff(c: Candidate)
    ensures Validate(c) == None <==>
            c.signature != "" && c.frequency >= 1 && 0.0 <= c.score <= 1.0 && c.firstSeenAt <= c.lastSeenAt
    ensures Validate(c) == Some(EmptySignature) <==> c.signature == ""
    ensures Validate(c) == Some(LowFrequency) <==> c.signature != "" && c.frequency < 1
    ensures Validate(c) == Some(TimesReversed) <==>
            c.signature != "" && c.frequency >= 1 && 0.0 <= c.score <= 1.0 && c.firstSeenAt > c.lastSeenAt
  {
  }

  // ---- The score ----

  lemma {:induction false} ShareOfMax(count: int, m: int)
    requires 1 <= count <= m
    ensures ScorePattern(count, m) == count as real / m as real
  {
  }

  lemma {:induction false} SomeoneHasMax(cs: seq<Candidate>, kind: Kind, accs: Accs, minFreq: int, m: nat)
    requires m > 0 && IsMaxCount(m, accs, minFreq)
    requires forall sig :: Qualifies(accs, sig, minFreq) ==> exists d :: d in cs && d.signature == sig
    requires forall d :: d in cs ==> IsCandidate(d, kind, accs, minFreq, m)
    ensures exists d :: d in cs && d.frequency == m
  {
    var sig :| Qualifies(accs, sig, minFreq) && accs[sig].count == m;
    var d :| d in cs && d.signature == sig;
    assert IsCandidate(d, kind, accs, minFreq, m);
  }

  lemma {:induction false} MinedScore(cs: seq<Candidate>, kind: Kind, sources: seq<SourceTokens>, minFreq: int,
      c: Candidate, top: Candidate)
    requires IsMined(cs, kind, sources, minFreq)
    requires c in cs && top in cs && forall d :: d in cs ==> d.frequency <= top.frequency
    ensures 1 <= c.frequency <= top.frequency && c.score == ScorePattern(c.frequency, top.frequency)
  {
    var accs := Accumulate(Hits(sources));
    var m: nat :| IsMaxCount(m, accs, minFreq) && forall d :: d in cs ==> IsCandidate(d, kind, accs, minFreq, m);
    CandidateIsValid(c, kind, sources, minFreq, m);
    CandidateIsValid(top, kind, sources, minFreq, m);
    SomeoneHasMax(cs, kind, accs, minFreq, m);
  }

  lemma {:induction false} ScoreOfKind(out: seq<Candidate>, inputs: Inputs, minFreq: int, c: Candidate, top: Candidate)
    requires IsExtract(out, inputs, minFreq) && c in out && top in out && c.kind == top.kind
    requires forall d :: d in out && d.kind == c.kind ==> d.frequency <= top.frequency
    ensures 1 <= c.frequency <= top.frequency && c.score == ScorePattern(c.frequency, top.frequency)
  {
    var ts, fs, gs :| AreMined(ts, fs, gs, inputs, minFreq) && IsUnion(out, ts, fs, gs);
    PartOfKind(out, ts, fs, gs, inputs, minFreq, c);
    MinedKeys(ts, ToolSequence, inputs.tools, minFreq);
    MinedKeys(fs, FileSequence, inputs.files, minFreq);
    MinedKeys(gs, CommitPattern, inputs.commits, minFreq);
    match c.kind {
      case ToolSequence => MinedScore(ts, c.kind, inputs.tools, minFreq, c, top);
      case FileSequence => MinedScore(fs, c.kind, inputs.files, minFreq, c, top);
      case _ => MinedScore(gs, CommitPattern, inputs.commits, minFreq, c, top);
    }
  }

  /** The score is the share of the frequency in the largest one of its kind. */
  lemma {:induction false} ScoreIsShare(out: seq<Candidate>, inputs: Inputs, minFreq: int, c: Candidate, top: Candidate)
    requires IsExtract(out, inputs, minFreq) && c in out && top in out && c.kind == top.kind
    requires forall d :: d in out && d.kind == c.kind ==> d.frequency <= top.frequency
    ensures 1 <= c.frequency <= top.frequency && c.score == c.frequency as real / top.frequency as real
  {
    ScoreOfKind(out, inputs, minFreq, c, top);
    ShareOfMax(c.frequency, top.frequency);
  }

  // ---- The times ----

  ghost predicate Meets(h: Hit, sig: string) {
    Join(h.window) == sig
  }

  /** The latest time of the hits, which is never before the zero time. */
  ghost predicate IsLatest(t: Time, hits: seq<Hit>, sig: string) {
    && t >= 0
    && (t > 0 ==> exists i :: 0 <= i < |hits| && Meets(hits[i], sig) && hits[i].source.last == t)
    && forall i :: 0 <= i < |hits| && Meets(hits[i], sig) ==> hits[i].source.last <= t
  }

  /** The search for the earliest time starts over behind a hit without a time, unless a time before the zero
      time has been met. */
  ghost predicate Restarts(hits: seq<Hit>, sig: string, p: nat) {
    && p <= |hits|
    && (p == 0 || (Meets(hits[p - 1], sig) && hits[p - 1].source.first == 0))
    && forall i :: 0 <= i < p && Meets(hits[i], sig) ==> hits[i].source.first >= 0
  }

  ghost predicate RestartsLast(hits: seq<Hit>, sig: string, p: nat) {
    Restarts(hits, sig, p) && forall q: nat :: p < q ==> !Restarts(hits, sig, q)
  }

  ghost predicate NoneFrom(hits: seq<Hit>, sig: string, p: nat) {
    forall i :: p <= i < |hits| ==> !Meets(hits[i], sig)
  }

  ghost predicate IsLeastFrom(t: Time, hits: seq<Hit>, sig: string, p: nat) {
    && (exists i :: p <= i < |hits| && Meets(hits[i], sig) && hits[i].source.first == t)
    && forall i :: p <= i < |hits| && Meets(hits[i], sig) ==> t <= hits[i].source.first
  }

  /** The earliest time of the hits from the last restart on; the zero time when there are none. */
  ghost predicate IsEarliest(t: Time, hits: seq<Hit>, sig: string) {
    exists p :: RestartsLast(hits, sig, p) &&
      ((t == 0 && NoneFrom(hits, sig, p)) || (t != 0 && IsLeastFrom(t, hits, sig, p)))
  }

  lemma {:induction false} LastIsLatest(hits: seq<Hit>, sig: string)
    ensures IsLatest(AccOf(Accumulate(hits), sig).lastSeenAt, hits, sig)
  {
    if hits != [] {
      var f := Front(hits);
      LastIsLatest(f, sig);
      assert forall i :: 0 <= i < |f| ==> f[i] == hits[i];
    }
  }

  lemma {:induction false} RestartsAlike(hits: seq<Hit>, sig: string, p: nat)
    requires hits != [] && p < |hits|
    ensures Restarts(hits, sig, p) <==> Restarts(Front(hits), sig, p)
  {
    assert forall i :: 0 <= i < p ==> Front(hits)[i] == hits[i];
  }

  /** One more hit that is no restart keeps the last restart. */
  lemma {:induction false} KeepRestart(hits: seq<Hit>, sig: string, p: nat)
    requires hits != [] && RestartsLast(Front(hits), sig, p) && !Restarts(hits, sig, |hits|)
    ensures RestartsLast(hits, sig, p)
  {
    RestartsAlike(hits, sig, p);
    forall q: nat | p < q
      ensures !Restarts(hits, sig, q)
    {
      if q < |hits| {
        RestartsAlike(hits, sig, q);
      }
    }
  }

  /** From the last restart on, no earliest time is the zero time. */
  lemma {:induction false} LeastIsNotZero(hits: seq<Hit>, sig: string, p: nat)
    requires RestartsLast(hits, sig, p)
    ensures !IsLeastFrom(0, hits, sig, p)
  {
    if IsLeastFrom(0, hits, sig, p) {
      var i :| p <= i < |hits| && Meets(hits[i], sig) && hits[i].source.first == 0;
      assert Restarts(hits, sig, i + 1);
    }
  }

  /** A hit without a time is a restart exactly when no time before the zero time has been met. */
  lemma {:induction false} UndatedRestarts(hits: seq<Hit>, sig: string, p: nat, t: Time)
    requires hits != [] && Meets(Last(hits), sig) && Last(hits).source.first == 0
    requires RestartsLast(Front(hits), sig, p)
    requires (t == 0 && NoneFrom(Front(hits), sig, p)) || (t != 0 && IsLeastFrom(t, Front(hits), sig, p))
    ensures Restarts(hits, sig, |hits|) <==> t >= 0
  {
    var f := Front(hits);
    assert forall i :: 0 <= i < |f| ==> f[i] == hits[i];
    if t < 0 {
      var i :| p <= i < |f| && Meets(f[i], sig) && f[i].source.first == t;
      assert Meets(hits[i], sig) && hits[i].source.first < 0;
    }
  }

  lemma {:induction false} LeastOfMore(hits: seq<Hit>, sig: string, p: nat, t: Time, u: Time)
    requires hits != [] && p < |hits|
    requires NoneFrom(Front(hits), sig, p) || IsLeastFrom(t, Front(hits), sig, p)
    requires Meets(Last(hits), sig)
    requires var x := Last(hits).source.first;
             u == if NoneFrom(Front(hits), sig, p) || x < t then x else t
    ensures IsLeastFrom(u, hits, sig, p)
  {
    var f := Front(hits);
    assert forall i :: 0 <= i < |f| ==> f[i] == hits[i];
    if u == Last(hits).source.first {
      assert hits[|hits| - 1] == Last(hits);
    } else {
      var i :| p <= i < |f| && Meets(f[i], sig) && f[i].source.first == t;
      assert hits[i] == f[i];
    }
  }

  lemma {:induction false} SkipHit(hits: seq<Hit>, sig: string, p: nat, t: Time)
    requires hits != [] && p < |hits| && !Meets(Last(hits), sig)
    ensures NoneFrom(hits, sig, p) <==> NoneFrom(Front(hits), sig, p)
    ensures IsLeastFrom(t, hits, sig, p) <==> IsLeastFrom(t, Front(hits), sig, p)
  {
    var f := Front(hits);
    assert forall i :: 0 <= i < |f| ==> f[i] == hits[i];
  }

  lemma {:induction false} OneMoreFirst(hits: seq<Hit>, sig: string)
    requires hits != [] && Meets(Last(hits), sig)
    requires IsEarliest(AccOf(Accumulate(Front(hits)), sig).firstSeenAt, Front(hits), sig)
    ensures IsEarliest(AccOf(Accumulate(hits), sig).firstSeenAt, hits, sig)
  {
    var (f, x) := (Front(hits), Last(hits).source.first);
    var t := AccOf(Accumulate(f), sig).firstSeenAt;
    var p :| RestartsLast(f, sig, p) && ((t == 0 && NoneFrom(f, sig, p)) || (t != 0 && IsLeastFrom(t, f, sig, p)));
    if x == 0 {
      UndatedRestarts(hits, sig, p, t);
    }
    if Restarts(hits, sig, |hits|) {
      assert RestartsLast(hits, sig, |hits|) && NoneFrom(hits, sig, |hits|);
    } else {
      KeepRestart(hits, sig, p);
      LeastOfMore(hits, sig, p, t, if t == 0 || x < t then x else t);
    }
  }

  lemma {:induction false} FirstIsEarliest(hits: seq<Hit>, sig: string)
    ensures IsEarliest(AccOf(Accumulate(hits), sig).firstSeenAt, hits, sig)
  {
    if hits == [] {
      assert RestartsLast(hits, sig, 0) && NoneFrom(hits, sig, 0);
    } else {
      var f := Front(hits);
      FirstIsEarliest(f, sig);
      if Meets(Last(hits), sig) {
        OneMoreFirst(hits, sig);
      } else {
        var t := AccOf(Accumulate(f), sig).firstSeenAt;
        var p :| RestartsLast(f, sig, p) && ((t == 0 && NoneFrom(f, sig, p)) || (t != 0 && IsLeastFrom(t, f, sig, p)));
        KeepRestart(hits, sig, p);
        SkipHit(hits, sig, p, t);
      }
    }
  }

  /** The bounds of a candidate: the earliest and the latest time of its hits, the latest standing in for an
      unknown earliest one, in ascending order. */
  ghost predicate SpansHits(c: Candidate, hits: seq<Hit>) {
    exists first, last :: IsEarliest(first, hits, c.signature) && IsLatest(last, hits, c.signature) &&
      c.firstSeenAt <= c.lastSeenAt &&
      multiset{c.firstSeenAt, c.lastSeenAt} == multiset{if first == 0 then last else first, last}
  }

  // ---- What a candidate tells ----

  /** The occurrences of a signature at the three window sizes. */
  function Frequency(sources: seq<SourceTokens>, sig: string): nat {
    NGramCount(TokensOf(sources), 2, sig) + NGramCount(TokensOf(sources), 3, sig) +
    NGramCount(TokensOf(sources), 4, sig)
  }

  ghost predicate Names(c: Candidate, sources: seq<SourceTokens>) {
    forall name :: name in c.contexts <==>
      exists src :: src in sources && src.name == name && Contains(src, c.signature)
  }

  ghost predicate Tells(c: Candidate, sources: seq<SourceTokens>, minFreq: int) {
    && c.frequency == Frequency(sources, c.signature) && c.frequency >= minFreq
    && Lex.StrictlySorted(c.contexts) && Names(c, sources)
    && SpansHits(c, Hits(sources))
  }

  ghost predicate Lists(cs: seq<Candidate>, kind: Kind, sig: string) {
    exists c :: c in cs && c.kind == kind && c.signature == sig
  }

  lemma {:induction false} CandidateTells(c: Candidate, kind: Kind, sources: seq<SourceTokens>, minFreq: int, m: nat)
    requires IsCandidate(c, kind, Accumulate(Hits(sources)), minFreq, m)
    ensures Tells(c, sources, minFreq)
  {
    var a := AccOf(Accumulate(Hits(sources)), c.signature);
    FrequencyIsSumOfCounts(sources, c.signature);
    FirstIsEarliest(Hits(sources), c.signature);
    LastIsLatest(Hits(sources), c.signature);
    assert IsEarliest(a.firstSeenAt, Hits(sources), c.signature) && IsLatest(a.lastSeenAt, Hits(sources), c.signature);
    forall name
      ensures name in c.contexts <==> exists src :: src in sources && src.name == name && Contains(src, c.signature)
    {
      ContextsAreSources(sources, c.signature, name);
    }
  }

  lemma {:induction false} MinedTells(cs: seq<Candidate>, kind: Kind, sources: seq<SourceTokens>, minFreq: int)
    requires IsMined(cs, kind, sources, minFreq) && minFreq >= 1
    ensures forall c :: c in cs ==> Tells(c, sources, minFreq)
    ensures forall sig :: Lists(cs, kind, sig) <==> Frequency(sources, sig) >= minFreq
  {
    var accs := Accumulate(Hits(sources));
    var m: nat :| IsMaxCount(m, accs, minFreq) && forall c :: c in cs ==> IsCandidate(c, kind, accs, minFreq, m);
    forall c | c in cs
      ensures Tells(c, sources, minFreq)
    {
      CandidateTells(c, kind, sources, minFreq, m);
    }
    forall sig
      ensures Lists(cs, kind, sig) <==> Frequency(sources, sig) >= minFreq
    {
      FrequencyIsSumOfCounts(sources, sig);
      if Frequency(sources, sig) >= minFreq {
        assert Qualifies(accs, sig, minFreq);
        var c :| c in cs && c.signature == sig;
        assert IsCandidate(c, kind, accs, minFreq, m);
      }
    }
  }

  /** The output lists a signature under a kind exactly when the sources of that kind contain it often enough,
      and each candidate tells about the sources of its kind. */
  lemma {:induction false} ExtractTells(out: seq<Candidate>, inputs: Inputs, minFreq: int, c: Candidate, sig: string)
    requires IsExtract(out, inputs, minFreq) && minFreq >= 1
    ensures Lists(out, ToolSequence, sig) <==> Frequency(inputs.tools, sig) >= minFreq
    ensures Lists(out, FileSequence, sig) <==> Frequency(inputs.files, sig) >= minFreq
    ensures Lists(out, CommitPattern, sig) <==> Frequency(inputs.commits, sig) >= minFreq
    ensures c in out && c.kind == ToolSequence ==> Tells(c, inputs.tools, minFreq)
    ensures c in out && c.kind == FileSequence ==> Tells(c, inputs.files, minFreq)
    ensures c in out && c.kind == CommitPattern ==> Tells(c, inputs.commits, minFreq)
    ensures c in out ==> c.kind != ErrorFix
  {
    var ts, fs, gs :| AreMined(ts, fs, gs, inputs, minFreq) && IsUnion(out, ts, fs, gs);
    MinedKeys(ts, ToolSequence, inputs.tools, minFreq);
    MinedKeys(fs, FileSequence, inputs.files, minFreq);
    MinedKeys(gs, CommitPattern, inputs.commits, minFreq);
    MinedTells(ts, ToolSequence, inputs.tools, minFreq);
    MinedTells(fs, FileSequence, inputs.files, minFreq);
    MinedTells(gs, CommitPattern, inputs.commits, minFreq);
    ListsApart(out, ts, fs, gs, sig);
  }

  lemma {:induction false} ListsApart(out: seq<Candidate>, ts: seq<Candidate>, fs: seq<Candidate>, gs: seq<Candidate>,
      sig: string)
    requires IsUnion(out, ts, fs, gs)
    requires forall c :: c in ts ==> c.kind == ToolSequence
    requires forall c :: c in fs ==> c.kind == FileSequence
    requires forall c :: c in gs ==> c.kind == CommitPattern
    ensures Lists(out, ToolSequence, sig) <==> Lists(ts, ToolSequence, sig)
    ensures Lists(out, FileSequence, sig) <==> Lists(fs, FileSequence, sig)
    ensures Lists(out, CommitPattern, sig) <==> Lists(gs, CommitPattern, sig)
  {
  }

  /** With dated sources the bounds are the earliest and the latest time of the sources that contain the
      signature. */
  lemma {:induction false} SpanOfSources(c: Candidate, sources: seq<SourceTokens>, minFreq: int)
    requires Tells(c, sources, minFreq) && minFreq >= 1
    requires forall src :: src in sources && Contains(src, c.signature) ==> 0 < src.first <= src.last
    ensures exists src :: src in sources && Contains(src, c.signature) && src.first == c.firstSeenAt
    ensures exists src :: src in sources && Contains(src, c.signature) && src.last == c.lastSeenAt
    ensures forall src :: src in sources && Contains(src, c.signature) ==>
              c.firstSeenAt <= src.first && src.last <= c.lastSeenAt
  {
    var hits := Hits(sources);
    forall h | h in hits && Meets(h, c.signature)
      ensures h.source in sources && Contains(h.source, c.signature)
    {
      SourceOfHit(sources, h);
    }
    var first, last :| IsEarliest(first, hits, c.signature) && IsLatest(last, hits, c.signature) &&
                       c.firstSeenAt <= c.lastSeenAt &&
                       multiset{c.firstSeenAt, c.lastSeenAt} == multiset{if first == 0 then last else first, last};
    SomeHit(sources, c.signature);
    DatedBounds(hits, c.signature, first, last);
    assert c.firstSeenAt == first && c.lastSeenAt == last by {
      PairInOrder(c.firstSeenAt, c.lastSeenAt, first, last);
    }
    forall src | src in sources && Contains(src, c.signature)
      ensures first <= src.first && src.last <= last
    {
      var h := HitOfSource(sources, src, c.signature);
    }
  }

  lemma {:induction false} PairInOrder(a: int, b: int, c: int, d: int)
    requires a <= b && c <= d && multiset{a, b} == multiset{c, d}
    ensures a == c && b == d
  {
    assert a in multiset{c, d} && b in multiset{c, d} && c in multiset{a, b} && d in multiset{a, b};
  }

  lemma {:induction false} SourceOfHit(sources: seq<SourceTokens>, h: Hit)
    requires h in Hits(sources)
    ensures h.source in sources && Contains(h.source, Join(h.window))
  {
    HitInSomeSize(sources, h);
    var size :| size in SIZES && h in HitsOfSize(sources, size);
    InHitsOfSize(sources, size, h);
  }

  lemma {:induction false} HitOfSource(sources: seq<SourceTokens>, src: SourceTokens, sig: string) returns (h: Hit)
    requires src in sources && Contains(src, sig)
    ensures h in Hits(sources) && Meets(h, sig) && h.source == src
  {
    var size, w :| size in SIZES && w in Windows(src.tokens, size) && Join(w) == sig;
    h := Hit(w, src);
    InHitsOfSize(sources, size, h);
    HitInSomeSize(sources, h);
  }

  lemma {:induction false} SomeHit(sources: seq<SourceTokens>, sig: string)
    requires Frequency(sources, sig) >= 1
    ensures exists i :: 0 <= i < |Hits(sources)| && Meets(Hits(sources)[i], sig)
  {
    FrequencyIsSumOfCounts(sources, sig);
    SignatureIsMet(Hits(sources), sig);
  }

  lemma {:induction false} SignatureIsMet(hits: seq<Hit>, sig: string)
    requires sig in Accumulate(hits)
    ensures exists i :: 0 <= i < |hits| && Meets(hits[i], sig)
  {
    if Meets(Last(hits), sig) {
      assert hits[|hits| - 1] == Last(hits);
    } else {
      var f := Front(hits);
      SignatureIsMet(f, sig);
      var i :| 0 <= i < |f| && Meets(f[i], sig);
      assert hits[i] == f[i];
    }
  }

  lemma {:induction false} DatedBounds(hits: seq<Hit>, sig: string, first: Time, last: Time)
    requires IsEarliest(first, hits, sig) && IsLatest(last, hits, sig)
    requires exists i :: 0 <= i < |hits| && Meets(hits[i], sig)
    requires forall h :: h in hits && Meets(h, sig) ==> 0 < h.source.first <= h.source.last
    ensures 0 < first <= last && IsLeastFrom(first, hits, sig, 0)
    ensures exists i :: 0 <= i < |hits| && Meets(hits[i], sig) && hits[i].source.last == last
  {
    assert forall i :: 0 <= i < |hits| ==> hits[i] in hits;
    var p :| RestartsLast(hits, sig, p) && ((first == 0 && NoneFrom(hits, sig, p)) ||
                                            (first != 0 && IsLeastFrom(first, hits, sig, p)));
    var j :| 0 <= j < |hits| && Meets(hits[j], sig) && hits[j].source.first == first;
  }

  // ---- The order of the kinds ----

  lemma {:induction false} FirstDecides(a: string, b: string)
    requires a != [] && b != [] && a[0] != b[0]
    ensures Lex.Less(a, b) <==> a[0] < b[0]
  {
  }

  function Rank(k: Kind): nat {
    match k
    case CommitPattern => 0
    case ErrorFix => 1
    case FileSequence => 2
    case ToolSequence => 3
  }

  lemma {:induction false} NamesInOrder(k: Kind, l: Kind)
    requires k != l
    ensures Lex.Less(KindName(k), KindName(l)) <==> Rank(k) < Rank(l)
  {
    assert KindName(ToolSequence)[0] == 't' && KindName(FileSequence)[0] == 'f';
    assert KindName(CommitPattern)[0] == 'c' && KindName(ErrorFix)[0] == 'e';
    FirstDecides(KindName(k), KindName(l));
  }

  /** Commit patterns come first, then file sequences, then tool sequences; within a kind the signatures
      ascend. */
  lemma {:induction false} KindsInOrder(out: seq<Candidate>, inputs: Inputs, minFreq: int, i: nat, j: nat)
    requires IsExtract(out, inputs, minFreq) && i < j < |out|
    ensures out[i].kind == out[j].kind ==> Lex.Less(out[i].signature, out[j].signature)
    ensures out[i].kind == out[j].kind || (out[i].kind == CommitPattern && out[j].kind == FileSequence) ||
            (out[i].kind == CommitPattern && out[j].kind == ToolSequence) ||
            (out[i].kind == FileSequence && out[j].kind == ToolSequence)
  {
    var ts, fs, gs :| AreMined(ts, fs, gs, inputs, minFreq) && IsUnion(out, ts, fs, gs);
    MinedKeys(ts, ToolSequence, inputs.tools, minFreq);
    MinedKeys(fs, FileSequence, inputs.files, minFreq);
    MinedKeys(gs, CommitPattern, inputs.commits, minFreq);
    assert out[i] in out && out[j] in out && KeyLess(out[i], out[j]);
    Lex.LessIrreflexive(KindName(out[i].kind));
    if out[i].kind != out[j].kind {
      NamesInOrder(out[i].kind, out[j].kind);
    }
  }
}

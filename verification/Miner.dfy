/** mineKind and the final ordering of runExtract (tools/learn/cmd_extract.go), with scorePattern and
    Validate (tools/learn/pattern.go). */
module Miner {

  import opened Prelude
  import Lex
  import Sorting
  import opened NGrams

  /** A time; 0 is the zero time of the source. */
  type Time = int

  datatype SourceTokens = SourceTokens(name: string, tokens: seq<string>, first: Time, last: Time)

  /** What is kept about one signature. */
  datatype Acc = Acc(count: nat, contexts: set<string>, firstSeenAt: Time, lastSeenAt: Time)

  type Accs = map<string, Acc>

  function AccOf(accs: Accs, sig: string): Acc {
    if sig in accs then accs[sig] else Acc(0, {}, 0, 0)
  }

  function AddHit(a: Acc, src: SourceTokens): Acc {
    Acc(a.count + 1,
        a.contexts + {src.name},
        if a.firstSeenAt == 0 || src.first < a.firstSeenAt then src.first else a.firstSeenAt,
        if src.last > a.lastSeenAt then src.last else a.lastSeenAt)
  }

  /** One window of one source. */
  datatype Hit = Hit(window: seq<string>, source: SourceTokens)

  function HitsUpTo(src: SourceTokens, windows: seq<seq<string>>): seq<Hit> {
    if windows == [] then [] else HitsUpTo(src, Front(windows)) + [Hit(Last(windows), src)]
  }

  /** The hits of one window size, source by source. */
  function HitsOfSize(sources: seq<SourceTokens>, size: nat): seq<Hit> {
    if sources == [] then []
    else HitsOfSize(Front(sources), size) + HitsUpTo(Last(sources), Windows(Last(sources).tokens, size))
  }

  const SIZES: seq<nat> := [2, 3, 4]

  function HitsOfSizes(sources: seq<SourceTokens>, sizes: seq<nat>): seq<Hit> {
    if sizes == [] then [] else HitsOfSizes(sources, Front(sizes)) + HitsOfSize(sources, Last(sizes))
  }

  function Hits(sources: seq<SourceTokens>): seq<Hit> {
    HitsOfSizes(sources, SIZES)
  }

  function Accumulate(hits: seq<Hit>): Accs {
    if hits == [] then map[]
    else
      var accs := Accumulate(Front(hits));
      var sig := Join(Last(hits).window);
      accs[sig := AddHit(AccOf(accs, sig), Last(hits).source)]
  }

  // The loops add the hits one by one; these functions follow their nesting.

  function AddWindow(accs: Accs, src: SourceTokens, sig: string): Accs {
    accs[sig := AddHit(AccOf(accs, sig), src)]
  }

  function AddWindows(accs: Accs, src: SourceTokens, size: nat, n: nat): Accs
    requires n == 0 || n - 1 + size <= |src.tokens|
  {
    if n == 0 then accs
    else AddWindow(AddWindows(accs, src, size, n - 1), src, Join(src.tokens[n - 1..n - 1 + size]))
  }

  function AddSources(accs: Accs, sources: seq<SourceTokens>, size: nat): Accs {
    if sources == [] then accs
    else
      AddWindows(AddSources(accs, Front(sources), size), Last(sources), size, WindowCount(Last(sources).tokens, size))
  }

  function AddSizes(accs: Accs, sources: seq<SourceTokens>, sizes: seq<nat>): Accs {
    if sizes == [] then accs else AddSources(AddSizes(accs, sources, Front(sizes)), sources, Last(sizes))
  }

  lemma {:induction false} AccumulateNext(hits: seq<Hit>, src: SourceTokens, ws: seq<seq<string>>, w: seq<string>)
    ensures Accumulate(hits + HitsUpTo(src, ws + [w])) == AddWindow(Accumulate(hits + HitsUpTo(src, ws)), src, Join(w))
  {
    assert Front(ws + [w]) == ws;
    assert Front(hits + HitsUpTo(src, ws + [w])) == hits + HitsUpTo(src, ws);
  }

  lemma {:induction false} AddWindowsAccumulates(hits: seq<Hit>, src: SourceTokens, size: nat, n: nat)
    requires n == 0 || n - 1 + size <= |src.tokens|
    ensures AddWindows(Accumulate(hits), src, size, n) ==
            Accumulate(hits + HitsUpTo(src, WindowsUpTo(src.tokens, size, n)))
  {
    if n == 0 {
      assert hits + [] == hits;
    } else {
      AddWindowsAccumulates(hits, src, size, n - 1);
      AccumulateNext(hits, src, WindowsUpTo(src.tokens, size, n - 1), src.tokens[n - 1..n - 1 + size]);
    }
  }

  lemma {:induction false} AddSourcesAccumulates(hits: seq<Hit>, sources: seq<SourceTokens>, size: nat)
    ensures AddSources(Accumulate(hits), sources, size) == Accumulate(hits + HitsOfSize(sources, size))
  {
    if sources == [] {
      assert hits + [] == hits;
    } else {
      var (rest, src) := (HitsOfSize(Front(sources), size), Last(sources));
      var own := HitsUpTo(src, Windows(src.tokens, size));
      AddSourcesAccumulates(hits, Front(sources), size);
      AddWindowsAccumulates(hits + rest, src, size, WindowCount(src.tokens, size));
      assert hits + (rest + own) == hits + rest + own;
    }
  }

  lemma {:induction false} AddSizesAccumulates(sources: seq<SourceTokens>, sizes: seq<nat>)
    ensures AddSizes(map[], sources, sizes) == Accumulate(HitsOfSizes(sources, sizes))
  {
    if sizes != [] {
      AddSizesAccumulates(sources, Front(sizes));
      AddSourcesAccumulates(HitsOfSizes(sources, Front(sizes)), sources, Last(sizes));
    }
  }

  /** The three nested loops that fill the accumulators. */
  method AccumulateSources(sources: seq<SourceTokens>) returns (accs: Accs)
    ensures accs == Accumulate(Hits(sources))
  {
    accs := map[];
    for k := 0 to |SIZES|
      invariant accs == AddSizes(map[], sources, SIZES[..k])
    {
      accs := AccumulateSize(sources, SIZES[k], accs);
      assert Front(SIZES[..k + 1]) == SIZES[..k];
    }
    assert SIZES[..|SIZES|] == SIZES;
    AddSizesAccumulates(sources, SIZES);
  }

  lemma {:induction false} NextSource(accs: Accs, sources: seq<SourceTokens>, src: SourceTokens, size: nat)
    ensures AddSources(accs, sources + [src], size) ==
            AddWindows(AddSources(accs, sources, size), src, size, WindowCount(src.tokens, size))
  {
    assert Front(sources + [src]) == sources;
  }

  method AccumulateSize(sources: seq<SourceTokens>, size: nat, before: Accs) returns (accs: Accs)
    ensures accs == AddSources(before, sources, size)
  {
    accs := before;
    for k := 0 to |sources|
      invariant accs == AddSources(before, sources[..k], size)
    {
      NextSource(before, sources[..k], sources[k], size);
      assert sources[..k + 1] == sources[..k] + [sources[k]];
      if |sources[k].tokens| < size {
        continue;
      }
      accs := AccumulateWindows(sources[k], size, accs);
    }
    assert sources[..|sources|] == sources;
  }

  /** The inner loop: the windows of one source are added to the accumulators. */
  method AccumulateWindows(src: SourceTokens, size: nat, before: Accs) returns (accs: Accs)
    requires size <= |src.tokens|
    ensures accs == AddWindows(before, src, size, WindowCount(src.tokens, size))
  {
    accs := before;
    var i := 0;
    while i + size <= |src.tokens|
      invariant 0 <= i <= |src.tokens| - size + 1
      invariant accs == AddWindows(before, src, size, i)
    {
      var sig := JoinNGram(src.tokens[i..i + size]);
      accs := AddWindow(accs, src, sig);
      i := i + 1;
    }
  }

  // ---- Agreement with the plain counter ----

  function HitSignatures(hits: seq<Hit>): seq<string> {
    if hits == [] then [] else HitSignatures(Front(hits)) + [Join(Last(hits).window)]
  }

  function TokensOf(sources: seq<SourceTokens>): seq<seq<string>> {
    if sources == [] then [] else TokensOf(Front(sources)) + [Last(sources).tokens]
  }

  lemma {:induction false} AccumulateCounts(hits: seq<Hit>, sig: string)
    ensures AccOf(Accumulate(hits), sig).count == Occurs(HitSignatures(hits), sig)
    ensures sig in Accumulate(hits) <==> Occurs(HitSignatures(hits), sig) > 0
  {
    if hits != [] {
      AccumulateCounts(Front(hits), sig);
    }
  }

  lemma {:induction false} HitSignaturesConcat(s: seq<Hit>, t: seq<Hit>)
    ensures HitSignatures(s + t) == HitSignatures(s) + HitSignatures(t)
  {
    if t == [] {
      assert s + t == s;
    } else {
      assert Front(s + t) == s + Front(t);
      HitSignaturesConcat(s, Front(t));
    }
  }

  lemma {:induction false} HitsUpToSignatures(src: SourceTokens, windows: seq<seq<string>>)
    ensures HitSignatures(HitsUpTo(src, windows)) == Signatures(windows)
  {
    if windows != [] {
      var earlier := HitsUpTo(src, Front(windows));
      HitsUpToSignatures(src, Front(windows));
      assert Front(earlier + [Hit(Last(windows), src)]) == earlier;
    }
  }

  lemma {:induction false} HitsOfSizeSignatures(sources: seq<SourceTokens>, size: nat)
    ensures HitSignatures(HitsOfSize(sources, size)) == Signatures(AllWindows(TokensOf(sources), size))
  {
    if sources != [] {
      var (rest, src) := (Front(sources), Last(sources));
      HitsOfSizeSignatures(rest, size);
      HitsUpToSignatures(src, Windows(src.tokens, size));
      HitSignaturesConcat(HitsOfSize(rest, size), HitsUpTo(src, Windows(src.tokens, size)));
      SignaturesConcat(AllWindows(TokensOf(rest), size), Windows(src.tokens, size));
      assert Front(TokensOf(sources)) == TokensOf(rest);
    }
  }

  /** A signature's frequency is the sum of its plain counts at the window sizes 2, 3 and 4. */
  lemma {:induction false} FrequencyIsSumOfCounts(sources: seq<SourceTokens>, sig: string)
    ensures AccOf(Accumulate(Hits(sources)), sig).count ==
            NGramCount(TokensOf(sources), 2, sig) + NGramCount(TokensOf(sources), 3, sig) +
            NGramCount(TokensOf(sources), 4, sig)
  {
    var (h2, h3, h4) := (HitsOfSize(sources, 2), HitsOfSize(sources, 3), HitsOfSize(sources, 4));
    AccumulateCounts(Hits(sources), sig);
    AllHits(sources);
    HitSignaturesConcat(h2 + h3, h4);
    HitSignaturesConcat(h2, h3);
    OccursConcat(HitSignatures(h2) + HitSignatures(h3), HitSignatures(h4), sig);
    OccursConcat(HitSignatures(h2), HitSignatures(h3), sig);
    HitsOfSizeSignatures(sources, 2);
    HitsOfSizeSignatures(sources, 3);
    HitsOfSizeSignatures(sources, 4);
  }

  lemma {:induction false} AllHits(sources: seq<SourceTokens>)
    ensures Hits(sources) == HitsOfSize(sources, 2) + HitsOfSize(sources, 3) + HitsOfSize(sources, 4)
  {
    assert Front(SIZES) == [2, 3] && Front([2, 3]) == [2] && Front([2]) == [];
    assert HitsOfSizes(sources, [2]) == HitsOfSize(sources, 2);
    assert HitsOfSizes(sources, [2, 3]) == HitsOfSize(sources, 2) + HitsOfSize(sources, 3);
  }

  /** Some window of the source, of one of the sizes, has this signature. */
  ghost predicate Contains(src: SourceTokens, sig: string) {
    exists size, w :: size in SIZES && w in Windows(src.tokens, size) && Join(w) == sig
  }

  lemma {:induction false} AccumulateContexts(hits: seq<Hit>, sig: string, name: string)
    ensures name in AccOf(Accumulate(hits), sig).contexts <==>
            exists h :: h in hits && Join(h.window) == sig && h.source.name == name
  {
    if hits != [] {
      AccumulateContexts(Front(hits), sig, name);
      assert hits == Front(hits) + [Last(hits)];
    }
  }

  lemma {:induction false} InHitsUpTo(src: SourceTokens, windows: seq<seq<string>>, h: Hit)
    ensures h in HitsUpTo(src, windows) <==> h.source == src && h.window in windows
  {
    if windows != [] {
      InHitsUpTo(src, Front(windows), h);
      assert windows == Front(windows) + [Last(windows)];
    }
  }

  lemma {:induction false} InHitsOfSize(sources: seq<SourceTokens>, size: nat, h: Hit)
    ensures h in HitsOfSize(sources, size) <==> h.source in sources && h.window in Windows(h.source.tokens, size)
  {
    if sources != [] {
      InHitsOfSize(Front(sources), size, h);
      InHitsUpTo(Last(sources), Windows(Last(sources).tokens, size), h);
      assert sources == Front(sources) + [Last(sources)];
    }
  }

  lemma {:induction false} HitInSomeSize(sources: seq<SourceTokens>, h: Hit)
    ensures h in Hits(sources) <==> exists size :: size in SIZES && h in HitsOfSize(sources, size)
  {
    AllHits(sources);
    assert 2 in SIZES && 3 in SIZES && 4 in SIZES;
  }

  /** A signature's contexts are exactly the sources that contain one of its windows. */
  lemma {:induction false} ContextsAreSources(sources: seq<SourceTokens>, sig: string, name: string)
    ensures name in AccOf(Accumulate(Hits(sources)), sig).contexts <==>
            exists src :: src in sources && src.name == name && Contains(src, sig)
  {
    AccumulateContexts(Hits(sources), sig, name);
    if h :| h in Hits(sources) && Join(h.window) == sig && h.source.name == name {
      HitInSomeSize(sources, h);
      var size :| size in SIZES && h in HitsOfSize(sources, size);
      InHitsOfSize(sources, size, h);
      assert Contains(h.source, sig);
    }
    if src :| src in sources && src.name == name && Contains(src, sig) {
      var size, w :| size in SIZES && w in Windows(src.tokens, size) && Join(w) == sig;
      InHitsOfSize(sources, size, Hit(w, src));
      HitInSomeSize(sources, Hit(w, src));
    }
  }

  // ---- Exact counting of plain tokens ----

  lemma {:induction false} SignatureMatchesWindow(windows: seq<seq<string>>, size: nat, ts: seq<string>)
    requires size > 0 && ts != [] && AllPlain(ts) && Clean(windows, size)
    ensures Occurs(Signatures(windows), Join(ts)) == Occurs(windows, ts)
  {
    if windows != [] {
      assert forall w :: w in Front(windows) ==> w in windows;
      SignatureMatchesWindow(Front(windows), size, ts);
      if Join(Last(windows)) == Join(ts) {
        JoinInjective(Last(windows), ts);
      }
    }
  }

  lemma {:induction false} OtherSizeNeverOccurs(windows: seq<seq<string>>, size: nat, ts: seq<string>)
    requires |ts| != size && forall w :: w in windows ==> |w| == size
    ensures Occurs(windows, ts) == 0
  {
    if windows != [] {
      assert forall w :: w in Front(windows) ==> w in windows;
      OtherSizeNeverOccurs(Front(windows), size, ts);
    }
  }

  ghost predicate Clean(windows: seq<seq<string>>, size: nat) {
    forall w :: w in windows ==> |w| == size && AllPlain(w)
  }

  lemma {:induction false} WindowsAreClean(tokens: seq<string>, size: nat, n: nat)
    requires (n == 0 || n - 1 + size <= |tokens|) && AllPlain(tokens)
    ensures Clean(WindowsUpTo(tokens, size, n), size)
  {
    if n > 0 {
      WindowsAreClean(tokens, size, n - 1);
      assert AllPlain(tokens[n - 1..n - 1 + size]);
    }
  }

  lemma {:induction false} CleanConcat(s: seq<seq<string>>, t: seq<seq<string>>, size: nat)
    requires Clean(s, size) && Clean(t, size)
    ensures Clean(s + t, size)
  {
  }

  lemma {:induction false} AllWindowsAreClean(sources: seq<SourceTokens>, size: nat)
    requires forall src :: src in sources ==> AllPlain(src.tokens)
    ensures Clean(AllWindows(TokensOf(sources), size), size)
  {
    if sources != [] {
      var (rest, src) := (Front(sources), Last(sources));
      assert sources == rest + [src] && src in sources;
      AllWindowsAreClean(rest, size);
      WindowsAreClean(src.tokens, size, WindowCount(src.tokens, size));
      assert Front(TokensOf(sources)) == TokensOf(rest);
      CleanConcat(AllWindows(TokensOf(rest), size), Windows(src.tokens, size), size);
    }
  }

  lemma {:induction false} CountAtSize(sources: seq<SourceTokens>, size: nat, ts: seq<string>)
    requires size > 0 && ts != [] && AllPlain(ts)
    requires forall src :: src in sources ==> AllPlain(src.tokens)
    ensures NGramCount(TokensOf(sources), size, Join(ts)) ==
            if size == |ts| then Occurs(AllWindows(TokensOf(sources), size), ts) else 0
  {
    AllWindowsAreClean(sources, size);
    SignatureMatchesWindow(AllWindows(TokensOf(sources), size), size, ts);
    if size != |ts| {
      OtherSizeNeverOccurs(AllWindows(TokensOf(sources), size), size, ts);
    }
  }

  /** With plain tokens a frequency is the exact number of places where that very token list occurs. */
  lemma {:induction false} FrequencyIsExact(sources: seq<SourceTokens>, ts: seq<string>)
    requires 2 <= |ts| <= 4 && AllPlain(ts)
    requires forall src :: src in sources ==> AllPlain(src.tokens)
    ensures AccOf(Accumulate(Hits(sources)), Join(ts)).count == Occurs(AllWindows(TokensOf(sources), |ts|), ts)
  {
    FrequencyIsSumOfCounts(sources, Join(ts));
    CountAtSize(sources, 2, ts);
    CountAtSize(sources, 3, ts);
    CountAtSize(sources, 4, ts);
  }

  lemma {:induction false} WholeWindow(tokens: seq<string>)
    requires tokens != []
    ensures Windows(tokens, |tokens|) == [tokens]
  {
    assert WindowsUpTo(tokens, |tokens|, 0) == [] && tokens[0..|tokens|] == tokens;
  }

  lemma {:induction false} TwoWindows(tokens: seq<string>)
    requires |tokens| == 4
    ensures Windows(tokens, 3) == [tokens[..3], tokens[1..]]
  {
    assert WindowsUpTo(tokens, 3, 0) == [] && WindowsUpTo(tokens, 3, 1) == [tokens[0..3]];
    assert tokens[0..3] == tokens[..3] && tokens[1..4] == tokens[1..];
  }

  lemma {:induction false} TokensOfOne(src: SourceTokens)
    ensures TokensOf([src]) == [src.tokens]
  {
    assert Front([src]) == [] && TokensOf([]) == [];
  }

  lemma {:induction false} WindowsOfOne(tokens: seq<string>, size: nat)
    ensures AllWindows([tokens], size) == Windows(tokens, size)
  {
    assert Front([tokens]) == [] && AllWindows([], size) == [];
    assert AllWindows([tokens], size) == [] + Windows(tokens, size);
  }

  lemma {:induction false} OneSource(src: SourceTokens, size: nat)
    ensures AllWindows(TokensOf([src]), size) == Windows(src.tokens, size)
  {
    TokensOfOne(src);
    WindowsOfOne(src.tokens, size);
  }

  lemma {:induction false} OccursOnce<T>(x: T)
    ensures Occurs([x], x) == 1
  {
    assert Front([x]) == [];
  }

  lemma {:induction false} OneSignature(w: seq<string>)
    ensures Signatures([w]) == [Join(w)]
  {
    assert Front([w]) == [];
  }

  lemma {:induction false} CountedAtItsSize(src: SourceTokens)
    requires src.tokens != []
    ensures NGramCount(TokensOf([src]), |src.tokens|, Join(src.tokens)) == 1
  {
    OneSource(src, |src.tokens|);
    WholeWindow(src.tokens);
    OneSignature(src.tokens);
    OccursOnce(Join(src.tokens));
  }

  lemma {:induction false} OccursNotIn<T>(s: seq<T>, x: T)
    requires x !in s
    ensures Occurs(s, x) == 0
  {
    if s != [] {
      OccursNotIn(Front(s), x);
    }
  }

  lemma {:induction false} WindowsOfFew(other: seq<string>)
    requires 2 <= |other| <= 4
    ensures Windows(other, 3) == if |other| == 2 then [] else if |other| == 3 then [other] else [other[..3], other[1..]]
  {
    if |other| == 3 {
      WholeWindow(other);
    } else if |other| == 4 {
      TwoWindows(other);
    }
  }

  lemma {:induction false} NoSuchWindow(other: seq<string>, p: string, t: string, q: string)
    requires 2 <= |other| <= 4 && other != [p, t, q] && (|other| == 4 ==> other[1] != t && other[2] != t)
    ensures Occurs(Windows(other, 3), [p, t, q]) == 0
  {
    var w := [p, t, q];
    WindowsOfFew(other);
    if |other| == 4 {
      assert other[..3][1] != w[1] && other[1..][1] != w[1];
      OccursNotIn([other[..3], other[1..]], w);
    } else if |other| == 3 {
      OccursNotIn([other], w);
    }
  }

  /** A token that is not plain is miscounted between any two tokens: some source has no such window, and
      yet the frequency is positive. */
  lemma {:induction false} OthersAreMiscounted(p: string, t: string, q: string) returns (src: SourceTokens)
    requires !Plain(t)
    ensures Occurs(AllWindows(TokensOf([src]), 3), [p, t, q]) == 0
    ensures AccOf(Accumulate(Hits([src])), Join([p, t, q])).count > 0
  {
    var other := OtherReading(p, t, q);
    src := SourceTokens("", other, 0, 0);
    FrequencyIsSumOfCounts([src], Join(other));
    CountedAtItsSize(src);
    OneSource(src, 3);
    NoSuchWindow(other, p, t, q);
  }

  // ---- Candidates ----

  datatype Kind = ToolSequence | FileSequence | CommitPattern | ErrorFix

  function KindName(k: Kind): string {
    match k
    case ToolSequence => "tool-sequence"
    case FileSequence => "file-sequence"
    case CommitPattern => "commit-pattern"
    case ErrorFix => "error-fix"
  }

  datatype Candidate = Candidate(
    kind: Kind, signature: string, frequency: int, contexts: seq<string>, score: real, firstSeenAt: Time,
        lastSeenAt: Time)

  function ScorePattern(count: int, maxCount: int): real {
    if maxCount <= 0 || count <= 0 then 0.0
    else if count >= maxCount then 1.0
    else count as real / maxCount as real
  }

  datatype Flaw = EmptySignature | LowFrequency | ScoreOutOfRange | TimesReversed

  /** Validate: the first flaw, or None.  Every kind of the enumeration is a valid one, and a
      sequence is never nil. */
  function Validate(c: Candidate): Option<Flaw> {
    if c.signature == "" then Some(EmptySignature)
    else if c.frequency < 1 then Some(LowFrequency)
    else if c.score < 0.0 || c.score > 1.0 then Some(ScoreOutOfRange)
    else if c.firstSeenAt > c.lastSeenAt then Some(TimesReversed)
    else None
  }

  predicate Qualifies(accs: Accs, sig: string, minFreq: int) {
    sig in accs && accs[sig].count >= minFreq
  }

  /** The largest qualifying count, 0 when none qualifies. */
  ghost predicate IsMaxCount(n: nat, accs: Accs, minFreq: int) {
    && (forall sig :: Qualifies(accs, sig, minFreq) ==> accs[sig].count <= n)
    && (n > 0 ==> exists sig :: Qualifies(accs, sig, minFreq) && accs[sig].count == n)
  }

  lemma {:induction false} MaxCountUnique(m: nat, n: nat, accs: Accs, minFreq: int)
    requires IsMaxCount(m, accs, minFreq) && IsMaxCount(n, accs, minFreq)
    ensures m == n
  {
  }

  function SeenBounds(a: Acc): (Time, Time) {
    var first := if a.firstSeenAt == 0 then a.lastSeenAt else a.firstSeenAt;
    if first > a.lastSeenAt then (a.lastSeenAt, first) else (first, a.lastSeenAt)
  }

  /** `c` is the candidate of its signature. */
  ghost predicate IsCandidate(c: Candidate, kind: Kind, accs: Accs, minFreq: int, maxCount: nat) {
    && Qualifies(accs, c.signature, minFreq)
    && var a := accs[c.signature];
       && c.kind == kind && c.frequency == a.count && c.score == ScorePattern(a.count, maxCount)
       && (c.firstSeenAt, c.lastSeenAt) == SeenBounds(a)
       && Lex.StrictlySorted(c.contexts) && (forall x :: x in c.contexts <==> x in a.contexts)
  }

  lemma {:induction false} CandidateUnique(c: Candidate, d: Candidate, kind: Kind, accs: Accs, minFreq: int,
      maxCount: nat)
    requires IsCandidate(c, kind, accs, minFreq, maxCount) && IsCandidate(d, kind, accs, minFreq, maxCount)
    requires c.signature == d.signature
    ensures c == d
  {
    Lex.SortedUnique(c.contexts, d.contexts);
  }

  /** `cs` lists the candidate of every qualifying signature once, in some order. */
  ghost predicate IsMined(cs: seq<Candidate>, kind: Kind, sources: seq<SourceTokens>, minFreq: int) {
    var accs := Accumulate(Hits(sources));
    && (forall i, j :: 0 <= i < j < |cs| ==> cs[i].signature != cs[j].signature)
    && (forall sig :: Qualifies(accs, sig, minFreq) ==> exists c :: c in cs && c.signature == sig)
    && exists m :: IsMaxCount(m, accs, minFreq) && forall c :: c in cs ==> IsCandidate(c, kind, accs, minFreq, m)
  }

  /** The running maximum, over the accumulators in arbitrary order. */
  method MaxCount(accs: Accs, minFreq: int) returns (maxCount: nat)
    ensures IsMaxCount(maxCount, accs, minFreq)
  {
    maxCount := 0;
    var rest := accs.Keys;
    while rest != {}
      invariant rest <= accs.Keys
      invariant forall sig :: sig !in rest && Qualifies(accs, sig, minFreq) ==> accs[sig].count <= maxCount
      invariant maxCount > 0 ==> exists sig :: Qualifies(accs, sig, minFreq) && accs[sig].count == maxCount
      decreases rest
    {
      var sig :| sig in rest;
      if accs[sig].count >= minFreq && accs[sig].count > maxCount {
        maxCount := accs[sig].count;
        assert Qualifies(accs, sig, minFreq);
      }
      rest := rest - {sig};
    }
  }

  method MakeCandidate(kind: Kind, accs: Accs, sig: string, minFreq: int, maxCount: nat) returns (c: Candidate)
    requires Qualifies(accs, sig, minFreq)
    ensures c.signature == sig && IsCandidate(c, kind, accs, minFreq, maxCount)
  {
    var a := accs[sig];
    var contexts := Lex.SortedElements(a.contexts);
    var (first, last) := (a.firstSeenAt, a.lastSeenAt);
    if first == 0 {
      first := last;
    }
    if first > last {
      first, last := last, first;
    }
    c := Candidate(kind, sig, a.count, contexts, ScorePattern(a.count, maxCount), first, last);
  }

  method MineKind(kind: Kind, sources: seq<SourceTokens>, minFreq: int) returns (cs: seq<Candidate>)
    ensures IsMined(cs, kind, sources, minFreq)
  {
    var accs := AccumulateSources(sources);
    var maxCount := MaxCount(accs, minFreq);
    cs := [];
    var rest := accs.Keys;
    while rest != {}
      invariant rest <= accs.Keys
      invariant forall c :: c in cs ==> c.signature !in rest && IsCandidate(c, kind, accs, minFreq, maxCount)
      invariant forall i, j :: 0 <= i < j < |cs| ==> cs[i].signature != cs[j].signature
      invariant forall sig :: sig !in rest && Qualifies(accs, sig, minFreq) ==>
              exists c :: c in cs && c.signature == sig
      decreases rest
    {
      var sig :| sig in rest;
      rest := rest - {sig};
      if accs[sig].count < minFreq {
        continue;
      }
      var c := MakeCandidate(kind, accs, sig, minFreq, maxCount);
      ghost var before := cs;
      cs := cs + [c];
      assert forall d :: d in before ==> d in cs;
      assert c in cs;
    }
  }

  // ---- Validity and the top score ----

  lemma {:induction false} AccsAreCounted(hits: seq<Hit>, sig: string)
    requires sig in Accumulate(hits)
    ensures Accumulate(hits)[sig].count >= 1
  {
    if sig in Accumulate(Front(hits)) {
      AccsAreCounted(Front(hits), sig);
    }
  }

  lemma {:induction false} SignaturesAreNotEmpty(hits: seq<Hit>)
    requires forall h :: h in hits ==> |h.window| >= 2
    ensures "" !in Accumulate(hits)
  {
    if hits != [] {
      assert forall h :: h in Front(hits) ==> h in hits;
      SignaturesAreNotEmpty(Front(hits));
      assert |Join(Last(hits).window)| >= |SEPARATOR|;
    }
  }

  lemma {:induction false} WindowSizes(tokens: seq<string>, size: nat, n: nat)
    requires n == 0 || n - 1 + size <= |tokens|
    ensures forall w :: w in WindowsUpTo(tokens, size, n) ==> |w| == size
  {
    if n > 0 {
      WindowSizes(tokens, size, n - 1);
    }
  }

  lemma {:induction false} HitsAreWide(sources: seq<SourceTokens>)
    ensures forall h :: h in Hits(sources) ==> |h.window| >= 2
  {
    forall h | h in Hits(sources)
      ensures |h.window| >= 2
    {
      HitInSomeSize(sources, h);
      var size :| size in SIZES && h in HitsOfSize(sources, size);
      InHitsOfSize(sources, size, h);
      WindowSizes(h.source.tokens, size, WindowCount(h.source.tokens, size));
    }
  }

  lemma {:induction false} CandidateIsValid(c: Candidate, kind: Kind, sources: seq<SourceTokens>, minFreq: int, m: nat)
    requires var accs := Accumulate(Hits(sources));
             IsMaxCount(m, accs, minFreq) && IsCandidate(c, kind, accs, minFreq, m)
    ensures Validate(c) == None && 1 <= c.frequency <= m
  {
    HitsAreWide(sources);
    SignaturesAreNotEmpty(Hits(sources));
    AccsAreCounted(Hits(sources), c.signature);
    ScoreInRange(c.frequency, m);
  }

  lemma {:induction false} ScoreInRange(count: int, maxCount: int)
    ensures 0.0 <= ScorePattern(count, maxCount) <= 1.0
  {
  }

  /** Every candidate is valid, and if there is one at all the best one scores 1. */
  lemma {:induction false} MinedAreValid(cs: seq<Candidate>, kind: Kind, sources: seq<SourceTokens>, minFreq: int)
    requires IsMined(cs, kind, sources, minFreq)
    ensures forall c :: c in cs ==> Validate(c) == None
    ensures cs != [] ==> exists c :: c in cs && IsTop(c, cs)
  {
    var accs := Accumulate(Hits(sources));
    var m :| IsMaxCount(m, accs, minFreq) && forall c :: c in cs ==> IsCandidate(c, kind, accs, minFreq, m);
    forall c | c in cs
      ensures Validate(c) == None && 1 <= c.frequency <= m
    {
      CandidateIsValid(c, kind, sources, minFreq, m);
    }
    if cs != [] {
      assert cs[0] in cs;
      var sig :| Qualifies(accs, sig, minFreq) && accs[sig].count == m;
      var top :| top in cs && top.signature == sig;
      assert IsTop(top, cs);
    }
  }

  ghost predicate IsTop(c: Candidate, cs: seq<Candidate>) {
    c.score == 1.0 && forall d :: d in cs ==> d.frequency <= c.frequency
  }

  // ---- The final order ----

  predicate KeyLess(c: Candidate, d: Candidate) {
    Lex.Less(KindName(c.kind), KindName(d.kind)) || (c.kind == d.kind && Lex.Less(c.signature, d.signature))
  }

  predicate SameKey(c: Candidate, d: Candidate) {
    c.kind == d.kind && c.signature == d.signature
  }

  lemma {:induction false} KindNamesDiffer(k: Kind, l: Kind)
    ensures KindName(k) == KindName(l) <==> k == l
  {
    assert KindName(ToolSequence)[0] == 't' && KindName(FileSequence)[0] == 'f';
    assert KindName(CommitPattern)[0] == 'c' && KindName(ErrorFix)[0] == 'e';
  }

  lemma {:induction false} KeyTotal(c: Candidate, d: Candidate)
    ensures SameKey(c, d) || KeyLess(c, d) || KeyLess(d, c)
    ensures KeyLess(c, d) ==> !KeyLess(d, c) && !SameKey(c, d)
  {
    var (a, b) := (KindName(c.kind), KindName(d.kind));
    KindNamesDiffer(c.kind, d.kind);
    Lex.LessTotal(a, b);
    Lex.LessTotal(c.signature, d.signature);
    Lex.LessIrreflexive(a);
    Lex.LessIrreflexive(c.signature);
    if Lex.Less(a, b) {
      Lex.LessAsymmetric(a, b);
    }
    if Lex.Less(c.signature, d.signature) {
      Lex.LessAsymmetric(c.signature, d.signature);
    }
  }

  lemma {:induction false} KeyTransitive(c: Candidate, d: Candidate, e: Candidate)
    requires KeyLess(c, d) && KeyLess(d, e)
    ensures KeyLess(c, e)
  {
    if Lex.Less(KindName(c.kind), KindName(d.kind)) && Lex.Less(KindName(d.kind), KindName(e.kind)) {
      Lex.LessTransitive(KindName(c.kind), KindName(d.kind), KindName(e.kind));
    }
    if c.kind == d.kind == e.kind && Lex.Less(c.signature, d.signature) && Lex.Less(d.signature, e.signature) {
      Lex.LessTransitive(c.signature, d.signature, e.signature);
    }
  }

  lemma {:induction false} KeyLessIsStrictOrder()
    ensures Sorting.StrictOrder(KeyLess)
  {
    forall c, d | KeyLess(c, d)
      ensures !KeyLess(d, c)
    {
      KeyTotal(c, d);
    }
    forall c, d, e | KeyLess(c, d) && KeyLess(d, e)
      ensures KeyLess(c, e)
    {
      KeyTransitive(c, d, e);
    }
  }

  ghost predicate DistinctKeys(cs: seq<Candidate>) {
    forall i, j :: 0 <= i < j < |cs| ==> !SameKey(cs[i], cs[j])
  }

  /** Candidates with distinct keys, put into ascending order of (kind, signature). */
  method SortCandidates(cs: seq<Candidate>) returns (r: seq<Candidate>)
    requires DistinctKeys(cs)
    ensures Sorting.Sorted(r, KeyLess)
    ensures forall c :: c in r <==> c in cs
  {
    KeyLessIsStrictOrder();
    r := [];
    for i := 0 to |cs|
      invariant Sorting.Sorted(r, KeyLess)
      invariant forall c :: c in r <==> c in cs[..i]
    {
      forall y | y in r
        ensures cs[i] == y || KeyLess(cs[i], y) || KeyLess(y, cs[i])
      {
        KeyTotal(cs[i], y);
      }
      Sorting.InsertSorted(r, cs[i], KeyLess);
      r := Sorting.Insert(r, cs[i], KeyLess);
      assert cs[..i + 1] == cs[..i] + [cs[i]];
    }
    assert cs[..|cs|] == cs;
  }

  /** The token sequences of the three mined kinds. */
  datatype Inputs = Inputs(tools: seq<SourceTokens>, files: seq<SourceTokens>, commits: seq<SourceTokens>)

  ghost predicate AreMined(ts: seq<Candidate>, fs: seq<Candidate>, gs: seq<Candidate>, inputs: Inputs, minFreq: int) {
    && IsMined(ts, ToolSequence, inputs.tools, minFreq)
    && IsMined(fs, FileSequence, inputs.files, minFreq)
    && IsMined(gs, CommitPattern, inputs.commits, minFreq)
  }

  ghost predicate IsUnion(out: seq<Candidate>, ts: seq<Candidate>, fs: seq<Candidate>, gs: seq<Candidate>) {
    forall c :: c in out <==> c in ts || c in fs || c in gs
  }

  /** What the output is: the candidates of the three kinds in strictly ascending order. */
  ghost predicate IsExtract(out: seq<Candidate>, inputs: Inputs, minFreq: int) {
    && Sorting.Sorted(out, KeyLess)
    && exists ts, fs, gs :: AreMined(ts, fs, gs, inputs, minFreq) && IsUnion(out, ts, fs, gs)
  }

  /** The mining part of the extract command: None stands for the usage error. */
  method RunExtract(inputs: Inputs, minFreq: int) returns (out: Option<seq<Candidate>>)
    ensures out.None? <==> minFreq < 1
    ensures out.Some? ==> IsExtract(out.value, inputs, minFreq)
  {
    if minFreq < 1 {
      return None;
    }
    var ts := MineKind(ToolSequence, inputs.tools, minFreq);
    var fs := MineKind(FileSequence, inputs.files, minFreq);
    var gs := MineKind(CommitPattern, inputs.commits, minFreq);
    MinedKeys(ts, ToolSequence, inputs.tools, minFreq);
    MinedKeys(fs, FileSequence, inputs.files, minFreq);
    MinedKeys(gs, CommitPattern, inputs.commits, minFreq);
    var sorted := SortCandidates(ts + fs + gs);
    assert IsUnion(sorted, ts, fs, gs);
    out := Some(sorted);
  }

  lemma {:induction false} MinedKeys(cs: seq<Candidate>, kind: Kind, sources: seq<SourceTokens>, minFreq: int)
    requires IsMined(cs, kind, sources, minFreq)
    ensures DistinctKeys(cs)
    ensures forall c :: c in cs ==> c.kind == kind
    ensures forall i :: 0 <= i < |cs| ==> cs[i].kind == kind
  {
  }

  /** Two mined lists hold the same candidates: the enumeration order does not matter. */
  lemma {:induction false} MinedSameElements(s: seq<Candidate>, t: seq<Candidate>, kind: Kind,
      sources: seq<SourceTokens>, minFreq: int)
    requires IsMined(s, kind, sources, minFreq) && IsMined(t, kind, sources, minFreq)
    ensures forall c :: c in s ==> c in t
  {
    var accs := Accumulate(Hits(sources));
    var m :| IsMaxCount(m, accs, minFreq) && forall c :: c in s ==> IsCandidate(c, kind, accs, minFreq, m);
    var n :| IsMaxCount(n, accs, minFreq) && forall c :: c in t ==> IsCandidate(c, kind, accs, minFreq, n);
    MaxCountUnique(m, n, accs, minFreq);
    forall c | c in s
      ensures c in t
    {
      var d :| d in t && d.signature == c.signature;
      CandidateUnique(c, d, kind, accs, minFreq, m);
    }
  }

  lemma {:induction false} ExtractIncludes(out: seq<Candidate>, out': seq<Candidate>, inputs: Inputs, minFreq: int)
    requires IsExtract(out, inputs, minFreq) && IsExtract(out', inputs, minFreq)
    ensures forall c :: c in out ==> c in out'
  {
    var ts, fs, gs :| AreMined(ts, fs, gs, inputs, minFreq) && IsUnion(out, ts, fs, gs);
    var ts', fs', gs' :| AreMined(ts', fs', gs', inputs, minFreq) && IsUnion(out', ts', fs', gs');
    MinedSameElements(ts, ts', ToolSequence, inputs.tools, minFreq);
    MinedSameElements(fs, fs', FileSequence, inputs.files, minFreq);
    MinedSameElements(gs, gs', CommitPattern, inputs.commits, minFreq);
  }

  /** The output is one determined list, whatever order the maps are enumerated in. */
  lemma {:induction false} ExtractIsDetermined(out: seq<Candidate>, out': seq<Candidate>, inputs: Inputs, minFreq: int)
    requires IsExtract(out, inputs, minFreq) && IsExtract(out', inputs, minFreq)
    ensures out == out'
  {
    ExtractIncludes(out, out', inputs, minFreq);
    ExtractIncludes(out', out, inputs, minFreq);
    KeyLessIsStrictOrder();
    Sorting.SortedUnique(out, out', KeyLess);
  }

  /** The candidates of one kind are those mined from its own sources. */
  lemma {:induction false} PartOfKind(out: seq<Candidate>, ts: seq<Candidate>, fs: seq<Candidate>, gs: seq<Candidate>,
      inputs: Inputs, minFreq: int, c: Candidate)
    requires AreMined(ts, fs, gs, inputs, minFreq) && IsUnion(out, ts, fs, gs) && c in out
    ensures var part := if c.kind == ToolSequence then ts else if c.kind == FileSequence then fs else gs;
            forall d :: d in part <==> d in out && d.kind == c.kind
  {
    MinedKeys(ts, ToolSequence, inputs.tools, minFreq);
    MinedKeys(fs, FileSequence, inputs.files, minFreq);
    MinedKeys(gs, CommitPattern, inputs.commits, minFreq);
  }

  /** Every emitted candidate is valid, and for each kind that emits any the best one scores 1. */
  lemma {:induction false} ExtractIsValid(out: seq<Candidate>, inputs: Inputs, minFreq: int, kind: Kind)
    requires IsExtract(out, inputs, minFreq)
    ensures forall c :: c in out ==> Validate(c) == None
    ensures (exists c :: c in out && c.kind == kind) ==>
              exists c :: c in out && c.kind == kind && c.score == 1.0 &&
                          forall d :: d in out && d.kind == kind ==> d.frequency <= c.frequency
  {
    var ts, fs, gs :| AreMined(ts, fs, gs, inputs, minFreq) && IsUnion(out, ts, fs, gs);
    MinedAreValid(ts, ToolSequence, inputs.tools, minFreq);
    MinedAreValid(fs, FileSequence, inputs.files, minFreq);
    MinedAreValid(gs, CommitPattern, inputs.commits, minFreq);
    if c0 :| c0 in out && c0.kind == kind {
      PartOfKind(out, ts, fs, gs, inputs, minFreq, c0);
      var part := if kind == ToolSequence then ts else if kind == FileSequence then fs else gs;
      var c :| c in part && IsTop(c, part);
      assert c in out;
    }
  }
}

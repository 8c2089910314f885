/** recallWithQuery (tools/learn/recall.go) over queryFTSIndex (tools/learn/similar.go): limit per index,
    merge, re-sort, drop what is not recent, load summaries, cut to the budget. */
module Recall {

  import opened Prelude
  import opened Ranking
  import opened Text
  import opened Picking
  import Lex

  datatype Result<T> = Ok(value: T) | UsageError | RuntimeError

  /** A row of an index that matches the query; lower raw scores are better. */
  datatype Row = Row(path: string, bm25: real)

  /** What the database answers, None standing for an error: the rows of an index that match an expression,
      the indexed text of a path, and whether a match was indexed after the cutoff. */
  datatype Db = Db(
    search: (Index, string) -> Option<seq<Row>>,
    body: (Index, string) -> Option<string>,
    recent: Match -> Option<bool>)

  /** Hits of the pattern index carry no path. */
  function PathOf(idx: Index, r: Row): string {
    if idx == PatternIndex then "" else r.path
  }

  function ScoreOf(r: Row): real {
    if -r.bm25 < 0.0 then 0.0 else -r.bm25
  }

  function ToMatch(idx: Index, r: Row): Match {
    Match(idx, PathOf(idx, r), ScoreOf(r))
  }

  /** The rows in order, turned into matches, without those below the minimum score. */
  function Matches(idx: Index, rows: seq<Row>, minScore: real): seq<Match> {
    if rows == [] then []
    else
      Matches(idx, Front(rows), minScore) +
      (if ScoreOf(Last(rows)) < minScore then [] else [ToMatch(idx, Last(rows))])
  }

  predicate IsKnown(idx: Index) {
    !idx.OtherIndex?
  }

  /** The rows of an index; a blank expression matches none and is not searched for. */
  function Rows(db: Db, idx: Index, query: string): Option<seq<Row>> {
    if TrimSpace(query) == "" then Some([]) else db.search(idx, query)
  }

  method QueryFTSIndex(db: Db, idx: Index, query: string, limit: int, minScore: real) returns (r: Result<seq<Match>>)
    ensures r.UsageError? <==> limit < 1 || !IsKnown(idx)
    ensures limit >= 1 && IsKnown(idx) ==>
              if TrimSpace(query) == "" then r == Ok([])
              else
                var rows := db.search(idx, query);
                r == if rows.None? then RuntimeError else Ok(Matches(idx, Take(limit, rows.value), minScore))
  {
    if limit < 1 {
      return UsageError;
    }
    if !IsKnown(idx) {
      return UsageError;
    }
    if TrimSpace(query) == "" {
      return Ok([]);
    }
    var found := db.search(idx, query);
    if found.None? {
      return RuntimeError;
    }
    var rows := Take(limit, found.value);
    var matches: seq<Match> := [];
    for i := 0 to |rows|
      invariant matches == Matches(idx, rows[..i], minScore)
    {
      assert Front(rows[..i + 1]) == rows[..i];
      var score := -rows[i].bm25;
      if score < 0.0 {
        score := 0.0;
      }
      if score < minScore {
        continue;
      }
      matches := matches + [Match(idx, PathOf(idx, rows[i]), score)];
    }
    assert rows[..|rows|] == rows;
    return Ok(matches);
  }

  function ReachScore(rows: seq<Row>, minScore: real): seq<bool> {
    seq(|rows|, i requires 0 <= i < |rows| => (if rows[i].bm25 < 0.0 then -rows[i].bm25 else 0.0) >= minScore)
  }

  /** The matches of the rows at some positions: index, path and negated raw score, a positive raw score
      counting as 0 and a pattern having no path. */
  ghost predicate AreMatchesOf(ms: seq<Match>, idx: Index, rows: seq<Row>, ps: seq<nat>) {
    |ms| == |ps| && forall j :: 0 <= j < |ps| ==>
      && ps[j] < |rows|
      && var row := rows[ps[j]];
         ms[j] == Match(idx, if idx == PatternIndex then "" else row.path, if row.bm25 < 0.0 then -row.bm25 else 0.0)
  }

  lemma {:induction false} OneMoreRow(ms: seq<Match>, idx: Index, rows: seq<Row>, ps: seq<nat>)
    requires rows != [] && AreMatchesOf(ms, idx, Front(rows), ps)
    ensures AreMatchesOf(ms, idx, rows, ps)
    ensures AreMatchesOf(ms + [ToMatch(idx, Last(rows))], idx, rows, ps + [|rows| - 1])
  {
  }

  /** The matches are those of the rows that reach the minimum score, in their order. */
  lemma {:induction false} MatchesByPosition(idx: Index, rows: seq<Row>, minScore: real)
    ensures AreAt(Positions(ReachScore(rows, minScore)), ReachScore(rows, minScore))
    ensures AreMatchesOf(Matches(idx, rows, minScore), idx, rows, Positions(ReachScore(rows, minScore)))
  {
    PositionsAreExact(ReachScore(rows, minScore));
    if rows != [] {
      var f := Front(rows);
      MatchesByPosition(idx, f, minScore);
      assert Front(ReachScore(rows, minScore)) == ReachScore(f, minScore);
      OneMoreRow(Matches(idx, f, minScore), idx, rows, Positions(ReachScore(f, minScore)));
      var (ms, ps) := (Matches(idx, f, minScore), Positions(ReachScore(f, minScore)));
      assert ms + [] == ms && ps + [] == ps;
    }
  }

  // ---- The budget cut ----

  datatype Recalled = Recalled(match_: Match, summary: string)

  const SUMMARY_MAX_CHARS := 120

  function Truncate(s: string, n: nat): string {
    if |s| <= n then s else s[..n]
  }

  function LoadSummary(db: Db, m: Match): Option<string> {
    if m.index == SkillIndex || m.index == MemoryIndex then db.body(m.index, m.path) else Some("")
  }

  function Summary(db: Db, m: Match): string {
    var text := LoadSummary(db, m);
    if text.None? then "" else Truncate(text.value, SUMMARY_MAX_CHARS)
  }

  function Attach(db: Db, ms: seq<Match>): seq<Recalled> {
    seq(|ms|, i requires 0 <= i < |ms| => Recalled(ms[i], Summary(db, ms[i])))
  }

  function Used(out: seq<Recalled>): nat {
    if out == [] then 0 else Used(Front(out)) + |Last(out).summary|
  }

  predicate Fits(out: seq<Recalled>, topK: int, budget: int) {
    |out| <= topK && Used(out) <= budget
  }

  /** `out` is the longest prefix of the ranking that fits both limits. */
  ghost predicate IsLongestFit(out: seq<Recalled>, ranking: seq<Recalled>, topK: int, budget: int) {
    && out <= ranking
    && Fits(out, topK, budget)
    && forall n :: 0 <= n <= |ranking| && Fits(ranking[..n], topK, budget) ==> n <= |out|
  }

  lemma {:induction false} UsedMonotone(s: seq<Recalled>, m: nat, n: nat)
    requires m <= n <= |s|
    ensures Used(s[..m]) <= Used(s[..n])
    decreases n
  {
    if m < n {
      UsedMonotone(s, m, n - 1);
      assert Front(s[..n]) == s[..n - 1];
    }
  }

  method CutToBudget(ranking: seq<Recalled>, topK: int, budget: int) returns (out: seq<Recalled>)
    requires topK >= 0 && budget >= 0
    ensures IsLongestFit(out, ranking, topK, budget)
  {
    out := [];
    var used := 0;
    for i := 0 to |ranking|
      invariant out == ranking[..i] && used == Used(out) && Fits(out, topK, budget)
    {
      var m := ranking[i];
      assert Front(ranking[..i + 1]) == ranking[..i];
      if |out| >= topK || used + |m.summary| > budget {
        forall n | 0 <= n <= |ranking| && Fits(ranking[..n], topK, budget)
          ensures n <= i
        {
          if n > i {
            UsedMonotone(ranking, i + 1, n);
          }
        }
        return;
      }
      out := out + [m];
      used := used + |m.summary|;
    }
    assert ranking[..|ranking|] == ranking;
  }

  /** The longest fit depends only on the first `topK` entries of the ranking. */
  lemma {:induction false} LongestFitLocal(out: seq<Recalled>, r: seq<Recalled>, r': seq<Recalled>, topK: nat,
      budget: int)
    requires IsLongestFit(out, r, topK, budget) && Take(topK, r) == Take(topK, r')
    ensures IsLongestFit(out, r', topK, budget)
  {
    assert out == Take(topK, r)[..|out|];
    assert |out| <= |Take(topK, r')|;
    assert r'[..|out|] == Take(topK, r')[..|out|];
    forall n | 0 <= n <= |r'| && Fits(r'[..n], topK, budget)
      ensures n <= |out|
    {
      assert r'[..n] == Take(topK, r')[..n] == r[..n];
    }
  }

  // ---- Pushing the limit into the indexes ----

  /** The order in which an index delivers its rows. */
  ghost predicate InIndexOrder(idx: Index, rows: seq<Row>) {
    forall i, j :: 0 <= i < j < |rows| ==>
      rows[i].bm25 < rows[j].bm25 ||
      (rows[i].bm25 == rows[j].bm25 && !Lex.Less(PathOf(idx, rows[j]), PathOf(idx, rows[i])))
  }

  ghost predicate NoPositiveScores(rows: seq<Row>) {
    forall i :: 0 <= i < |rows| ==> rows[i].bm25 <= 0.0
  }

  /** Rows in order whose scores are not clamped, or are dropped where they are. */
  ghost predicate Delivers(idx: Index, rows: seq<Row>, minScore: real) {
    InIndexOrder(idx, rows) && (minScore > 0.0 || NoPositiveScores(rows))
  }

  lemma {:induction false} ScoresFall(idx: Index, rows: seq<Row>, i: nat, j: nat)
    requires InIndexOrder(idx, rows) && i < j < |rows|
    ensures ScoreOf(rows[j]) <= ScoreOf(rows[i])
    ensures Before(ToMatch(idx, rows[j]), ToMatch(idx, rows[i])) <==> Overtakes(idx, rows[i], rows[j])
  {
  }

  /** A later row comes first once both scores are clamped to 0 and its path is the smaller one. */
  predicate Overtakes(idx: Index, earlier: Row, later: Row) {
    earlier.bm25 >= 0.0 && Lex.Less(PathOf(idx, later), PathOf(idx, earlier))
  }

  ghost predicate ComesFrom(idx: Index, rows: seq<Row>, minScore: real, m: Match, i: nat) {
    i < |rows| && m == ToMatch(idx, rows[i]) && ScoreOf(rows[i]) >= minScore
  }

  lemma {:induction false} MatchesConcat(idx: Index, a: seq<Row>, b: seq<Row>, minScore: real)
    ensures Matches(idx, a + b, minScore) == Matches(idx, a, minScore) + Matches(idx, b, minScore)
  {
    if b == [] {
      assert a + b == a;
    } else {
      assert Front(a + b) == a + Front(b) && Last(a + b) == Last(b);
      MatchesConcat(idx, a, Front(b), minScore);
    }
  }

  /** A match comes from a row that reaches the minimum score. */
  lemma {:induction false} MatchHasRow(idx: Index, rows: seq<Row>, minScore: real, m: Match) returns (i: nat)
    requires m in Matches(idx, rows, minScore)
    ensures ComesFrom(idx, rows, minScore, m, i)
  {
    if m in Matches(idx, Front(rows), minScore) {
      i := MatchHasRow(idx, Front(rows), minScore, m);
    } else {
      i := |rows| - 1;
    }
  }

  lemma {:induction false} RowHasMatch(idx: Index, rows: seq<Row>, minScore: real, i: nat)
    requires i < |rows| && ScoreOf(rows[i]) >= minScore
    ensures ToMatch(idx, rows[i]) in Matches(idx, rows, minScore)
  {
    if i < |rows| - 1 {
      RowHasMatch(idx, Front(rows), minScore, i);
    }
  }

  lemma {:induction false} AppendLowest(s: seq<Match>, x: Match)
    requires Ranked(s) && forall y :: y in s ==> !Before(x, y)
    ensures Ranked(s + [x])
  {
  }

  lemma {:induction false} MatchesRanked(idx: Index, rows: seq<Row>, minScore: real)
    requires Delivers(idx, rows, minScore)
    ensures Ranked(Matches(idx, rows, minScore))
  {
    if rows != [] {
      var (f, x) := (Front(rows), ToMatch(idx, Last(rows)));
      assert forall i :: 0 <= i < |f| ==> f[i] == rows[i];
      MatchesRanked(idx, f, minScore);
      forall y | y in Matches(idx, f, minScore) && ScoreOf(Last(rows)) >= minScore
        ensures !Before(x, y)
      {
        var i := MatchHasRow(idx, f, minScore, y);
        ScoresFall(idx, rows, i, |rows| - 1);
      }
      if ScoreOf(Last(rows)) >= minScore {
        AppendLowest(Matches(idx, f, minScore), x);
      }
      assert Matches(idx, f, minScore) + [] == Matches(idx, f, minScore);
    }
  }

  lemma {:induction false} LastFiltered(idx: Index, rows: seq<Row>, minScore: real)
    requires rows != []
    ensures var (kept, all) := (Matches(idx, Front(rows), minScore), Matches(idx, rows, minScore));
            if ScoreOf(Last(rows)) < minScore then all == kept
            else all == kept + [ToMatch(idx, Last(rows))] && kept <= all && |all| == |kept| + 1
  {
    assert Matches(idx, Front(rows), minScore) + [] == Matches(idx, Front(rows), minScore);
  }

  /** Dropping low scores before or after the limit makes no difference: the scores fall. */
  lemma {:induction false} LimitCommutesWithFilter(idx: Index, rows: seq<Row>, minScore: real, n: nat)
    requires InIndexOrder(idx, rows)
    ensures Agree(n, Matches(idx, Take(n, rows), minScore), Matches(idx, rows, minScore))
    ensures |Matches(idx, rows, minScore)| <= |rows|
    ensures |Matches(idx, rows, minScore)| < |rows| ==>
              rows != [] && ScoreOf(Last(rows)) < minScore
  {
    if rows != [] {
      var f := Front(rows);
      assert forall i :: 0 <= i < |f| ==> f[i] == rows[i];
      LimitCommutesWithFilter(idx, f, minScore, n);
      if f != [] {
        ScoresFall(idx, rows, |f| - 1, |f|);
      }
      var (kept, all) := (Matches(idx, f, minScore), Matches(idx, rows, minScore));
      LastFiltered(idx, rows, minScore);
      if n < |rows| {
        assert Take(n, rows) == Take(n, f);
        LongerAgrees(n, Matches(idx, Take(n, f), minScore), kept, all);
      } else {
        assert Take(n, rows) == rows;
      }
    }
  }

  /** Once a list is cut at n, elements behind the cut do not matter. */
  lemma {:induction false} LongerAgrees(n: nat, s: seq<Match>, t: seq<Match>, u: seq<Match>)
    requires Agree(n, s, t) && t <= u && (|t| >= n || t == u)
    ensures Agree(n, s, u)
  {
    assert Take(n, u) == Take(n, t);
  }

  // ---- One index: exactly when the limit does not show ----

  /** Some row behind the limit overtakes one within it. */
  ghost predicate LimitShows(idx: Index, rows: seq<Row>, minScore: real, n: nat) {
    minScore <= 0.0 && exists i, j :: 0 <= i < n <= j < |rows| && Overtakes(idx, rows[i], rows[j])
  }

  lemma {:induction false} FewMatchesAreAll(idx: Index, rows: seq<Row>, minScore: real, n: nat)
    requires InIndexOrder(idx, rows) && n <= |rows|
    ensures |Matches(idx, rows[..n], minScore)| == n || Matches(idx, rows[n..], minScore) == []
  {
    var (a, b) := (Matches(idx, rows[..n], minScore), Matches(idx, rows[n..], minScore));
    assert InIndexOrder(idx, rows[..n]);
    LimitCommutesWithFilter(idx, rows[..n], minScore, 0);
    LimitCommutesWithFilter(idx, rows, minScore, n);
    assert rows == rows[..n] + rows[n..] && Take(n, rows) == rows[..n];
    MatchesConcat(idx, rows[..n], rows[n..], minScore);
    assert Take(n, a) == Take(n, a + b);
  }

  lemma {:induction false} KeptIsNotOvertaken(idx: Index, rows: seq<Row>, minScore: real, n: nat, i: nat, j: nat)
    requires InIndexOrder(idx, rows) && i < n <= j < |rows| && !LimitShows(idx, rows, minScore, n)
    requires ScoreOf(rows[i]) >= minScore && ScoreOf(rows[j]) >= minScore
    ensures !Before(ToMatch(idx, rows[j]), ToMatch(idx, rows[i]))
  {
    ScoresFall(idx, rows, i, j);
    if minScore <= 0.0 {
      assert !Overtakes(idx, rows[i], rows[j]);
    }
  }

  lemma {:induction false} ShownByRows(idx: Index, rows: seq<Row>, minScore: real, n: nat, i: nat, j: nat)
    requires InIndexOrder(idx, rows) && i < n <= j < |rows| && minScore <= 0.0 && Overtakes(idx, rows[i], rows[j])
    ensures !NoneBefore(Matches(idx, rows[n..], minScore), Matches(idx, rows[..n], minScore))
  {
    ScoresFall(idx, rows, i, j);
    assert rows[..n][i] == rows[i] && rows[n..][j - n] == rows[j];
    RowHasMatch(idx, rows[..n], minScore, i);
    RowHasMatch(idx, rows[n..], minScore, j - n);
  }

  lemma {:induction false} NotShown(idx: Index, rows: seq<Row>, minScore: real, n: nat, x: Match, y: Match)
    requires InIndexOrder(idx, rows) && n <= |rows| && !LimitShows(idx, rows, minScore, n)
    requires x in Matches(idx, rows[..n], minScore) && y in Matches(idx, rows[n..], minScore)
    ensures !Before(y, x)
  {
    var i := MatchHasRow(idx, rows[..n], minScore, x);
    var j := MatchHasRow(idx, rows[n..], minScore, y);
    assert rows[..n][i] == rows[i] && rows[n..][j] == rows[n + j];
    KeptIsNotOvertaken(idx, rows, minScore, n, i, n + j);
  }

  lemma {:induction false} NoneBeforeIff(idx: Index, rows: seq<Row>, minScore: real, n: nat)
    requires InIndexOrder(idx, rows) && n <= |rows|
    ensures NoneBefore(Matches(idx, rows[n..], minScore), Matches(idx, rows[..n], minScore)) <==>
            !LimitShows(idx, rows, minScore, n)
  {
    if LimitShows(idx, rows, minScore, n) {
      var i, j :| 0 <= i < n <= j < |rows| && Overtakes(idx, rows[i], rows[j]);
      ShownByRows(idx, rows, minScore, n, i, j);
    } else {
      forall x, y | x in Matches(idx, rows[..n], minScore) && y in Matches(idx, rows[n..], minScore)
        ensures !Before(y, x)
      {
        NotShown(idx, rows, minScore, n, x, y);
      }
    }
  }

  /** For one index, ranking the first `n` rows gives the first `n` entries of the ranking of all rows
      exactly if no row behind the limit overtakes one within it.  (Raw scores of an FTS5 search are not
      positive, so that the clamp, and with it the failure, does not arise there.) */
  lemma {:induction false} OneIndexPushdownIff(idx: Index, rows: seq<Row>, minScore: real, n: nat)
    requires InIndexOrder(idx, rows)
    ensures Agree(n, StableSort(Matches(idx, Take(n, rows), minScore)), StableSort(Matches(idx, rows, minScore))) <==>
            !LimitShows(idx, rows, minScore, n)
  {
    if n >= |rows| {
      assert Take(n, rows) == rows;
    } else {
      var (a, b) := (Matches(idx, rows[..n], minScore), Matches(idx, rows[n..], minScore));
      assert rows == rows[..n] + rows[n..] && Take(n, rows) == rows[..n];
      MatchesConcat(idx, rows[..n], rows[n..], minScore);
      FewMatchesAreAll(idx, rows, minScore, n);
      NoneBeforeIff(idx, rows, minScore, n);
      if b == [] {
        assert a + b == a;
      } else {
        SortedPrefixIff(a, b);
      }
    }
  }

  // ---- All indexes ----

  function Fetched(db: Db, indexes: seq<Index>, query: string, limit: nat, minScore: real): seq<seq<Match>>
    requires AllAnswer(db, indexes, query)
  {
    seq(|indexes|, i requires 0 <= i < |indexes| =>
      Matches(indexes[i], Take(limit, Rows(db, indexes[i], query).value), minScore))
  }

  function FetchedAll(db: Db, indexes: seq<Index>, query: string, minScore: real): seq<seq<Match>>
    requires AllAnswer(db, indexes, query)
  {
    seq(|indexes|, i requires 0 <= i < |indexes| => Matches(indexes[i], Rows(db, indexes[i], query).value, minScore))
  }

  predicate AllAnswer(db: Db, indexes: seq<Index>, query: string) {
    forall i :: 0 <= i < |indexes| ==> Rows(db, indexes[i], query).Some?
  }

  ghost predicate AllDeliver(db: Db, indexes: seq<Index>, query: string, minScore: real)
    requires AllAnswer(db, indexes, query)
  {
    forall i :: 0 <= i < |indexes| ==> Delivers(indexes[i], Rows(db, indexes[i], query).value, minScore)
  }

  /** The ranking of what is fetched. */
  function FetchedRanking(db: Db, indexes: seq<Index>, query: string, limit: nat, minScore: real): seq<Match>
    requires AllAnswer(db, indexes, query)
  {
    StableSort(Flatten(Fetched(db, indexes, query, limit, minScore)))
  }

  /** The ranking of everything that matches. */
  function FullRanking(db: Db, indexes: seq<Index>, query: string, minScore: real): seq<Match>
    requires AllAnswer(db, indexes, query)
  {
    StableSort(Flatten(FetchedAll(db, indexes, query, minScore)))
  }

  lemma {:induction false} FetchedRanked(idx: Index, rows: seq<Row>, limit: nat, minScore: real)
    requires Delivers(idx, rows, minScore)
    ensures Ranked(Matches(idx, Take(limit, rows), minScore)) && Ranked(Matches(idx, rows, minScore))
    ensures Agree(limit, Matches(idx, Take(limit, rows), minScore), Matches(idx, rows, minScore))
  {
    assert Delivers(idx, Take(limit, rows), minScore);
    MatchesRanked(idx, rows, minScore);
    MatchesRanked(idx, Take(limit, rows), minScore);
    LimitCommutesWithFilter(idx, rows, minScore, limit);
  }

  /** Limiting each index to `limit` rows keeps the first `limit` entries of the full ranking. */
  lemma {:induction false} LimitPushdown(db: Db, indexes: seq<Index>, query: string, limit: nat, minScore: real)
    requires AllAnswer(db, indexes, query) && AllDeliver(db, indexes, query, minScore)
    ensures Agree(limit, FetchedRanking(db, indexes, query, limit, minScore), FullRanking(db, indexes, query, minScore))
  {
    var (p, q) := (Fetched(db, indexes, query, limit, minScore), FetchedAll(db, indexes, query, minScore));
    forall i | 0 <= i < |indexes|
      ensures Ranked(p[i]) && Ranked(q[i]) && Agree(limit, p[i], q[i])
    {
      FetchedRanked(indexes[i], Rows(db, indexes[i], query).value, limit, minScore);
    }
    SortFlattenIsMergeAll(p);
    SortFlattenIsMergeAll(q);
    MergeAllAgree(limit, p, q);
  }

  lemma {:induction false} AttachTake(db: Db, s: seq<Match>, t: seq<Match>, limit: nat, topK: nat)
    requires topK <= limit && Agree(limit, s, t)
    ensures Take(topK, Attach(db, s)) == Take(topK, Attach(db, t))
  {
    AgreeLess(limit, topK, s, t);
    assert Take(topK, Attach(db, s)) == Attach(db, Take(topK, s));
    assert Take(topK, Attach(db, t)) == Attach(db, Take(topK, t));
  }

  // ---- The operation ----

  /** The kind that the matches of an index are reported under. */
  function KindForIndex(idx: Index): string {
    match idx
    case SkillIndex => "skill"
    case MemoryIndex => "memory"
    case PatternIndex => "pattern"
    case OtherIndex(name) => name
  }

  /** What a kind filter has searched: all three indexes, in this order, or the one of that kind. */
  ghost predicate Selects(kind: string, indexes: seq<Index>) {
    if kind == "" then indexes == [SkillIndex, MemoryIndex, PatternIndex]
    else |indexes| == 1 && IsKnown(indexes[0]) && KindForIndex(indexes[0]) == kind
  }

  /** The indexes a kind filter selects; None when the kind is unknown. */
  function IndexesForKind(kind: string): Option<seq<Index>> {
    if kind == "" then Some([SkillIndex, MemoryIndex, PatternIndex])
    else if kind == "skill" then Some([SkillIndex])
    else if kind == "memory" then Some([MemoryIndex])
    else if kind == "pattern" then Some([PatternIndex])
    else None
  }

  /** An index is selected exactly if the filter is empty or names its kind. */
  lemma {:induction false} SelectedIff(kind: string, idx: Index)
    requires IsKnown(idx)
    ensures IndexesForKind(kind).None? <==> kind !in {"", "skill", "memory", "pattern"}
    ensures IndexesForKind(kind).Some? ==>
              && Selects(kind, IndexesForKind(kind).value)
              && (idx in IndexesForKind(kind).value <==> kind == "" || KindForIndex(idx) == kind)
  {
    KindNames();
  }

  lemma {:induction false} KindNames()
    ensures "skill"[0] == 's' && "memory"[0] == 'm' && "pattern"[0] == 'p'
  {
  }

  lemma {:induction false} SelectionIsUnique(kind: string, indexes: seq<Index>)
    requires Selects(kind, indexes)
    ensures IndexesForKind(kind) == Some(indexes)
  {
    KindNames();
    if kind != "" {
      assert indexes == [indexes[0]];
    }
  }

  /** `recentOnly` stands for a positive SinceMtime. */
  datatype Options =
    Options(matchExpr: string, topK: int, maxTokens: int, minScore: real, kind: string, recentOnly: bool)

  function PerIndexLimit(topK: int): nat {
    if topK < 5 then 5 else topK
  }

  /** A result that is reported: of the kind asked for, with the first 120 characters of what is indexed for it
      in its own index, and with nothing for a pattern. */
  ghost predicate IsReported(db: Db, kind: string, x: Recalled) {
    var (idx, path) := (x.match_.index, x.match_.path);
    && (kind == "skill" ==> idx == SkillIndex) && (kind == "memory" ==> idx == MemoryIndex)
    && (kind == "pattern" ==> idx == PatternIndex)
    && (idx == PatternIndex ==> x.summary == "")
    && (idx == SkillIndex || idx == MemoryIndex ==>
          && db.body(idx, path).Some?
          && var text := db.body(idx, path).value;
             x.summary == if |text| <= 120 then text else text[..120])
  }

  /** The matches that are recent enough; None when that cannot be told of one. */
  function Recent(db: Db, ms: seq<Match>): Option<seq<Match>> {
    if ms == [] then Some([])
    else
      var (before, keep) := (Recent(db, Front(ms)), db.recent(Last(ms)));
      if before.None? || keep.None? then None
      else Some(before.value + if keep.value then [Last(ms)] else [])
  }

  predicate SummariesLoad(db: Db, ms: seq<Match>) {
    forall i :: 0 <= i < |ms| ==> LoadSummary(db, ms[i]).Some?
  }

  /** What becomes of a ranking: the error of the first stage that fails, or the longest fit. */
  ghost predicate Finishes(db: Db, o: Options, ranking: seq<Match>, r: Result<seq<Recalled>>) {
    var kept := if o.recentOnly then Recent(db, ranking) else Some(ranking);
    if kept.None? || !SummariesLoad(db, kept.value) then r == RuntimeError
    else r.Ok? && IsLongestFit(r.value, Attach(db, kept.value), o.topK, o.maxTokens)
  }

  predicate IsUsageError(o: Options) {
    o.topK < 1 || o.maxTokens < 1 || (o.matchExpr != "" && o.kind !in {"", "skill", "memory", "pattern"})
  }

  /** The recent matches are those the age check keeps, in their order; it fails if the check of one does. */
  lemma {:induction false} RecentByPosition(db: Db, ms: seq<Match>) returns (ps: seq<nat>)
    ensures Recent(db, ms).None? <==> exists m :: m in ms && db.recent(m).None?
    ensures Recent(db, ms).Some? ==>
              && Ascending(ps) && |ps| == |Recent(db, ms).value|
              && (forall i: nat :: i in ps <==> i < |ms| && db.recent(ms[i]) == Some(true))
              && forall j :: 0 <= j < |ps| ==> ps[j] < |ms| && Recent(db, ms).value[j] == ms[ps[j]]
  {
    ps := [];
    if ms != [] {
      ps := RecentByPosition(db, Front(ms));
      assert ms == Front(ms) + [Last(ms)];
      assert forall i: nat :: i < |ms| - 1 ==> Front(ms)[i] == ms[i];
      if Recent(db, ms).Some? && db.recent(Last(ms)).value {
        AppendPosition(ps, |ms| - 1);
        ps := ps + [|ms| - 1];
      }
    }
  }

  /** The length of a list of summaries is the sum of their lengths. */
  lemma {:induction false} UsedIsSum(a: seq<Recalled>, b: seq<Recalled>, x: Recalled)
    ensures Used([]) == 0 && Used([x]) == |x.summary| && Used(a + b) == Used(a) + Used(b)
  {
    assert Front([x]) == [];
    if b == [] {
      assert a + b == a;
    } else {
      assert Front(a + b) == a + Front(b);
      UsedIsSum(a, Front(b), x);
    }
  }

  /** What is reported comes from the ranking. */
  lemma {:induction false} ReportedFrom(db: Db, o: Options, ranking: seq<Match>, r: Result<seq<Recalled>>, x: Recalled)
    requires Finishes(db, o, ranking, r) && r.Ok? && x in r.value
    ensures x.match_ in ranking && LoadSummary(db, x.match_).Some? && x.summary == Summary(db, x.match_)
  {
    var kept := if o.recentOnly then Recent(db, ranking).value else ranking;
    var i :| 0 <= i < |r.value| && r.value[i] == x;
    assert x == Attach(db, kept)[i] == Recalled(kept[i], Summary(db, kept[i]));
    if o.recentOnly {
      var ps := RecentByPosition(db, ranking);
      assert kept[i] == ranking[ps[i]];
    }
  }

  lemma {:induction false} FlattenHas(lists: seq<seq<Match>>, m: Match) returns (i: nat)
    requires m in Flatten(lists)
    ensures i < |lists| && m in lists[i]
  {
    if m in lists[0] {
      i := 0;
    } else {
      i := FlattenHas(lists[1..], m);
      i := i + 1;
    }
  }

  lemma {:induction false} OwnIndex(idx: Index, rows: seq<Row>, minScore: real, m: Match)
    requires m in Matches(idx, rows, minScore)
    ensures m.index == idx
  {
    var i := MatchHasRow(idx, rows, minScore, m);
  }

  lemma {:induction false} RankedFromIndexes(db: Db, indexes: seq<Index>, query: string, limit: nat, minScore: real,
      m: Match)
    requires AllAnswer(db, indexes, query) && m in FetchedRanking(db, indexes, query, limit, minScore)
    ensures m.index in indexes
  {
    var lists := Fetched(db, indexes, query, limit, minScore);
    SortIsStable(Flatten(lists));
    var i := FlattenHas(lists, m);
    OwnIndex(indexes[i], Take(limit, Rows(db, indexes[i], query).value), minScore, m);
  }

  lemma {:induction false} AllReported(db: Db, o: Options, indexes: seq<Index>, r: Result<seq<Recalled>>)
    requires Selects(o.kind, indexes) && AllAnswer(db, indexes, o.matchExpr) && r.Ok?
    requires Finishes(db, o, FetchedRanking(db, indexes, o.matchExpr, PerIndexLimit(o.topK), o.minScore), r)
    ensures forall x :: x in r.value ==> IsReported(db, o.kind, x)
  {
    var ranking := FetchedRanking(db, indexes, o.matchExpr, PerIndexLimit(o.topK), o.minScore);
    forall x | x in r.value
      ensures IsReported(db, o.kind, x)
    {
      ReportedFrom(db, o, ranking, r, x);
      RankedFromIndexes(db, indexes, o.matchExpr, PerIndexLimit(o.topK), o.minScore, x.match_);
    }
  }

  method KeepRecent(db: Db, all: seq<Match>) returns (r: Option<seq<Match>>)
    ensures r == Recent(db, all)
  {
    var filtered: seq<Match> := [];
    for i := 0 to |all|
      invariant Recent(db, all[..i]) == Some(filtered)
    {
      assert Front(all[..i + 1]) == all[..i];
      var keep := db.recent(all[i]);
      if keep.None? {
        RecentFails(db, all, i + 1);
        return None;
      }
      filtered := filtered + if keep.value then [all[i]] else [];
    }
    assert all[..|all|] == all;
    return Some(filtered);
  }

  lemma {:induction false} RecentFails(db: Db, all: seq<Match>, i: nat)
    requires i <= |all| && Recent(db, all[..i]).None?
    ensures Recent(db, all).None?
    decreases |all|
  {
    if i < |all| {
      assert Front(all)[..i] == all[..i];
      RecentFails(db, Front(all), i);
    } else {
      assert all[..i] == all;
    }
  }

  method LoadSummaries(db: Db, all: seq<Match>) returns (r: Option<seq<Recalled>>)
    ensures r == if SummariesLoad(db, all) then Some(Attach(db, all)) else None
  {
    var out: seq<Recalled> := [];
    for i := 0 to |all|
      invariant SummariesLoad(db, all[..i]) && out == Attach(db, all[..i])
    {
      var summary := LoadSummary(db, all[i]);
      if summary.None? {
        return None;
      }
      out := out + [Recalled(all[i], Truncate(summary.value, SUMMARY_MAX_CHARS))];
    }
    assert all[..|all|] == all;
    return Some(out);
  }

  /** The stages after the merge. */
  method Finish(db: Db, o: Options, ranking: seq<Match>) returns (r: Result<seq<Recalled>>)
    requires o.topK >= 1 && o.maxTokens >= 1
    ensures Finishes(db, o, ranking, r)
  {
    var all := ranking;
    if o.recentOnly {
      var filtered := KeepRecent(db, all);
      if filtered.None? {
        return RuntimeError;
      }
      all := filtered.value;
    }
    var loaded := LoadSummaries(db, all);
    if loaded.None? {
      return RuntimeError;
    }
    var cut := CutToBudget(loaded.value, o.topK, o.maxTokens);
    return Ok(cut);
  }

  /** Without the recency filter a result is the longest fit of the ranking of everything that matches. */
  lemma {:induction false} RecallsEverything(db: Db, o: Options, indexes: seq<Index>, r: Result<seq<Recalled>>)
    requires o.topK >= 1 && !o.recentOnly && r.Ok?
    requires AllAnswer(db, indexes, o.matchExpr) && AllDeliver(db, indexes, o.matchExpr, o.minScore)
    requires Finishes(db, o, FetchedRanking(db, indexes, o.matchExpr, PerIndexLimit(o.topK), o.minScore), r)
    ensures IsLongestFit(r.value, Attach(db, FullRanking(db, indexes, o.matchExpr, o.minScore)), o.topK, o.maxTokens)
  {
    var limit := PerIndexLimit(o.topK);
    var ranking := FetchedRanking(db, indexes, o.matchExpr, limit, o.minScore);
    var full := FullRanking(db, indexes, o.matchExpr, o.minScore);
    LimitPushdown(db, indexes, o.matchExpr, limit, o.minScore);
    AttachTake(db, ranking, full, limit, o.topK);
    LongestFitLocal(r.value, Attach(db, ranking), Attach(db, full), o.topK, o.maxTokens);
  }

  /** The usage errors come first; then every index that the kind selects must answer, and the ranking of what
      was fetched, at most max(topK, 5) rows each, is filtered, summarised and cut.  When the indexes deliver in
      order and nothing is filtered by time, the result is the longest prefix, within both limits, of the ranking
      of everything that matches. */
  method RecallWithQuery(db: Db, o: Options) returns (r: Result<seq<Recalled>>)
    ensures r.UsageError? <==>
            o.topK < 1 || o.maxTokens < 1 || (o.matchExpr != "" && o.kind !in {"", "skill", "memory", "pattern"})
    ensures !r.UsageError? && o.matchExpr == "" ==> r == Ok([])
    ensures !r.UsageError? && o.matchExpr != "" ==>
              forall indexes :: Selects(o.kind, indexes) ==>
                var limit := if o.topK < 5 then 5 else o.topK;
                if !AllAnswer(db, indexes, o.matchExpr) then r == RuntimeError
                else
                  && Finishes(db, o, FetchedRanking(db, indexes, o.matchExpr, limit, o.minScore), r)
                  && (!o.recentOnly && r.Ok? && AllDeliver(db, indexes, o.matchExpr, o.minScore) ==>
                        var full := FullRanking(db, indexes, o.matchExpr, o.minScore);
                        IsLongestFit(r.value, Attach(db, full), o.topK, o.maxTokens))
    ensures r.Ok? ==> forall x :: x in r.value ==> IsReported(db, o.kind, x)
  {
    if o.topK < 1 {
      return UsageError;
    }
    if o.maxTokens < 1 {
      return UsageError;
    }
    if o.matchExpr == "" {
      return Ok([]);
    }
    var indexes := IndexesForKind(o.kind);
    SelectedIff(o.kind, SkillIndex);
    if indexes.None? {
      return UsageError;
    }
    var perIndexLimit := o.topK;
    if perIndexLimit < 5 {
      perIndexLimit := 5;
    }
    forall other | Selects(o.kind, other)
      ensures other == indexes.value
    {
      SelectionIsUnique(o.kind, other);
    }
    var all := FetchAll(db, indexes.value, o.matchExpr, perIndexLimit, o.minScore);
    if all.None? {
      return RuntimeError;
    }
    r := Finish(db, o, StableSort(all.value));
    if r.Ok? {
      AllReported(db, o, indexes.value, r);
      if !o.recentOnly && AllDeliver(db, indexes.value, o.matchExpr, o.minScore) {
        RecallsEverything(db, o, indexes.value, r);
      }
    }
  }

  lemma {:induction false} FlattenAppend(lists: seq<seq<Match>>, s: seq<Match>)
    ensures Flatten(lists + [s]) == Flatten(lists) + s
  {
    if lists == [] {
      assert (lists + [s])[1..] == [];
    } else {
      assert (lists + [s])[1..] == lists[1..] + [s];
      FlattenAppend(lists[1..], s);
    }
  }

  lemma {:induction false} FetchedNext(db: Db, indexes: seq<Index>, query: string, limit: nat, minScore: real, i: nat)
    requires i < |indexes| && AllAnswer(db, indexes[..i + 1], query)
    ensures AllAnswer(db, indexes[..i], query) && Rows(db, indexes[i], query).Some?
    ensures Flatten(Fetched(db, indexes[..i + 1], query, limit, minScore)) ==
            Flatten(Fetched(db, indexes[..i], query, limit, minScore)) +
            Matches(indexes[i], Take(limit, Rows(db, indexes[i], query).value), minScore)
  {
    assert indexes[..i + 1][i] == indexes[i];
    assert forall k :: 0 <= k < i ==> indexes[..i + 1][k] == indexes[..i][k];
    var lists := Fetched(db, indexes[..i], query, limit, minScore);
    var next := Matches(indexes[i], Take(limit, Rows(db, indexes[i], query).value), minScore);
    assert Fetched(db, indexes[..i + 1], query, limit, minScore) == lists + [next];
    FlattenAppend(lists, next);
  }

  method FetchAll(db: Db, indexes: seq<Index>, query: string, limit: nat, minScore: real)
    returns (all: Option<seq<Match>>)
    requires limit >= 1 && forall i :: 0 <= i < |indexes| ==> IsKnown(indexes[i])
    ensures all.Some? <==> AllAnswer(db, indexes, query)
    ensures all.Some? ==> all.value == Flatten(Fetched(db, indexes, query, limit, minScore))
  {
    var found: seq<Match> := [];
    for i := 0 to |indexes|
      invariant AllAnswer(db, indexes[..i], query)
      invariant found == Flatten(Fetched(db, indexes[..i], query, limit, minScore))
    {
      var raw := QueryFTSIndex(db, indexes[i], query, limit, minScore);
      if !raw.Ok? {
        assert Rows(db, indexes[i], query).None?;
        return None;
      }
      FetchedNext(db, indexes, query, limit, minScore, i);
      found := found + raw.value;
    }
    assert indexes[..|indexes|] == indexes;
    return Some(found);
  }
}

/** The limit per index in recallWithQuery (tools/learn/recall.go), for several indexes: exactly when the
    ranking of what was fetched begins like the ranking of everything that matches. */
module MergedLimit {

  import opened Ranking
  import opened Recall
  import Lex

  // ---- The order of the merged ranking, ties included ----

  /** The position of an index in the order in which the indexes are queried. */
  function Place(indexes: seq<Index>, x: Index): nat {
    if indexes == [] || indexes[0] == x then 0 else Place(indexes[1..], x) + 1
  }

  ghost predicate Distinct(indexes: seq<Index>) {
    forall i, j :: 0 <= i < j < |indexes| ==> indexes[i] != indexes[j]
  }

  lemma {:induction false} PlaceOf(indexes: seq<Index>, i: nat)
    requires Distinct(indexes) && i < |indexes|
    ensures Place(indexes, indexes[i]) == i
  {
    if i > 0 {
      PlaceOf(indexes[1..], i - 1);
    }
  }

  /** Better score, then smaller path, then the index queried first. */
  predicate Ahead(indexes: seq<Index>, a: Match, b: Match) {
    Before(a, b) || (Tied(a, b) && Place(indexes, a.index) < Place(indexes, b.index))
  }

  ghost predicate Known(indexes: seq<Index>, s: seq<Match>) {
    forall m :: m in s ==> m.index in indexes
  }

  lemma {:induction false} SamePlace(indexes: seq<Index>, x: Index, y: Index)
    requires x in indexes && y in indexes && Place(indexes, x) == Place(indexes, y)
    ensures x == y
  {
    assert indexes == [indexes[0]] + indexes[1..];
    if indexes[0] != x && indexes[0] != y {
      SamePlace(indexes[1..], x, y);
    }
  }

  lemma {:induction false} AheadTotal(indexes: seq<Index>, a: Match, b: Match)
    requires a.index in indexes && b.index in indexes
    ensures a == b || Ahead(indexes, a, b) || Ahead(indexes, b, a)
  {
    if Tied(a, b) {
      TiedMeansEqualKeys(a, b);
      if Place(indexes, a.index) == Place(indexes, b.index) {
        SamePlace(indexes, a.index, b.index);
      }
    }
  }

  /** No element is ahead of an earlier one. */
  ghost predicate Settled(indexes: seq<Index>, s: seq<Match>) {
    forall i, j :: 0 <= i < j < |s| ==> !Ahead(indexes, s[j], s[i])
  }

  lemma {:induction false} NotAheadOfHead(indexes: seq<Index>, s: seq<Match>, x: Match)
    requires s != [] && Settled(indexes, s) && x in s
    ensures !Ahead(indexes, x, s[0])
  {
    BeforeAsymmetric(x, x);
    var i :| 0 <= i < |s| && s[i] == x;
  }

  lemma {:induction false} SettledHeads(indexes: seq<Index>, s: seq<Match>, t: seq<Match>)
    requires Settled(indexes, s) && Settled(indexes, t) && Known(indexes, s) && Known(indexes, t)
    requires s != [] && t != [] && s[0] in t && t[0] in s
    ensures s[0] == t[0]
  {
    AheadTotal(indexes, s[0], t[0]);
    NotAheadOfHead(indexes, s, t[0]);
    NotAheadOfHead(indexes, t, s[0]);
  }

  lemma {:induction false} TailOf(s: seq<Match>)
    requires s != []
    ensures multiset(s[1..]) == multiset(s) - multiset{s[0]} && s[0] in multiset(s)
    ensures forall x :: x in multiset(s) <==> x in s
  {
    assert s == [s[0]] + s[1..];
  }

  lemma {:induction false} SettledTail(indexes: seq<Index>, s: seq<Match>)
    requires s != [] && Settled(indexes, s) && Known(indexes, s)
    ensures Settled(indexes, s[1..]) && Known(indexes, s[1..])
  {
  }

  lemma {:induction false} SameHeads(indexes: seq<Index>, s: seq<Match>, t: seq<Match>)
    requires Settled(indexes, s) && Settled(indexes, t) && Known(indexes, s) && Known(indexes, t)
    requires multiset(s) == multiset(t) && s != [] && t != []
    ensures s[0] == t[0] && multiset(s[1..]) == multiset(t[1..])
  {
    TailOf(s);
    TailOf(t);
    SettledHeads(indexes, s, t);
  }

  lemma {:induction false} BothEmpty(s: seq<Match>, t: seq<Match>)
    requires multiset(s) == multiset(t)
    ensures s == [] <==> t == []
  {
    assert |multiset(s)| == |multiset(t)|;
  }

  /** There is at most one settled list of given elements. */
  lemma {:induction false} SettledUnique(indexes: seq<Index>, s: seq<Match>, t: seq<Match>)
    requires Settled(indexes, s) && Settled(indexes, t) && Known(indexes, s) && Known(indexes, t)
    requires multiset(s) == multiset(t)
    ensures s == t
    decreases |s|
  {
    BothEmpty(s, t);
    if s != [] {
      SameHeads(indexes, s, t);
      SettledTail(indexes, s);
      SettledTail(indexes, t);
      SettledUnique(indexes, s[1..], t[1..]);
      assert s == [s[0]] + s[1..] && t == [t[0]] + t[1..];
    }
  }

  // ---- Sorting what the indexes deliver settles it ----

  ghost predicate PlacesRise(indexes: seq<Index>, s: seq<Match>) {
    forall i, j :: 0 <= i < j < |s| ==> Place(indexes, s[i].index) <= Place(indexes, s[j].index)
  }

  lemma {:induction false} SettledCons(indexes: seq<Index>, x: Match, s: seq<Match>)
    requires Settled(indexes, s) && forall y :: y in s ==> !Ahead(indexes, y, x)
    ensures Settled(indexes, [x] + s)
  {
  }

  lemma {:induction false} InsertSettled(indexes: seq<Index>, x: Match, s: seq<Match>)
    requires Ranked(s) && Settled(indexes, s)
    requires forall y :: y in s ==> Place(indexes, x.index) <= Place(indexes, y.index)
    ensures Settled(indexes, Insert(x, s))
  {
    if s != [] {
      RankedTail(s);
      assert s == [s[0]] + s[1..];
    }
    if s != [] && Before(s[0], x) {
      InsertSettled(indexes, x, s[1..]);
      InsertRanked(x, s[1..]);
      BeforeAsymmetric(s[0], x);
      forall y | y in Insert(x, s[1..])
        ensures !Ahead(indexes, y, s[0])
      {
        if y != x {
          NotAheadOfHead(indexes, s, y);
        }
      }
      SettledCons(indexes, s[0], Insert(x, s[1..]));
    } else {
      forall y | y in s
        ensures !Ahead(indexes, y, x)
      {
        HeadNotBeaten(s, y);
        BeforeTransitive(x, s[0], y);
      }
      SettledCons(indexes, x, s);
    }
  }

  lemma {:induction false} SortSettles(indexes: seq<Index>, s: seq<Match>)
    requires PlacesRise(indexes, s)
    ensures Settled(indexes, StableSort(s))
  {
    if s != [] {
      SortSettles(indexes, s[1..]);
      SortIsStable(s[1..]);
      assert forall y :: y in s[1..] ==> Place(indexes, s[0].index) <= Place(indexes, y.index);
      InsertSettled(indexes, s[0], StableSort(s[1..]));
    }
  }

  /** The lists are those of the indexes from the k-th one on. */
  ghost predicate FromIndexes(indexes: seq<Index>, k: nat, lists: seq<seq<Match>>) {
    && k + |lists| == |indexes|
    && forall i, m :: 0 <= i < |lists| && m in lists[i] ==> m.index == indexes[k + i]
  }

  lemma {:induction false} FlattenPlaces(indexes: seq<Index>, k: nat, lists: seq<seq<Match>>)
    requires Distinct(indexes) && FromIndexes(indexes, k, lists)
    ensures PlacesRise(indexes, Flatten(lists)) && Known(indexes, Flatten(lists))
    ensures forall m :: m in Flatten(lists) ==> Place(indexes, m.index) >= k
    decreases |lists|
  {
    if lists != [] {
      assert forall i :: 0 <= i < |lists| - 1 ==> lists[1..][i] == lists[i + 1];
      FlattenPlaces(indexes, k + 1, lists[1..]);
      PlaceOf(indexes, k);
      RiseConcat(indexes, k, lists[0], Flatten(lists[1..]));
    }
  }

  lemma {:induction false} RiseConcat(indexes: seq<Index>, k: nat, s: seq<Match>, t: seq<Match>)
    requires k < |indexes| && Place(indexes, indexes[k]) == k && forall m :: m in s ==> m.index == indexes[k]
    requires PlacesRise(indexes, t) && forall m :: m in t ==> Place(indexes, m.index) >= k + 1
    ensures PlacesRise(indexes, s + t)
  {
    forall i, j | 0 <= i < j < |s + t|
      ensures Place(indexes, (s + t)[i].index) <= Place(indexes, (s + t)[j].index)
    {
      if i < |s| {
        assert s[i] in s && (j < |s| ==> s[j] in s) && (j >= |s| ==> t[j - |s|] in t);
      }
    }
  }

  // ---- Adding elements to a settled list ----

  ghost predicate NoneAhead(indexes: seq<Index>, d: seq<Match>, m: Match) {
    forall y :: y in d ==> !Ahead(indexes, y, m)
  }

  lemma {:induction false} AheadTransitive(indexes: seq<Index>, a: Match, b: Match, c: Match)
    requires !Ahead(indexes, b, a) && !Ahead(indexes, c, b)
    ensures !Ahead(indexes, c, a)
  {
    BeforeTransitive(a, b, c);
    if Tied(a, c) && Tied(a, b) {
      TiedMeansEqualKeys(a, b);
      TiedMeansEqualKeys(a, c);
      TiedMeansEqualKeys(b, c);
    }
  }

  /** An element that is not ahead of a later entry does not take the first place. */
  lemma {:induction false} FirstStays(indexes: seq<Index>, t: seq<Match>, d: seq<Match>, n: nat, f: seq<Match>)
    requires 0 < n <= |t| && Settled(indexes, t) && Settled(indexes, f) && Known(indexes, f)
    requires multiset(f) == multiset(t) + multiset(d) && NoneAhead(indexes, d, t[n - 1])
    ensures f != [] && f[0] == t[0]
  {
    assert t[0] in multiset(f);
    NotAheadOfHead(indexes, f, t[0]);
    var x := f[0];
    assert x in multiset(f);
    if x in t {
      NotAheadOfHead(indexes, t, x);
    } else {
      assert x in multiset(d);
      if n > 1 {
        AheadTransitive(indexes, t[0], t[n - 1], x);
      }
    }
    AheadTotal(indexes, x, t[0]);
  }

  lemma {:induction false} WithoutFirst(indexes: seq<Index>, t: seq<Match>, d: seq<Match>, f: seq<Match>)
    requires t != [] && f != [] && f[0] == t[0]
    requires Settled(indexes, t) && Settled(indexes, f) && Known(indexes, f)
    requires multiset(f) == multiset(t) + multiset(d)
    ensures Settled(indexes, t[1..]) && Settled(indexes, f[1..]) && Known(indexes, f[1..])
    ensures multiset(f[1..]) == multiset(t[1..]) + multiset(d)
  {
    TailOf(t);
    TailOf(f);
    SettledTail(indexes, f);
  }

  lemma {:induction false} PrefixOf(s: seq<Match>, n: nat)
    requires 0 < n <= |s|
    ensures s[..n] == [s[0]] + s[1..][..n - 1]
  {
  }

  lemma {:induction false} PrefixStays(indexes: seq<Index>, t: seq<Match>, d: seq<Match>, n: nat, f: seq<Match>)
    requires 0 < n <= |t| && Settled(indexes, t) && Settled(indexes, f) && Known(indexes, f)
    requires multiset(f) == multiset(t) + multiset(d) && NoneAhead(indexes, d, t[n - 1])
    ensures n <= |f| && f[..n] == t[..n]
    decreases n
  {
    FirstStays(indexes, t, d, n, f);
    if n > 1 {
      WithoutFirst(indexes, t, d, f);
      PrefixStays(indexes, t[1..], d, n - 1, f[1..]);
      PrefixOf(t, n);
      PrefixOf(f, n);
    }
  }

  lemma {:induction false} PrefixMoves(indexes: seq<Index>, t: seq<Match>, d: seq<Match>, n: nat, f: seq<Match>)
    requires 0 < n <= |t| && Settled(indexes, f) && multiset(f) == multiset(t) + multiset(d)
    requires n <= |f| && f[..n] == t[..n]
    ensures NoneAhead(indexes, d, t[n - 1])
  {
    assert t == t[..n] + t[n..] && f == f[..n] + f[n..];
    Remainder(f[..n], f[n..], multiset(t[..n]), multiset(t[n..]) + multiset(d));
    forall y | y in d
      ensures !Ahead(indexes, y, t[n - 1])
    {
      assert y in multiset(f[n..]);
      assert y in f[n..];
      var i :| 0 <= i < |f| - n && f[n..][i] == y;
      assert f[n + i] == y && f[n - 1] == f[..n][n - 1] == t[n - 1];
    }
  }

  /** Adding elements leaves the first `n` alone exactly if none of them is ahead of the last of these. */
  lemma {:induction false} AgreeIff(indexes: seq<Index>, t: seq<Match>, d: seq<Match>, n: nat, f: seq<Match>)
    requires Settled(indexes, t) && Settled(indexes, f) && Known(indexes, t) && Known(indexes, f)
    requires multiset(f) == multiset(t) + multiset(d) && (d != [] ==> n <= |t|)
    ensures Agree(n, t, f) <==> !(0 < n <= |t| && !NoneAhead(indexes, d, t[n - 1]))
  {
    if 0 < n <= |t| {
      LargerIsLonger(t, d, f);
      if NoneAhead(indexes, d, t[n - 1]) {
        PrefixStays(indexes, t, d, n, f);
      } else if f[..n] == t[..n] {
        PrefixMoves(indexes, t, d, n, f);
      }
    } else if n > 0 {
      assert d == [];
      SettledUnique(indexes, t, f);
    }
  }

  lemma {:induction false} LargerIsLonger(t: seq<Match>, d: seq<Match>, f: seq<Match>)
    requires multiset(f) == multiset(t) + multiset(d)
    ensures |f| == |t| + |d|
  {
    assert |multiset(f)| == |multiset(t)| + |multiset(d)|;
  }

  // ---- What the limit leaves behind ----

  function Rest<T>(n: nat, s: seq<T>): seq<T> {
    if n <= |s| then s[n..] else []
  }

  /** The matches of each index behind its limit. */
  function Dropped(db: Db, indexes: seq<Index>, query: string, limit: nat, minScore: real): seq<seq<Match>>
    requires AllAnswer(db, indexes, query)
  {
    seq(|indexes|, i requires 0 <= i < |indexes| =>
      Matches(indexes[i], Rest(limit, Rows(db, indexes[i], query).value), minScore))
  }

  ghost predicate AllInOrder(db: Db, indexes: seq<Index>, query: string)
    requires AllAnswer(db, indexes, query)
  {
    forall i :: 0 <= i < |indexes| ==> InIndexOrder(indexes[i], Rows(db, indexes[i], query).value)
  }

  /** `all` consists, list by list, of what is fetched and what is dropped. */
  ghost predicate SplitUp(all: seq<seq<Match>>, fetched: seq<seq<Match>>, dropped: seq<seq<Match>>) {
    |all| == |fetched| == |dropped| && forall i :: 0 <= i < |all| ==> all[i] == fetched[i] + dropped[i]
  }

  lemma {:induction false} SplitFlatten(all: seq<seq<Match>>, fetched: seq<seq<Match>>, dropped: seq<seq<Match>>)
    requires SplitUp(all, fetched, dropped)
    ensures multiset(Flatten(all)) == multiset(Flatten(fetched)) + multiset(Flatten(dropped))
  {
    if all != [] {
      SplitFlatten(all[1..], fetched[1..], dropped[1..]);
      assert all[0] == fetched[0] + dropped[0];
    }
  }

  lemma {:induction false} RowsSplit(idx: Index, rows: seq<Row>, minScore: real, limit: nat)
    ensures Matches(idx, rows, minScore) ==
            Matches(idx, Take(limit, rows), minScore) + Matches(idx, Rest(limit, rows), minScore)
  {
    assert rows == Take(limit, rows) + Rest(limit, rows);
    MatchesConcat(idx, Take(limit, rows), Rest(limit, rows), minScore);
  }

  lemma {:induction false} AllSplitsUp(db: Db, indexes: seq<Index>, query: string, limit: nat, minScore: real)
    requires AllAnswer(db, indexes, query)
    ensures SplitUp(FetchedAll(db, indexes, query, minScore), Fetched(db, indexes, query, limit, minScore),
                    Dropped(db, indexes, query, limit, minScore))
  {
    forall i | 0 <= i < |indexes|
      ensures var rows := Rows(db, indexes[i], query).value;
              Matches(indexes[i], rows, minScore) ==
              Matches(indexes[i], Take(limit, rows), minScore) + Matches(indexes[i], Rest(limit, rows), minScore)
    {
      RowsSplit(indexes[i], Rows(db, indexes[i], query).value, minScore, limit);
    }
  }

  lemma {:induction false} InFlatten(lists: seq<seq<Match>>, i: nat)
    requires i < |lists|
    ensures |Flatten(lists)| >= |lists[i]| && forall m :: m in lists[i] ==> m in Flatten(lists)
  {
    if i > 0 {
      InFlatten(lists[1..], i - 1);
    }
  }

  lemma {:induction false} AllOwnIndex(idx: Index, rows: seq<Row>, minScore: real)
    ensures forall m :: m in Matches(idx, rows, minScore) ==> m.index == idx
  {
    forall m | m in Matches(idx, rows, minScore)
      ensures m.index == idx
    {
      OwnIndex(idx, rows, minScore, m);
    }
  }

  lemma {:induction false} ListsFromIndexes(db: Db, indexes: seq<Index>, query: string, limit: nat, minScore: real)
    requires AllAnswer(db, indexes, query)
    ensures FromIndexes(indexes, 0, Fetched(db, indexes, query, limit, minScore))
    ensures FromIndexes(indexes, 0, FetchedAll(db, indexes, query, minScore))
  {
    forall i | 0 <= i < |indexes|
      ensures forall m :: m in FetchedAll(db, indexes, query, minScore)[i] ==> m.index == indexes[i]
      ensures forall m :: m in Fetched(db, indexes, query, limit, minScore)[i] ==> m.index == indexes[i]
    {
      AllOwnIndex(indexes[i], Rows(db, indexes[i], query).value, minScore);
      AllOwnIndex(indexes[i], Take(limit, Rows(db, indexes[i], query).value), minScore);
    }
  }

  lemma {:induction false} Sorted(indexes: seq<Index>, lists: seq<seq<Match>>)
    requires Distinct(indexes) && FromIndexes(indexes, 0, lists)
    ensures var t := StableSort(Flatten(lists));
            Settled(indexes, t) && Known(indexes, t) && multiset(t) == multiset(Flatten(lists))
  {
    FlattenPlaces(indexes, 0, lists);
    SortSettles(indexes, Flatten(lists));
    SortIsStable(Flatten(lists));
    SortMultiset(Flatten(lists));
  }

  /** An index leaves something behind only when it delivers as many matches as the limit allows. */
  lemma {:induction false} EnoughFetched(db: Db, indexes: seq<Index>, query: string, limit: nat, minScore: real)
    requires AllAnswer(db, indexes, query) && AllInOrder(db, indexes, query)
    ensures Flatten(Dropped(db, indexes, query, limit, minScore)) != [] ==>
              |Flatten(Fetched(db, indexes, query, limit, minScore))| >= limit
  {
    var (p, d) := (Fetched(db, indexes, query, limit, minScore), Dropped(db, indexes, query, limit, minScore));
    if Flatten(d) != [] {
      var i := FlattenHas(d, Flatten(d)[0]);
      var rows := Rows(db, indexes[i], query).value;
      if limit <= |rows| {
        FewMatchesAreAll(indexes[i], rows, minScore, limit);
      }
      InFlatten(p, i);
    }
  }

  /** A row behind the limit of its index, good enough to be reported, is ahead of the last of the first
      `limit` entries. */
  ghost predicate LeavesBehind(db: Db, indexes: seq<Index>, query: string, limit: nat, minScore: real)
    requires AllAnswer(db, indexes, query)
  {
    var t := FetchedRanking(db, indexes, query, limit, minScore);
    0 < limit <= |t| && SomeBehindAndAhead(db, indexes, query, limit, minScore, t[limit - 1])
  }

  ghost predicate SomeBehindAndAhead(db: Db, indexes: seq<Index>, query: string, limit: nat, minScore: real,
      last: Match)
    requires AllAnswer(db, indexes, query)
  {
    exists i, j :: 0 <= i < |indexes| && BehindAndAhead(db, indexes, query, limit, minScore, i, j, last)
  }

  ghost predicate BehindAndAhead(db: Db, indexes: seq<Index>, query: string, limit: nat, minScore: real, i: nat,
      j: nat, last: Match)
    requires AllAnswer(db, indexes, query) && i < |indexes|
  {
    var rows := Rows(db, indexes[i], query).value;
    && limit <= j < |rows| && ScoreOf(rows[j]) >= minScore
    && Ahead(indexes, ToMatch(indexes[i], rows[j]), last)
  }

  lemma {:induction false} BehindIsDropped(db: Db, indexes: seq<Index>, query: string, limit: nat, minScore: real,
      i: nat, j: nat, last: Match)
    requires AllAnswer(db, indexes, query) && i < |indexes|
    requires BehindAndAhead(db, indexes, query, limit, minScore, i, j, last)
    ensures !NoneAhead(indexes, Flatten(Dropped(db, indexes, query, limit, minScore)), last)
  {
    var (rows, d) := (Rows(db, indexes[i], query).value, Dropped(db, indexes, query, limit, minScore));
    assert Rest(limit, rows)[j - limit] == rows[j];
    RowHasMatch(indexes[i], Rest(limit, rows), minScore, j - limit);
    InFlatten(d, i);
    assert ToMatch(indexes[i], rows[j]) in d[i];
  }

  lemma {:induction false} DroppedIsBehind(db: Db, indexes: seq<Index>, query: string, limit: nat, minScore: real,
      y: Match, last: Match) returns (i: nat, j: nat)
    requires AllAnswer(db, indexes, query)
    requires y in Flatten(Dropped(db, indexes, query, limit, minScore)) && Ahead(indexes, y, last)
    ensures i < |indexes| && BehindAndAhead(db, indexes, query, limit, minScore, i, j, last)
  {
    i := FlattenHas(Dropped(db, indexes, query, limit, minScore), y);
    var rows := Rows(db, indexes[i], query).value;
    var k := MatchHasRow(indexes[i], Rest(limit, rows), minScore, y);
    j := limit + k;
    assert Rest(limit, rows)[k] == rows[j];
  }

  lemma {:induction false} LeavesBehindIff(db: Db, indexes: seq<Index>, query: string, limit: nat, minScore: real)
    requires AllAnswer(db, indexes, query)
    requires 0 < limit <= |FetchedRanking(db, indexes, query, limit, minScore)|
    ensures LeavesBehind(db, indexes, query, limit, minScore) <==>
            !NoneAhead(indexes, Flatten(Dropped(db, indexes, query, limit, minScore)),
                       FetchedRanking(db, indexes, query, limit, minScore)[limit - 1])
  {
    var last := FetchedRanking(db, indexes, query, limit, minScore)[limit - 1];
    var d := Flatten(Dropped(db, indexes, query, limit, minScore));
    if LeavesBehind(db, indexes, query, limit, minScore) {
      var i, j :| 0 <= i < |indexes| && BehindAndAhead(db, indexes, query, limit, minScore, i, j, last);
      BehindIsDropped(db, indexes, query, limit, minScore, i, j, last);
    }
    if !NoneAhead(indexes, d, last) {
      var y :| y in d && Ahead(indexes, y, last);
      var i, j := DroppedIsBehind(db, indexes, query, limit, minScore, y, last);
    }
  }

  /** Limiting each index gives the first `limit` entries of the full ranking exactly if no row behind a limit
      is ahead of the last of the first `limit` entries that were fetched. */
  lemma {:induction false} MergedPushdownIff(db: Db, indexes: seq<Index>, query: string, limit: nat, minScore: real)
    requires AllAnswer(db, indexes, query) && AllInOrder(db, indexes, query) && Distinct(indexes)
    ensures Agree(limit, FetchedRanking(db, indexes, query, limit, minScore),
                  FullRanking(db, indexes, query, minScore)) <==>
            !LeavesBehind(db, indexes, query, limit, minScore)
  {
    var (p, q) := (Fetched(db, indexes, query, limit, minScore), FetchedAll(db, indexes, query, minScore));
    var d := Flatten(Dropped(db, indexes, query, limit, minScore));
    var (t, f) := (StableSort(Flatten(p)), StableSort(Flatten(q)));
    AllSplitsUp(db, indexes, query, limit, minScore);
    SplitFlatten(q, p, Dropped(db, indexes, query, limit, minScore));
    ListsFromIndexes(db, indexes, query, limit, minScore);
    Sorted(indexes, p);
    Sorted(indexes, q);
    EnoughFetched(db, indexes, query, limit, minScore);
    SortMultiset(Flatten(p));
    AgreeIff(indexes, t, d, limit, f);
    if 0 < limit <= |t| {
      LeavesBehindIff(db, indexes, query, limit, minScore);
    }
  }

  // ---- The order of a result ----

  /** `b` may come behind `a`: it does not have the better score, nor the smaller path on equal scores, and
      on ties skills come first and patterns last. */
  predicate MayFollow(a: Match, b: Match) {
    && b.score <= a.score
    && (b.score == a.score ==> !Lex.Less(b.path, a.path))
    && (b.score == a.score && b.path == a.path ==>
          (b.index == SkillIndex ==> a.index == SkillIndex) && (a.index == PatternIndex ==> b.index == PatternIndex))
  }

  ghost predicate InOrder(ms: seq<Match>) {
    forall i, j :: 0 <= i < j < |ms| ==> MayFollow(ms[i], ms[j])
  }

  lemma {:induction false} ThreePlaces(idx: Index)
    requires idx in ALL
    ensures Place(ALL, idx) == if idx == SkillIndex then 0 else if idx == MemoryIndex then 1 else 2
  {
    assert ALL[1..] == [MemoryIndex, PatternIndex] && ALL[1..][1..] == [PatternIndex];
  }

  const ALL := [SkillIndex, MemoryIndex, PatternIndex]

  lemma {:induction false} NotAheadMayFollow(a: Match, b: Match)
    requires a.index in ALL && b.index in ALL && !Ahead(ALL, b, a)
    ensures MayFollow(a, b)
  {
    ThreePlaces(a.index);
    ThreePlaces(b.index);
    TiedMeansEqualKeys(b, a);
  }

  lemma {:induction false} SettledIsInOrder(ms: seq<Match>)
    requires Settled(ALL, ms) && Known(ALL, ms)
    ensures InOrder(ms)
  {
    forall i, j | 0 <= i < j < |ms|
      ensures MayFollow(ms[i], ms[j])
    {
      assert ms[i] in ms && ms[j] in ms;
      NotAheadMayFollow(ms[i], ms[j]);
    }
  }

  lemma {:induction false} RecentStaysInOrder(db: Db, ms: seq<Match>)
    requires InOrder(ms) && Recent(db, ms).Some?
    ensures InOrder(Recent(db, ms).value)
  {
    var ps := RecentByPosition(db, ms);
  }

  lemma {:induction false} RankingIsInOrder(db: Db, query: string, limit: nat, minScore: real)
    requires AllAnswer(db, ALL, query)
    ensures InOrder(FetchedRanking(db, ALL, query, limit, minScore))
  {
    ListsFromIndexes(db, ALL, query, limit, minScore);
    Sorted(ALL, Fetched(db, ALL, query, limit, minScore));
    SettledIsInOrder(FetchedRanking(db, ALL, query, limit, minScore));
  }

  lemma {:induction false} AttachedInOrder(db: Db, ms: seq<Match>, out: seq<Recalled>)
    requires InOrder(ms) && out <= Attach(db, ms)
    ensures forall i, j :: 0 <= i < j < |out| ==> MayFollow(out[i].match_, out[j].match_)
  {
    assert forall i :: 0 <= i < |out| ==> out[i].match_ == ms[i];
  }

  /** An answer without a kind filter is ordered by score, then path, then skills, memories, patterns. */
  lemma {:induction false} AnswerIsInOrder(db: Db, o: Options, limit: nat, r: Result<seq<Recalled>>)
    requires AllAnswer(db, ALL, o.matchExpr) && r.Ok?
    requires Finishes(db, o, FetchedRanking(db, ALL, o.matchExpr, limit, o.minScore), r)
    ensures forall i, j :: 0 <= i < j < |r.value| ==> MayFollow(r.value[i].match_, r.value[j].match_)
  {
    var ranking := FetchedRanking(db, ALL, o.matchExpr, limit, o.minScore);
    RankingIsInOrder(db, o.matchExpr, limit, o.minScore);
    if o.recentOnly {
      RecentStaysInOrder(db, ranking);
      AttachedInOrder(db, Recent(db, ranking).value, r.value);
    } else {
      AttachedInOrder(db, ranking, r.value);
    }
  }

  /** The indexes that a kind filter selects are different ones. */
  lemma {:induction false} KindsAreDistinct(kind: string)
    ensures IndexesForKind(kind).Some? ==> Distinct(IndexesForKind(kind).value)
  {
  }
}

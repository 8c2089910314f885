/** Stable sorting and merging of ranked matches, as needed by tools/learn/recall.go. */
module Ranking {

  import Lex

  /** The three known indexes, and any other name. */
  datatype Index = SkillIndex | MemoryIndex | PatternIndex | OtherIndex(name: string)

  datatype Match = Match(index: Index, path: string, score: real)

  /** The comparator of the source: higher score first, then the smaller path. */
  predicate Before(a: Match, b: Match) {
    if a.score != b.score then a.score > b.score else Lex.Less(a.path, b.path)
  }

  predicate Tied(a: Match, b: Match) {
    !Before(a, b) && !Before(b, a)
  }

  lemma {:induction false} TiedMeansEqualKeys(a: Match, b: Match)
    ensures Tied(a, b) <==> a.score == b.score && a.path == b.path
  {
    Lex.LessTotal(a.path, b.path);
    Lex.LessIrreflexive(a.path);
  }

  /** `Before` is transitive, also through ties. */
  lemma {:induction false} BeforeTransitive(a: Match, b: Match, c: Match)
    requires !Before(b, a) && !Before(c, b)
    ensures !Before(c, a)
    ensures Before(a, b) || Before(b, c) ==> Before(a, c)
  {
    Lex.LessTotal(a.path, b.path);
    Lex.LessTotal(b.path, c.path);
    Lex.LessIrreflexive(a.path);
    if Lex.Less(a.path, b.path) && Lex.Less(b.path, c.path) {
      Lex.LessTransitive(a.path, b.path, c.path);
    }
    if a.score == c.score && Lex.Less(c.path, a.path) && Lex.Less(a.path, b.path) {
      Lex.LessTransitive(c.path, a.path, b.path);
    }
    if a.score == c.score && Lex.Less(a.path, c.path) {
      Lex.LessAsymmetric(a.path, c.path);
    }
  }

  lemma {:induction false} BeforeAsymmetric(a: Match, b: Match)
    ensures !Before(a, a)
    ensures Before(a, b) ==> !Before(b, a)
  {
    Lex.LessIrreflexive(a.path);
    if Lex.Less(a.path, b.path) {
      Lex.LessAsymmetric(a.path, b.path);
    }
  }

  ghost predicate Ranked(s: seq<Match>) {
    forall i, j :: 0 <= i < j < |s| ==> !Before(s[j], s[i])
  }

  lemma {:induction false} RankedTail(s: seq<Match>)
    requires s != [] && Ranked(s)
    ensures Ranked(s[1..]) && forall y :: y in s[1..] ==> !Before(y, s[0])
  {
  }

  lemma {:induction false} HeadNotBeaten(s: seq<Match>, y: Match)
    requires s != [] && Ranked(s) && y in s
    ensures !Before(y, s[0])
  {
    BeforeAsymmetric(y, y);
    if y != s[0] {
      assert s == [s[0]] + s[1..];
    }
  }

  /** Puts `x` in front of everything that is not before it. */
  function Insert(x: Match, s: seq<Match>): seq<Match> {
    if s != [] && Before(s[0], x) then [s[0]] + Insert(x, s[1..]) else [x] + s
  }

  /** A stable sort. */
  function StableSort(s: seq<Match>): seq<Match> {
    if s == [] then [] else Insert(s[0], StableSort(s[1..]))
  }

  /** The elements with the same score and path as `x`, in order. */
  function TiedWith(s: seq<Match>, x: Match): seq<Match> {
    if s == [] then []
    else (if Tied(s[0], x) then [s[0]] else []) + TiedWith(s[1..], x)
  }

  ghost predicate StableOrder(r: seq<Match>, s: seq<Match>) {
    Ranked(r) && forall x :: TiedWith(r, x) == TiedWith(s, x)
  }

  lemma {:induction false} InsertRanked(x: Match, s: seq<Match>)
    requires Ranked(s)
    ensures Ranked(Insert(x, s))
    ensures forall y :: y in Insert(x, s) <==> y == x || y in s
  {
    if s != [] {
      assert s == [s[0]] + s[1..];
      if Before(s[0], x) {
        RankedTail(s);
        InsertRanked(x, s[1..]);
        BeforeAsymmetric(s[0], x);
        HeadBelow(s[0], Insert(x, s[1..]));
      } else {
        forall y | y in s
          ensures !Before(y, x)
        {
          HeadNotBeaten(s, y);
          BeforeTransitive(x, s[0], y);
        }
        HeadBelow(x, s);
      }
    }
  }

  lemma {:induction false} HeadBelow(x: Match, s: seq<Match>)
    requires Ranked(s) && forall y :: y in s ==> !Before(y, x)
    ensures Ranked([x] + s)
  {
  }

  lemma {:induction false} InsertTied(x: Match, s: seq<Match>, z: Match)
    ensures TiedWith(Insert(x, s), z) == TiedWith([x] + s, z)
  {
    assert ([x] + s)[1..] == s;
    if s != [] && Before(s[0], x) {
      InsertTied(x, s[1..], z);
      assert ([s[0]] + Insert(x, s[1..]))[1..] == Insert(x, s[1..]);
      assert ([x] + s[1..])[1..] == s[1..];
      TiedMeansEqualKeys(x, z);
      TiedMeansEqualKeys(s[0], z);
      TiedMeansEqualKeys(s[0], x);
    }
  }

  lemma {:induction false} SortIsStable(s: seq<Match>)
    ensures StableOrder(StableSort(s), s)
    ensures forall y :: y in StableSort(s) <==> y in s
  {
    if s != [] {
      SortIsStable(s[1..]);
      var t := StableSort(s[1..]);
      InsertRanked(s[0], t);
      assert s == [s[0]] + s[1..] && ([s[0]] + t)[1..] == t;
      forall z
        ensures TiedWith(Insert(s[0], t), z) == TiedWith(s, z)
      {
        InsertTied(s[0], t, z);
        assert TiedWith(t, z) == TiedWith(s[1..], z);
      }
    }
  }

  lemma {:induction false} InsertMultiset(x: Match, s: seq<Match>)
    ensures multiset(Insert(x, s)) == multiset(s) + multiset{x}
  {
    if s != [] && Before(s[0], x) {
      InsertMultiset(x, s[1..]);
      assert s == [s[0]] + s[1..];
    }
  }

  lemma {:induction false} SortMultiset(s: seq<Match>)
    ensures multiset(StableSort(s)) == multiset(s) && |StableSort(s)| == |s|
  {
    if s != [] {
      SortMultiset(s[1..]);
      InsertMultiset(s[0], StableSort(s[1..]));
      assert s == [s[0]] + s[1..];
    }
    assert |multiset(StableSort(s))| == |multiset(s)|;
  }

  ghost predicate NoneBefore(b: seq<Match>, a: seq<Match>) {
    forall x, y :: x in a && y in b ==> !Before(y, x)
  }

  lemma {:induction false} InsertAhead(x: Match, s: seq<Match>, t: seq<Match>)
    requires NoneBefore(t, [x])
    ensures Insert(x, s + t) == Insert(x, s) + t
  {
    if s == [] {
      assert s + t == t && [x] + t == [x] + [] + t;
      assert t != [] ==> !Before(t[0], x);
    } else {
      assert (s + t)[1..] == s[1..] + t;
      if Before(s[0], x) {
        InsertAhead(x, s[1..], t);
        assert [s[0]] + (Insert(x, s[1..]) + t) == [s[0]] + Insert(x, s[1..]) + t;
      } else {
        assert [x] + (s + t) == [x] + s + t;
      }
    }
  }

  /** When nothing behind a cut is before anything in front of it, the two parts are sorted on their own. */
  lemma {:induction false} SortInParts(a: seq<Match>, b: seq<Match>)
    requires NoneBefore(b, a)
    ensures StableSort(a + b) == StableSort(a) + StableSort(b)
  {
    if a == [] {
      assert a + b == b && [] + StableSort(b) == StableSort(b);
    } else {
      assert a == [a[0]] + a[1..] && (a + b)[1..] == a[1..] + b;
      SortInParts(a[1..], b);
      SortIsStable(b);
      InsertAhead(a[0], StableSort(a[1..]), StableSort(b));
    }
  }

  lemma {:induction false} Remainder(p: seq<Match>, q: seq<Match>, a: multiset<Match>, b: multiset<Match>)
    requires multiset(p + q) == a + b && multiset(p) == a
    ensures multiset(q) == b
  {
    assert multiset(q) == multiset(p + q) - multiset(p);
  }

  /** If the sorted `a` stays in front, `b` fills the places behind it. */
  lemma {:induction false} RestIsAppended(a: seq<Match>, b: seq<Match>)
    requires Agree(|a|, StableSort(a), StableSort(a + b))
    ensures var t := StableSort(a + b);
            |a| <= |t| && t[..|a|] == StableSort(a) && multiset(t[|a|..]) == multiset(b)
  {
    SortMultiset(a);
    SortMultiset(a + b);
    var (n, s, t) := (|a|, StableSort(a), StableSort(a + b));
    assert Take(n, s) == s && Take(n, t) == t[..n];
    assert t[..n] + t[n..] == t;
    Remainder(t[..n], t[n..], multiset(a), multiset(b));
  }

  /** Appending `b` keeps the sorted `a` in front exactly when nothing in `b` is before anything in `a`. */
  lemma {:induction false} SortedPrefixIff(a: seq<Match>, b: seq<Match>)
    ensures Agree(|a|, StableSort(a), StableSort(a + b)) <==> NoneBefore(b, a)
  {
    if NoneBefore(b, a) {
      SortMultiset(a);
      SortInParts(a, b);
      assert Take(|a|, StableSort(a) + StableSort(b)) == StableSort(a);
    }
    if Agree(|a|, StableSort(a), StableSort(a + b)) {
      RestIsAppended(a, b);
      SortIsStable(a);
      SortIsStable(a + b);
      forall x, y | x in a && y in b
        ensures !Before(y, x)
      {
        assert y in multiset(b);
        RankedInOrder(StableSort(a + b), |a|, x, y);
      }
    }
  }

  lemma {:induction false} RankedInOrder(t: seq<Match>, n: nat, x: Match, y: Match)
    requires Ranked(t) && n <= |t| && x in t[..n] && y in multiset(t[n..])
    ensures !Before(y, x)
  {
    assert y in t[n..];
    var i :| 0 <= i < n && t[..n][i] == x;
    var j :| 0 <= j < |t| - n && t[n..][j] == y;
    assert t[i] == x && t[n + j] == y;
  }

  lemma {:induction false} TiedNonEmpty(s: seq<Match>, x: Match)
    ensures TiedWith(s, x) != [] <==> exists y :: y in s && Tied(y, x)
  {
    if s != [] {
      TiedNonEmpty(s[1..], x);
      assert s == [s[0]] + s[1..];
    }
  }

  lemma {:induction false} TiedSelf(s: seq<Match>)
    requires s != []
    ensures TiedWith(s, s[0]) != [] && TiedWith(s, s[0])[0] == s[0]
  {
    BeforeAsymmetric(s[0], s[0]);
  }

  lemma {:induction false} NotBelowHead(s: seq<Match>, t: seq<Match>)
    requires s != [] && t != [] && Ranked(t) && TiedWith(s, s[0]) == TiedWith(t, s[0])
    ensures !Before(s[0], t[0])
  {
    TiedSelf(s);
    TiedNonEmpty(t, s[0]);
    var y :| y in t && Tied(y, s[0]);
    HeadNotBeaten(t, y);
    BeforeTransitive(t[0], y, s[0]);
  }

  /** Being ranked and stable determines the result, so any stable sort gives this list. */
  lemma {:induction false} StableOrderUnique(p: seq<Match>, q: seq<Match>)
    requires Ranked(p) && Ranked(q) && forall x :: TiedWith(p, x) == TiedWith(q, x)
    ensures p == q
    decreases |p|
  {
    if p == [] {
      if q != [] {
        TiedSelf(q);
      }
    } else {
      TiedSelf(p);
      assert TiedWith(p, p[0]) == TiedWith(q, p[0]);
      assert q != [];
      NotBelowHead(p, q);
      NotBelowHead(q, p);
      assert Tied(q[0], p[0]);
      assert p[0] == q[0];
      forall x
        ensures TiedWith(p[1..], x) == TiedWith(q[1..], x)
      {
        assert TiedWith(p, x) == TiedWith(q, x);
        DropHead(p, x);
        DropHead(q, x);
      }
      RankedTail(p);
      RankedTail(q);
      StableOrderUnique(p[1..], q[1..]);
      assert p == [p[0]] + p[1..] && q == [q[0]] + q[1..];
    }
  }

  lemma {:induction false} DropHead(s: seq<Match>, x: Match)
    requires s != []
    ensures TiedWith(s[1..], x) == if Tied(s[0], x) then TiedWith(s, x)[1..] else TiedWith(s, x)
  {
    if Tied(s[0], x) {
      assert ([s[0]] + TiedWith(s[1..], x))[1..] == TiedWith(s[1..], x);
    }
  }

  // ---- Sorting a concatenation of ranked lists is merging them ----

  /** On ties the left list goes first. */
  function Merge(a: seq<Match>, b: seq<Match>): seq<Match> {
    if a == [] then b
    else if b == [] then a
    else if Before(b[0], a[0]) then [b[0]] + Merge(a, b[1..])
    else [a[0]] + Merge(a[1..], b)
  }

  lemma {:induction false} InsertIntoMerge(x: Match, a: seq<Match>, b: seq<Match>)
    requires a != [] ==> !Before(a[0], x)
    ensures Insert(x, Merge(a, b)) == Merge([x] + a, b)
    decreases |b|
  {
    assert ([x] + a)[1..] == a;
    if b != [] {
      if a == [] {
        if Before(b[0], x) {
          InsertIntoMerge(x, a, b[1..]);
        }
      } else if Before(b[0], a[0]) {
        assert Merge(a, b)[1..] == Merge(a, b[1..]);
        if Before(b[0], x) {
          InsertIntoMerge(x, a, b[1..]);
        }
      } else {
        BeforeTransitive(x, a[0], b[0]);
      }
    }
  }

  lemma {:induction false} SortConcatIsMerge(a: seq<Match>, s: seq<Match>)
    requires Ranked(a)
    ensures StableSort(a + s) == Merge(a, StableSort(s))
  {
    if a == [] {
      assert a + s == s;
    } else {
      RankedTail(a);
      SortConcatIsMerge(a[1..], s);
      assert (a + s)[1..] == a[1..] + s;
      assert a[1..] != [] ==> a[1..][0] in a[1..];
      InsertIntoMerge(a[0], a[1..], StableSort(s));
      assert a == [a[0]] + a[1..];
    }
  }

  function Flatten(lists: seq<seq<Match>>): seq<Match> {
    if lists == [] then [] else lists[0] + Flatten(lists[1..])
  }

  function MergeAll(lists: seq<seq<Match>>): seq<Match> {
    if lists == [] then [] else Merge(lists[0], MergeAll(lists[1..]))
  }

  lemma {:induction false} SortFlattenIsMergeAll(lists: seq<seq<Match>>)
    requires forall i :: 0 <= i < |lists| ==> Ranked(lists[i])
    ensures StableSort(Flatten(lists)) == MergeAll(lists)
  {
    if lists != [] {
      SortFlattenIsMergeAll(lists[1..]);
      SortConcatIsMerge(lists[0], Flatten(lists[1..]));
    }
  }

  // ---- The first n elements of a merge come from the first n of each list ----

  function Take<T>(n: nat, s: seq<T>): seq<T> {
    if n <= |s| then s[..n] else s
  }

  ghost predicate Agree(n: nat, s: seq<Match>, t: seq<Match>) {
    Take(n, s) == Take(n, t)
  }

  lemma {:induction false} AgreeStep(n: nat, s: seq<Match>, t: seq<Match>)
    requires n > 0
    ensures Agree(n, s, t) <==>
            (s == [] && t == []) || (s != [] && t != [] && s[0] == t[0] && Agree(n - 1, s[1..], t[1..]))
  {
    if s != [] && t != [] {
      assert Take(n, s) == [s[0]] + Take(n - 1, s[1..]);
      assert Take(n, t) == [t[0]] + Take(n - 1, t[1..]);
    }
  }

  lemma {:induction false} AgreeLess(n: nat, m: nat, s: seq<Match>, t: seq<Match>)
    requires m <= n && Agree(n, s, t)
    ensures Agree(m, s, t)
  {
    assert Take(m, s) == Take(m, Take(n, s));
    assert Take(m, t) == Take(m, Take(n, t));
  }

  lemma {:induction false} MergeAgree(n: nat, a: seq<Match>, a': seq<Match>, b: seq<Match>, b': seq<Match>)
    requires Agree(n, a, a') && Agree(n, b, b')
    ensures Agree(n, Merge(a, b), Merge(a', b'))
    decreases n
  {
    if n > 0 {
      AgreeStep(n, a, a');
      AgreeStep(n, b, b');
      AgreeStep(n, Merge(a, b), Merge(a', b'));
      if a != [] && b != [] {
        AgreeLess(n, n - 1, a, a');
        AgreeLess(n, n - 1, b, b');
        if Before(b[0], a[0]) {
          MergeAgree(n - 1, a, a', b[1..], b'[1..]);
        } else {
          MergeAgree(n - 1, a[1..], a'[1..], b, b');
        }
      }
    }
  }

  lemma {:induction false} MergeAllAgree(n: nat, p: seq<seq<Match>>, q: seq<seq<Match>>)
    requires |p| == |q| && forall i :: 0 <= i < |p| ==> Agree(n, p[i], q[i])
    ensures Agree(n, MergeAll(p), MergeAll(q))
  {
    if p != [] {
      MergeAllAgree(n, p[1..], q[1..]);
      MergeAgree(n, p[0], q[0], MergeAll(p[1..]), MergeAll(q[1..]));
    }
  }
}

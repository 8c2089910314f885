/** Lists in strictly ascending order, and the fact that their elements determine them. */
module Sorting {

  ghost predicate StrictOrder<T(!new)>(less: (T, T) -> bool) {
    && (forall a, b :: less(a, b) ==> !less(b, a))
    && (forall a, b, c :: less(a, b) && less(b, c) ==> less(a, c))
  }

  ghost predicate Sorted<T>(s: seq<T>, less: (T, T) -> bool) {
    forall i, j :: 0 <= i < j < |s| ==> less(s[i], s[j])
  }

  lemma {:induction false} SharesHead<T>(s: seq<T>, t: seq<T>)
    requires s != [] && forall x :: x in s ==> x in t
    ensures t != [] && s[0] in t
  {
    assert s[0] in s;
  }

  lemma {:induction false} InTail<T(!new)>(s: seq<T>, x: T, less: (T, T) -> bool)
    requires StrictOrder(less) && s != [] && Sorted(s, less)
    ensures x in s[1..] <==> x in s && x != s[0]
  {
    if x in s && x != s[0] {
      var i :| 0 <= i < |s| && s[i] == x;
      assert s[1..][i - 1] == x;
    }
  }

  lemma {:induction false} SameHead<T(!new)>(s: seq<T>, t: seq<T>, less: (T, T) -> bool)
    requires StrictOrder(less) && Sorted(s, less) && Sorted(t, less)
    requires s != [] && t != [] && s[0] in t && t[0] in s
    ensures s[0] == t[0]
  {
    var i :| 0 <= i < |t| && t[i] == s[0];
    var j :| 0 <= j < |s| && s[j] == t[0];
  }

  /** There is at most one sorted list of given elements. */
  lemma {:induction false} SortedUnique<T(!new)>(s: seq<T>, t: seq<T>, less: (T, T) -> bool)
    requires StrictOrder(less) && Sorted(s, less) && Sorted(t, less)
    requires forall x :: x in s <==> x in t
    ensures s == t
    decreases |s|
  {
    if s != [] {
      SharesHead(s, t);
    } else if t != [] {
      SharesHead(t, s);
    }
    if s != [] {
      SharesHead(t, s);
      SameHead(s, t, less);
      forall x
        ensures x in s[1..] <==> x in t[1..]
      {
        InTail(s, x, less);
        InTail(t, x, less);
      }
      SortedUnique(s[1..], t[1..], less);
      assert s == [s[0]] + s[1..] && t == [t[0]] + t[1..];
    }
  }

  lemma {:induction false} PrependSorted<T(!new)>(x: T, s: seq<T>, less: (T, T) -> bool)
    requires StrictOrder(less) && Sorted(s, less)
    requires s != [] ==> less(x, s[0])
    ensures Sorted([x] + s, less)
  {
    forall i | 0 <= i < |s|
      ensures less(x, s[i])
    {
      assert i > 0 ==> less(s[0], s[i]);
    }
  }

  lemma {:induction false} PrependBelow<T(!new)>(x: T, s: seq<T>, less: (T, T) -> bool)
    requires Sorted(s, less) && forall y :: y in s ==> less(x, y)
    ensures Sorted([x] + s, less)
  {
  }

  /** Puts an element that is comparable with all others into its place. */
  function Insert<T(==)>(s: seq<T>, x: T, less: (T, T) -> bool): seq<T> {
    if s == [] then [x]
    else if x == s[0] then s
    else if less(x, s[0]) then [x] + s
    else [s[0]] + Insert(s[1..], x, less)
  }

  lemma {:induction false} InsertSorted<T(!new)>(s: seq<T>, x: T, less: (T, T) -> bool)
    requires StrictOrder(less) && Sorted(s, less)
    requires forall y :: y in s ==> x == y || less(x, y) || less(y, x)
    ensures Sorted(Insert(s, x, less), less)
    ensures forall y :: y in Insert(s, x, less) <==> y in s || y == x
  {
    if s != [] && x != s[0] {
      if less(x, s[0]) {
        PrependSorted(x, s, less);
      } else {
        assert s == [s[0]] + s[1..] && s[0] in s;
        InsertSorted(s[1..], x, less);
        PrependBelow(s[0], Insert(s[1..], x, less), less);
      }
    }
  }
}

/** The order of Go strings, and lists that are strictly sorted by it. */
module Lex {

  import Sorting

  predicate Less(a: string, b: string) {
    if b == [] then false
    else if a == [] then true
    else a[0] < b[0] || (a[0] == b[0] && Less(a[1..], b[1..]))
  }

  /** The strings agree up to `k`, where `a` ends or has the smaller character. */
  ghost predicate LessAt(a: string, b: string, k: nat) {
    && k <= |a| && k < |b| && (k == |a| || a[k] < b[k])
    && forall i :: 0 <= i < k ==> a[i] == b[i]
  }

  /** A string comes before another one at the first place where they differ, or as its beginning. */
  lemma {:induction false} LessIff(a: string, b: string)
    ensures Less(a, b) <==> exists k :: LessAt(a, b, k)
  {
    if b != [] && a == [] {
      assert LessAt(a, b, 0);
    } else if b != [] {
      LessIff(a[1..], b[1..]);
      if Less(a, b) && a[0] < b[0] {
        assert LessAt(a, b, 0);
      } else if Less(a, b) {
        var k: nat :| LessAt(a[1..], b[1..], k);
        assert LessAt(a, b, k + 1);
      }
      if k: nat :| LessAt(a, b, k) && k > 0 {
        assert LessAt(a[1..], b[1..], k - 1);
      }
    }
  }

  predicate AtMost(a: string, b: string) {
    a == b || Less(a, b)
  }

  lemma {:induction false} LessIrreflexive(a: string)
    ensures !Less(a, a)
  {
    if a != [] {
      LessIrreflexive(a[1..]);
    }
  }

  lemma {:induction false} LessTotal(a: string, b: string)
    ensures a == b || Less(a, b) || Less(b, a)
  {
    if a != [] && b != [] && a[0] == b[0] {
      LessTotal(a[1..], b[1..]);
      assert a == [a[0]] + a[1..] && b == [b[0]] + b[1..];
    }
  }

  lemma {:induction false} LessTransitive(a: string, b: string, c: string)
    requires Less(a, b) && Less(b, c)
    ensures Less(a, c)
  {
    if a != [] && a[0] == b[0] == c[0] {
      LessTransitive(a[1..], b[1..], c[1..]);
    }
  }

  lemma {:induction false} LessAsymmetric(a: string, b: string)
    requires Less(a, b)
    ensures !Less(b, a)
  {
    if Less(b, a) {
      LessTransitive(a, b, a);
      LessIrreflexive(a);
    }
  }

  lemma {:induction false} LessIsStrictOrder()
    ensures Sorting.StrictOrder(Less)
  {
    forall a, b | Less(a, b)
      ensures !Less(b, a)
    {
      LessAsymmetric(a, b);
    }
    forall a, b, c | Less(a, b) && Less(b, c)
      ensures Less(a, c)
    {
      LessTransitive(a, b, c);
    }
  }

  ghost predicate StrictlySorted(s: seq<string>) {
    Sorting.Sorted(s, Less)
  }

  /** A strictly sorted list of strings is determined by its elements. */
  lemma {:induction false} SortedUnique(s: seq<string>, t: seq<string>)
    requires StrictlySorted(s) && StrictlySorted(t)
    requires forall x :: x in s <==> x in t
    ensures s == t
  {
    LessIsStrictOrder();
    Sorting.SortedUnique(s, t, Less);
  }

  lemma {:induction false} InsertString(s: seq<string>, x: string)
    requires StrictlySorted(s)
    ensures StrictlySorted(Sorting.Insert(s, x, Less))
    ensures forall y :: y in Sorting.Insert(s, x, Less) <==> y in s || y == x
  {
    LessIsStrictOrder();
    forall y | y in s
      ensures x == y || Less(x, y) || Less(y, x)
    {
      LessTotal(x, y);
    }
    Sorting.InsertSorted(s, x, Less);
  }

  /** The elements of a set in ascending order, whatever order they are taken out in. */
  method SortedElements(names: set<string>) returns (r: seq<string>)
    ensures StrictlySorted(r)
    ensures forall x :: x in r <==> x in names
  {
    r := [];
    var rest := names;
    while rest != {}
      invariant rest <= names && StrictlySorted(r)
      invariant forall x :: x in r <==> x in names - rest
      decreases rest
    {
      var x :| x in rest;
      InsertString(r, x);
      r := Sorting.Insert(r, x, Less);
      rest := rest - {x};
    }
  }
}

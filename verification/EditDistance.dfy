/** Levenshtein distance over runes, as computed by the single-row loop of tools/learn/similar.go.

    `Distance` is the textbook recursion on prefixes.  It is tied to two independent notions:
    the in-place loop (method `LevenshteinDistance`) and the length of a shortest run of
    single-rune edits (`Reaches`), from which the metric laws follow or on which they rest. */
module EditDistance {

  import opened Prelude

  type Rune = int

  /** One single-rune edit at a position of the current text. */
  datatype Edit =
    | Insert(at: nat, r: Rune)
    | Delete(at: nat)
    | Substitute(at: nat, r: Rune)

  /** The text after one edit; None when the position does not exist. */
  function ApplyEdit(e: Edit, s: seq<Rune>): Option<seq<Rune>> {
    match e
    case Insert(i, r) => if i <= |s| then Some(s[..i] + [r] + s[i..]) else None
    case Delete(i) => if i < |s| then Some(s[..i] + s[i + 1..]) else None
    case Substitute(i, r) => if i < |s| then Some(s[i := r]) else None
  }

  /** Running the edits of `script` one after the other turns `a` into `b`. */
  ghost predicate Reaches(script: seq<Edit>, a: seq<Rune>, b: seq<Rune>)
    decreases |script|
  {
    if script == [] then a == b
    else
      var next := ApplyEdit(script[0], a);
      next.Some? && Reaches(script[1..], next.value, b)
  }

  function Min(x: int, y: int): int { if x < y then x else y }

  function Max(x: int, y: int): int { if x < y then y else x }

  function Cost(x: Rune, y: Rune): nat { if x == y then 0 else 1 }

  /** The recursive edit distance. */
  function Distance(a: seq<Rune>, b: seq<Rune>): nat
    decreases |a| + |b|
  {
    if a == [] then |b|
    else if b == [] then |a|
    else
      var (a', b') := (Front(a), Front(b));
      Min(Distance(a', b) + 1, Min(Distance(a, b') + 1, Distance(a', b') + Cost(Last(a), Last(b))))
  }

  // ---- The loop of the source ----

  /** One cell of the table: the distance of two prefixes, by the recurrence on lengths. */
  ghost function Cell(a: seq<Rune>, i: nat, b: seq<Rune>, j: nat): nat
    requires i <= |a| && j <= |b|
    decreases i + j
  {
    if i == 0 then j
    else if j == 0 then i
    else
      Min(Cell(a, i - 1, b, j) + 1,
          Min(Cell(a, i, b, j - 1) + 1, Cell(a, i - 1, b, j - 1) + Cost(a[i - 1], b[j - 1])))
  }

  lemma {:induction false} PrefixEnds(s: seq<Rune>, i: nat)
    requires 0 < i <= |s|
    ensures s[..i] != [] && Front(s[..i]) == s[..i - 1] && Last(s[..i]) == s[i - 1]
  {
  }

  lemma {:induction false} CellIsPrefixDistance(a: seq<Rune>, i: nat, b: seq<Rune>, j: nat)
    requires i <= |a| && j <= |b|
    ensures Cell(a, i, b, j) == Distance(a[..i], b[..j])
    decreases i + j
  {
    if i != 0 && j != 0 {
      CellIsPrefixDistance(a, i - 1, b, j);
      CellIsPrefixDistance(a, i, b, j - 1);
      CellIsPrefixDistance(a, i - 1, b, j - 1);
      PrefixEnds(a, i);
      PrefixEnds(b, j);
    }
  }

  lemma {:induction false} LastCell(a: seq<Rune>, b: seq<Rune>)
    ensures Cell(a, |a|, b, |b|) == Distance(a, b) == Distance(b, a)
  {
    CellIsPrefixDistance(a, |a|, b, |b|);
    Symmetric(a, b);
    assert a[..|a|] == a && b[..|b|] == b;
  }

  /** The row after pass `i`. */
  ghost predicate IsRow(row: seq<int>, a: seq<Rune>, i: nat, b: seq<Rune>)
    requires i <= |a|
  {
    |row| == |b| + 1 && forall k :: 0 <= k < |row| ==> row[k] == Cell(a, i, b, k)
  }

  lemma {:induction false} FirstRow(row: seq<int>, a: seq<Rune>, b: seq<Rune>)
    requires |row| == |b| + 1 && forall k :: 0 <= k < |row| ==> row[k] == k
    ensures IsRow(row, a, 0, b)
  {
  }

  /** The row in the middle of pass `i`: cells before `j` are new, the others still old. */
  ghost predicate HalfUpdated(row: seq<int>, a: seq<Rune>, i: nat, b: seq<Rune>, j: nat)
    requires 1 <= i <= |a|
  {
    && |row| == |b| + 1
    && (forall k :: 0 <= k < |row| ==> row[k] == Cell(a, if k < j then i else i - 1, b, k))
  }

  lemma {:induction false} WriteCell(row: seq<int>, diagonal: nat, a: seq<Rune>, i: nat, b: seq<Rune>, j: nat)
    requires 1 <= i <= |a| && 1 <= j <= |b|
    requires HalfUpdated(row, a, i, b, j)
    requires diagonal == Cell(a, i - 1, b, j - 1)
    ensures var v := Min(row[j] + 1, Min(row[j - 1] + 1, diagonal + Cost(a[i - 1], b[j - 1])));
            HalfUpdated(row[j := v], a, i, b, j + 1)
    ensures row[j] == Cell(a, i - 1, b, j)
  {
  }

  lemma {:induction false} StartPass(row: seq<int>, a: seq<Rune>, i: nat, b: seq<Rune>)
    requires 1 <= i <= |a| && IsRow(row, a, i - 1, b)
    ensures row[0] == Cell(a, i - 1, b, 0) && HalfUpdated(row[0 := i], a, i, b, 1)
  {
  }

  lemma {:induction false} EndPass(row: seq<int>, a: seq<Rune>, i: nat, b: seq<Rune>)
    requires 1 <= i <= |a| && HalfUpdated(row, a, i, b, |b| + 1)
    ensures IsRow(row, a, i, b)
  {
  }

  /** One pass of the outer loop: the row is overwritten from left to right, the value that is
      about to be lost being kept as the diagonal of the next cell. */
  method UpdateRow(prev: array<int>, ra: seq<Rune>, i: nat, rb: seq<Rune>)
    requires 1 <= i <= |ra| && IsRow(prev[..], ra, i - 1, rb)
    modifies prev
    ensures IsRow(prev[..], ra, i, rb)
  {
    StartPass(prev[..], ra, i, rb);
    ghost var row := prev[..][0 := i];
    var prevDiag := prev[0];
    prev[0] := i;
    for j := 1 to |rb| + 1
      invariant prev[..] == row && |row| == |rb| + 1
      invariant HalfUpdated(row, ra, i, rb, j)
      invariant prevDiag == Cell(ra, i - 1, rb, j - 1)
    {
      var save := prev[j];
      var cost := 1;
      if ra[i - 1] == rb[j - 1] {
        cost := 0;
      }
      var del := prev[j] + 1;
      var ins := prev[j - 1] + 1;
      var sub := prevDiag + cost;
      WriteCell(row, prevDiag, ra, i, rb, j);
      assert cost == Cost(ra[i - 1], rb[j - 1]) && prev[j] == row[j] && prev[j - 1] == row[j - 1];
      row := row[j := Min(del, Min(ins, sub))];
      prev[j] := Min(del, Min(ins, sub));
      prevDiag := save;
    }
    EndPass(row, ra, i, rb);
  }

  method LevenshteinDistance(a: seq<Rune>, b: seq<Rune>) returns (d: nat)
    ensures d == Distance(a, b)
  {
    var ra, rb := a, b;
    // The row is as long as the shorter text; exchanging the two is sound by symmetry.
    if |ra| < |rb| {
      ra, rb := rb, ra;
    }
    LastCell(ra, rb);
    var m, n := |ra|, |rb|;
    if n == 0 {
      return m;
    }
    var prev := new int[n + 1];
    for j := 0 to n + 1
      invariant forall k :: 0 <= k < j ==> prev[k] == k
    {
      prev[j] := j;
    }
    FirstRow(prev[..], ra, rb);
    for i := 1 to m + 1
      invariant IsRow(prev[..], ra, i - 1, rb)
    {
      UpdateRow(prev, ra, i, rb);
    }
    assert prev[n] == prev[..][n] == Cell(ra, m, rb, n);
    return prev[n];
  }

  /** The distance as a fraction of the longer length (0 for two empty texts). */
  method NormalizedLevenshteinDistance(a: seq<Rune>, b: seq<Rune>) returns (r: real)
    ensures 0.0 <= r <= 1.0
    ensures r == 0.0 <==> a == b
    ensures a != [] || b != [] ==> r == Distance(a, b) as real / Max(|a|, |b|) as real
  {
    var maxLen := |a|;
    if |b| > maxLen {
      maxLen := |b|;
    }
    if maxLen == 0 {
      return 0.0;
    }
    var d := LevenshteinDistance(a, b);
    r := d as real / maxLen as real;
    NormalizedBounds(a, b);
  }

  lemma {:induction false} NormalizedBounds(a: seq<Rune>, b: seq<Rune>)
    requires a != [] || b != []
    ensures var r := Distance(a, b) as real / Max(|a|, |b|) as real;
            0.0 <= r <= 1.0 && (r == 0.0 <==> a == b)
  {
    Bounds(a, b);
    ZeroIffEqual(a, b);
    Fraction(Distance(a, b), Max(|a|, |b|));
  }

  lemma {:induction false} Fraction(d: nat, n: nat)
    requires 0 < n && d <= n
    ensures 0.0 <= d as real / n as real <= 1.0
    ensures d as real / n as real == 0.0 <==> d == 0
  {
  }

  // ---- Metric laws ----

  lemma {:induction false} Symmetric(a: seq<Rune>, b: seq<Rune>)
    ensures Distance(a, b) == Distance(b, a)
    decreases |a| + |b|
  {
    if a != [] && b != [] {
      Symmetric(Front(a), b);
      Symmetric(a, Front(b));
      Symmetric(Front(a), Front(b));
    }
  }

  /** The distance lies between the length difference and the longer length. */
  lemma {:induction false} Bounds(a: seq<Rune>, b: seq<Rune>)
    ensures |a| - |b| <= Distance(a, b)
    ensures |b| - |a| <= Distance(a, b)
    ensures Distance(a, b) <= Max(|a|, |b|)
    decreases |a| + |b|
  {
    if a != [] && b != [] {
      Bounds(Front(a), b);
      Bounds(a, Front(b));
      Bounds(Front(a), Front(b));
    }
  }

  lemma {:induction false} ZeroIffEqual(a: seq<Rune>, b: seq<Rune>)
    ensures Distance(a, b) == 0 <==> a == b
    decreases |a| + |b|
  {
    if a != [] && b != [] {
      ZeroIffEqual(Front(a), Front(b));
      assert a == Front(a) + [Last(a)] && b == Front(b) + [Last(b)];
    }
  }

  lemma {:induction false} Triangle(a: seq<Rune>, b: seq<Rune>, c: seq<Rune>)
    ensures Distance(a, c) <= Distance(a, b) + Distance(b, c)
    decreases |a| + |b| + |c|
  {
    if a == [] || b == [] || c == [] {
      Bounds(a, b);
      Bounds(b, c);
      Bounds(a, c);
    } else {
      var (a', b', c') := (Front(a), Front(b), Front(c));
      Triangle(a', b, c);    // the first edit list deletes the last rune of a
      Triangle(a, b, c');    // the second inserts the last rune of c
      Triangle(a, b', c);    // the last rune of b is inserted and deleted again
      Triangle(a, b', c');   // ... inserted and replaced
      Triangle(a', b', c);   // ... replaced and deleted
      Triangle(a', b', c');  // ... replaced twice
    }
  }

  // ---- The distance is the length of a shortest script ----

  lemma {:induction false} SplitPrefix(s: seq<Rune>, i: nat)
    requires i <= |s|
    ensures Distance(s[..i], s[..i]) == 0
  {
    ZeroIffEqual(s[..i], s[..i]);
  }

  /** Appending the same runes to both texts does not increase the distance. */
  lemma {:induction false} CommonSuffix(a: seq<Rune>, b: seq<Rune>, t: seq<Rune>)
    ensures Distance(a + t, b + t) <= Distance(a, b)
    decreases |t|
  {
    if t == [] {
      assert a + t == a && b + t == b;
    } else {
      CommonSuffix(a, b, Front(t));
      assert Front(a + t) == a + Front(t) && Front(b + t) == b + Front(t);
      assert Last(a + t) == Last(t) && Last(b + t) == Last(t);
    }
  }

  lemma {:induction false} AppendOne(p: seq<Rune>, r: Rune)
    requires Distance(p, p) == 0
    ensures Distance(p, p + [r]) <= 1 && Distance(p + [r], p) <= 1
  {
    assert Front(p + [r]) == p;
    assert p != [] ==> Distance(p, p + [r]) <= Distance(p, p) + 1;
    assert p != [] ==> Distance(p + [r], p) <= Distance(p, p) + 1;
  }

  lemma {:induction false} ReplaceOne(p: seq<Rune>, x: Rune, r: Rune)
    requires Distance(p, p) == 0
    ensures Distance(p + [x], p + [r]) <= 1
  {
    assert Front(p + [x]) == p && Front(p + [r]) == p;
  }

  /** A single edit moves a text by at most one. */
  lemma {:induction false} OneEdit(e: Edit, a: seq<Rune>)
    requires ApplyEdit(e, a).Some?
    ensures Distance(a, ApplyEdit(e, a).value) <= 1
  {
    var p, i := a[..e.at], e.at;
    SplitPrefix(a, i);
    match e {
      case Insert(_, r) =>
        assert a == p + a[i..];
        AppendOne(p, r);
        CommonSuffix(p, p + [r], a[i..]);
      case Delete(_) =>
        assert a == p + [a[i]] + a[i + 1..];
        AppendOne(p, a[i]);
        CommonSuffix(p + [a[i]], p, a[i + 1..]);
      case Substitute(_, r) =>
        assert a == p + [a[i]] + a[i + 1..] && a[i := r] == p + [r] + a[i + 1..];
        ReplaceOne(p, a[i], r);
        CommonSuffix(p + [a[i]], p + [r], a[i + 1..]);
    }
  }

  /** No script is shorter than the distance. */
  lemma {:induction false} NoScriptIsShorter(script: seq<Edit>, a: seq<Rune>, b: seq<Rune>)
    requires Reaches(script, a, b)
    ensures Distance(a, b) <= |script|
    decreases |script|
  {
    if script == [] {
      ZeroIffEqual(a, b);
    } else {
      var next := ApplyEdit(script[0], a).value;
      NoScriptIsShorter(script[1..], next, b);
      OneEdit(script[0], a);
      Triangle(a, next, b);
    }
  }

  lemma {:induction false} ReachesConcat(s: seq<Edit>, t: seq<Edit>, a: seq<Rune>, b: seq<Rune>, c: seq<Rune>)
    requires Reaches(s, a, b) && Reaches(t, b, c)
    ensures Reaches(s + t, a, c)
    decreases |s|
  {
    if s == [] {
      assert s + t == t;
    } else {
      assert (s + t)[0] == s[0] && (s + t)[1..] == s[1..] + t;
      ReachesConcat(s[1..], t, ApplyEdit(s[0], a).value, b, c);
    }
  }

  /** A script can be run in front of a rune it does not touch. */
  lemma {:induction false} ReachesBefore(s: seq<Edit>, a: seq<Rune>, b: seq<Rune>, x: Rune)
    requires Reaches(s, a, b)
    ensures Reaches(s, a + [x], b + [x])
    decreases |s|
  {
    if s != [] {
      var next := ApplyEdit(s[0], a).value;
      ReachesBefore(s[1..], next, b, x);
      assert ApplyEdit(s[0], a + [x]).value == next + [x];
    }
  }

  lemma {:induction false} SingleEdit(e: Edit, a: seq<Rune>, b: seq<Rune>)
    requires ApplyEdit(e, a) == Some(b)
    ensures Reaches([e], a, b)
  {
    assert [e][1..] == [];
  }

  lemma {:induction false} DropLastFirst(s: seq<Edit>, a: seq<Rune>, b: seq<Rune>) returns (script: seq<Edit>)
    requires a != [] && Reaches(s, Front(a), b)
    ensures Reaches(script, a, b) && |script| == |s| + 1
  {
    var e := Delete(|a| - 1);
    assert Front(a) + a[|a|..] == Front(a);
    SingleEdit(e, a, Front(a));
    ReachesConcat([e], s, a, Front(a), b);
    script := [e] + s;
  }

  lemma {:induction false} AddLastAfter(s: seq<Edit>, a: seq<Rune>, b: seq<Rune>) returns (script: seq<Edit>)
    requires b != [] && Reaches(s, a, Front(b))
    ensures Reaches(script, a, b) && |script| == |s| + 1
  {
    var e := Insert(|b| - 1, Last(b));
    var f := Front(b);
    assert f[..|f|] + [Last(b)] + f[|f|..] == b;
    SingleEdit(e, Front(b), b);
    ReachesConcat(s, [e], a, Front(b), b);
    script := s + [e];
  }

  lemma {:induction false} ReplaceLastAfter(s: seq<Edit>, a: seq<Rune>, b: seq<Rune>) returns (script: seq<Edit>)
    requires a != [] && b != [] && Reaches(s, Front(a), Front(b))
    ensures Reaches(script, a, b) && |script| == |s| + Cost(Last(a), Last(b))
  {
    assert a == Front(a) + [Last(a)] && b == Front(b) + [Last(b)];
    ReachesBefore(s, Front(a), Front(b), Last(a));
    if Last(a) == Last(b) {
      script := s;
    } else {
      var e, mid := Substitute(|b| - 1, Last(b)), Front(b) + [Last(a)];
      assert mid[|b| - 1 := Last(b)] == b;
      SingleEdit(e, mid, b);
      ReachesConcat(s, [e], a, mid, b);
      script := s + [e];
    }
  }

  /** Some script attains the distance. */
  lemma {:induction false} SomeScriptAttains(a: seq<Rune>, b: seq<Rune>) returns (script: seq<Edit>)
    ensures Reaches(script, a, b) && |script| == Distance(a, b)
    decreases |a| + |b|
  {
    if a == [] && b == [] {
      script := [];
    } else if a != [] && (b == [] || Distance(a, b) == Distance(Front(a), b) + 1) {
      var s := SomeScriptAttains(Front(a), b);
      script := DropLastFirst(s, a, b);
    } else if a == [] || Distance(a, b) == Distance(a, Front(b)) + 1 {
      var s := SomeScriptAttains(a, Front(b));
      script := AddLastAfter(s, a, b);
    } else {
      var s := SomeScriptAttains(Front(a), Front(b));
      script := ReplaceLastAfter(s, a, b);
    }
  }

  /** `n` is the length of a shortest script from `a` to `b`. */
  ghost predicate IsShortestScriptLength(n: nat, a: seq<Rune>, b: seq<Rune>) {
    && (exists s :: Reaches(s, a, b) && |s| == n)
    && (forall s :: Reaches(s, a, b) ==> n <= |s|)
  }

  /** The number returned by the loop is the shortest-script length, and nothing else is. */
  lemma {:induction false} DistanceIsShortestScript(a: seq<Rune>, b: seq<Rune>, n: nat)
    ensures IsShortestScriptLength(n, a, b) <==> n == Distance(a, b)
  {
    var best := SomeScriptAttains(a, b);
    forall s | Reaches(s, a, b)
      ensures Distance(a, b) <= |s|
    {
      NoScriptIsShorter(s, a, b);
    }
  }
}

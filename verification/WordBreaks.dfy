/** Where splitWords (cmd/cli/scaffold/helpers.go) cuts: each word is a stretch of the text, and the places at
    which one begins are known from the characters around them. */
module WordBreaks {

  import opened Prelude
  import opened Picking
  import opened CaseNames

  /** A word begins at `i` of a text whose separators are spaces: behind a space, at a capital behind a small
      letter, and at a capital between a capital and a small letter. */
  predicate StartsAt(tab: Casing, t: string, i: nat)
    requires i < |t|
  {
    && t[i] != ' '
    && (i == 0 || t[i - 1] == ' ' ||
        (tab.isUpper(t[i]) &&
         (tab.isLower(t[i - 1]) || (tab.isUpper(t[i - 1]) && i + 1 < |t| && tab.isLower(t[i + 1])))))
  }

  /** A word ends where the next one begins, at a space, or with the text. */
  ghost predicate IsWord(tab: Casing, t: string, from: nat, to: nat) {
    && from < to <= |t|
    && (forall j :: from <= j < to ==> t[j] != ' ')
    && (forall j :: from < j < to ==> !StartsAt(tab, t, j))
    && (to == |t| || t[to] == ' ' || StartsAt(tab, t, to))
  }

  ghost predicate AreWords(tab: Casing, t: string, ps: seq<nat>, words: seq<string>) {
    |ps| == |words| && forall k :: 0 <= k < |ps| ==>
      IsWord(tab, t, ps[k], ps[k] + |words[k]|) && words[k] == t[ps[k]..ps[k] + |words[k]|]
  }

  ghost predicate AreStartsFrom(tab: Casing, t: string, p: nat, ps: seq<nat>) {
    Ascending(ps) && forall i: nat :: i in ps <==> p <= i < |t| && StartsAt(tab, t, i)
  }

  /** The word being collected at `i` began at `p`. */
  ghost predicate Open(tab: Casing, t: string, p: nat, i: nat) {
    && p <= i <= |t|
    && (p == i ==> i == 0 || t[i - 1] == ' ')
    && (p < i ==> StartsAt(tab, t, p) && (forall j :: p <= j < i ==> t[j] != ' ')
                  && forall j :: p < j < i ==> !StartsAt(tab, t, j))
  }

  lemma {:induction false} OpenNext(tab: Casing, t: string, p: nat, i: nat)
    requires Open(tab, t, p, i) && i < |t|
    ensures t[i] == ' ' ==> Open(tab, t, i + 1, i + 1)
    ensures t[i] != ' ' && Breaks(tab, t[p..i], t[i..]) ==> p < i && StartsAt(tab, t, i) && Open(tab, t, i, i + 1)
    ensures t[i] != ' ' && !Breaks(tab, t[p..i], t[i..]) ==>
              Open(tab, t, p, i + 1) && (p < i ==> !StartsAt(tab, t, i))
  {
    assert t[i..][0] == t[i];
    if i + 1 < |t| {
      assert t[i..][1] == t[i + 1];
    }
    if p < i {
      assert Last(t[p..i]) == t[i - 1];
    }
  }

  lemma {:induction false} FirstWord(tab: Casing, t: string, p: nat, i: nat)
    requires Open(tab, t, p, i) && p < i && (i == |t| || t[i] == ' ' || StartsAt(tab, t, i))
    ensures |t[p..i]| == i - p && IsWord(tab, t, p, p + |t[p..i]|) && t[p..i] == t[p..p + |t[p..i]|]
  {
  }

  lemma {:induction false} PrependToWords(tab: Casing, t: string, p: nat, word: string, ps: seq<nat>,
      words: seq<string>)
    requires IsWord(tab, t, p, p + |word|) && word == t[p..p + |word|] && AreWords(tab, t, ps, words)
    ensures AreWords(tab, t, [p] + ps, [word] + words)
  {
    var (qs, all) := ([p] + ps, [word] + words);
    forall k | 0 <= k < |qs|
      ensures IsWord(tab, t, qs[k], qs[k] + |all[k]|) && all[k] == t[qs[k]..qs[k] + |all[k]|]
    {
      if k > 0 {
        assert qs[k] == ps[k - 1] && all[k] == words[k - 1];
      }
    }
  }

  lemma {:induction false} PrependStart(tab: Casing, t: string, p: nat, n: nat, ps: seq<nat>)
    requires p < n && p < |t| && StartsAt(tab, t, p) && AreStartsFrom(tab, t, n, ps)
    requires forall j :: p < j < n && j < |t| ==> !StartsAt(tab, t, j)
    ensures AreStartsFrom(tab, t, p, [p] + ps)
  {
    assert forall k :: 0 <= k < |ps| ==> ps[k] in ps;
  }

  lemma {:induction false} PrependWord(tab: Casing, t: string, p: nat, i: nat, n: nat, ps: seq<nat>, words: seq<string>)
    requires Open(tab, t, p, i) && p < i <= n && (i == |t| || t[i] == ' ' || StartsAt(tab, t, i))
    requires AreWords(tab, t, ps, words) && AreStartsFrom(tab, t, n, ps)
    requires forall j :: i <= j < n && j < |t| ==> !StartsAt(tab, t, j)
    ensures AreWords(tab, t, [p] + ps, [t[p..i]] + words) && AreStartsFrom(tab, t, p, [p] + ps)
  {
    FirstWord(tab, t, p, i);
    PrependToWords(tab, t, p, t[p..i], ps, words);
    PrependStart(tab, t, p, n, ps);
  }

  lemma {:induction false} WordsFrom(tab: Casing, t: string, p: nat, i: nat) returns (ps: seq<nat>)
    requires Open(tab, t, p, i)
    ensures AreWords(tab, t, ps, Words(tab, t[p..i], t[i..])) && AreStartsFrom(tab, t, p, ps)
    decreases |t| - i
  {
    if i == |t| {
      ps := [];
      if p < i {
        PrependWord(tab, t, p, i, i, [], []);
        assert [t[p..i]] + [] == [t[p..i]];
        ps := [p] + [];
      }
    } else {
      OpenNext(tab, t, p, i);
      assert t[i..][1..] == t[i + 1..];
      assert t[p..i] + [t[i]] == t[p..i + 1] && [t[i]] == t[i..i + 1];
      if t[i] == ' ' {
        ps := WordsFrom(tab, t, i + 1, i + 1);
        assert t[i + 1..i + 1] == "";
        if p < i {
          PrependWord(tab, t, p, i, i + 1, ps, Words(tab, "", t[i + 1..]));
          ps := [p] + ps;
        } else {
          assert Close(t[p..i]) + Words(tab, "", t[i + 1..]) == Words(tab, "", t[i + 1..]);
        }
      } else if Breaks(tab, t[p..i], t[i..]) {
        ps := WordsFrom(tab, t, i, i + 1);
        PrependWord(tab, t, p, i, i, ps, Words(tab, [t[i]], t[i + 1..]));
        ps := [p] + ps;
      } else {
        ps := WordsFrom(tab, t, p, i + 1);
      }
    }
  }

  lemma {:induction false} SameStretch(tab: Casing, s: string, from: nat, to: nat)
    requires IsWord(tab, Spaces(s), from, to)
    ensures Spaces(s)[from..to] == s[from..to]
  {
    assert forall j :: from <= j < to ==> Spaces(s)[j] == s[j];
  }

  /** The words of a text are its stretches from each place where a word begins to the next one, to a separator
      or to the end. */
  lemma {:induction false} WordsByPosition(tab: Casing, s: string) returns (ps: seq<nat>)
    ensures var (t, words) := (Spaces(s), WordsOf(tab, s));
            && |t| == |s|
            && (forall i :: 0 <= i < |s| ==> t[i] == if s[i] == '_' || s[i] == '-' then ' ' else s[i])
            && Ascending(ps) && (forall i: nat :: i in ps <==> i < |s| && StartsAt(tab, t, i))
            && |ps| == |words|
            && forall k :: 0 <= k < |ps| ==>
                 IsWord(tab, t, ps[k], ps[k] + |words[k]|) && words[k] == s[ps[k]..ps[k] + |words[k]|]
  {
    var t := Spaces(s);
    ps := WordsFrom(tab, t, 0, 0);
    assert t[0..0] == "" && t[0..] == t;
    forall k | 0 <= k < |ps|
      ensures WordsOf(tab, s)[k] == s[ps[k]..ps[k] + |WordsOf(tab, s)[k]|]
    {
      SameStretch(tab, s, ps[k], ps[k] + |WordsOf(tab, s)[k]|);
    }
  }

  // ---- Putting the words together ----

  lemma {:induction false} Associate(a: string, b: string, c: string)
    ensures a + b + c == a + (b + c)
  {
  }

  lemma {:induction false} GlueCons(tab: Casing, w: string, rest: seq<string>)
    ensures Glue(tab, [w] + rest) == Capitalize(tab, w) + Glue(tab, rest)
  {
    assert ([w] + rest)[1..] == rest;
  }

  lemma {:induction false} GlueStepOut(tab: Casing, w: string, rest: seq<string>, b: seq<string>)
    requires Glue(tab, rest + b) == Glue(tab, rest) + Glue(tab, b)
    ensures Glue(tab, [w] + rest + b) == Glue(tab, [w] + rest) + Glue(tab, b)
  {
    assert [w] + rest + b == [w] + (rest + b);
    GlueCons(tab, w, rest);
    GlueCons(tab, w, rest + b);
    Associate(Capitalize(tab, w), Glue(tab, rest), Glue(tab, b));
  }

  lemma {:induction false} GlueConcat(tab: Casing, a: seq<string>, b: seq<string>)
    ensures Glue(tab, a + b) == Glue(tab, a) + Glue(tab, b)
  {
    if a == [] {
      assert a + b == b && "" + Glue(tab, b) == Glue(tab, b);
    } else {
      GlueConcat(tab, a[1..], b);
      assert a == [a[0]] + a[1..];
      GlueStepOut(tab, a[0], a[1..], b);
    }
  }

  lemma {:induction false} LowerAllConcat(tab: Casing, a: seq<string>, b: seq<string>)
    ensures LowerAll(tab, a + b) == LowerAll(tab, a) + LowerAll(tab, b)
  {
    if a == [] {
      assert a + b == b;
    } else {
      LowerAllConcat(tab, a[1..], b);
      assert (a + b)[1..] == a[1..] + b;
    }
  }

  lemma {:induction false} JoinConcat(a: seq<string>, b: seq<string>)
    requires a != [] && b != []
    ensures Join(a + b) == Join(a) + "_" + Join(b)
  {
    if |a| == 1 {
      assert (a + b)[1..] == b;
    } else {
      JoinConcat(a[1..], b);
      assert (a + b)[1..] == a[1..] + b;
      assert a[0] + "_" + (Join(a[1..]) + "_" + Join(b)) == a[0] + "_" + Join(a[1..]) + "_" + Join(b);
    }
  }

  /** A Pascal name runs its words together, each with a capital first letter and small ones behind it. */
  lemma {:induction false} PascalPieces(tab: Casing, a: seq<string>, w: string, b: seq<string>) returns (c: string)
    ensures Glue(tab, a + [w] + b) == Glue(tab, a) + c + Glue(tab, b) && Glue(tab, []) == "" && |c| == |w|
    ensures w != "" ==> c[0] == tab.toUpper(w[0]) && forall i :: 1 <= i < |w| ==> c[i] == tab.toLower(w[i])
  {
    GlueConcat(tab, a + [w], b);
    GlueConcat(tab, a, [w]);
    c := Glue(tab, [w]);
    GlueOne(tab, w);
  }

  lemma {:induction false} GlueOne(tab: Casing, w: string)
    ensures var c := Glue(tab, [w]);
            && Glue(tab, []) == "" && |c| == |w|
            && (w != "" ==> c[0] == tab.toUpper(w[0]) && forall i :: 1 <= i < |w| ==> c[i] == tab.toLower(w[i]))
  {
    assert [w][1..] == [];
    assert Capitalize(tab, w) + "" == Capitalize(tab, w);
  }

  /** A snake name puts an underscore between its words, each in small letters. */
  lemma {:induction false} SnakePieces(tab: Casing, a: seq<string>, w: string, b: seq<string>)
    ensures Join(LowerAll(tab, a + [w] + b)) ==
            (if a == [] then "" else Join(LowerAll(tab, a)) + "_") + Lower(tab, w) +
            (if b == [] then "" else "_" + Join(LowerAll(tab, b)))
  {
    var (x, y, z) := (LowerAll(tab, a), [Lower(tab, w)], LowerAll(tab, b));
    LowerAllConcat(tab, a + [w], b);
    LowerAllConcat(tab, a, [w]);
    assert [w][1..] == [];
    assert LowerAll(tab, [w]) == y;
    if a != [] {
      JoinConcat(x, y);
    } else {
      assert x + y == y;
    }
    if b != [] {
      JoinConcat(x + y, z);
      assert Join(x + y) + "_" + Join(z) == Join(x + y) + ("_" + Join(z));
    } else {
      assert x + y + z == x + y;
    }
  }
}

/** Signatures of token windows and their plain counter: joinNGram of tools/learn/cmd_extract.go and
    extractNGrams of tools/learn/pattern.go. */
module NGrams {

  import opened Prelude
  import Lex

  const ARROW: char := '\U{2192}'
  const SEPARATOR: string := " \U{2192} "

  /** The tokens joined by the separator. */
  function Join(tokens: seq<string>): string {
    if tokens == [] then ""
    else if |tokens| == 1 then tokens[0]
    else tokens[0] + SEPARATOR + Join(tokens[1..])
  }

  lemma {:induction false} JoinAppend(tokens: seq<string>, t: string)
    ensures Join(tokens + [t]) == if tokens == [] then t else Join(tokens) + SEPARATOR + t
  {
    if |tokens| == 1 {
      assert (tokens + [t])[1..] == [t];
    } else if tokens != [] {
      JoinAppend(tokens[1..], t);
      assert (tokens + [t])[1..] == tokens[1..] + [t];
      assert Join(tokens + [t]) == tokens[0] + SEPARATOR + (Join(tokens[1..]) + SEPARATOR + t);
    }
  }

  lemma {:induction false} JoinNext(tokens: seq<string>, i: nat)
    requires i < |tokens|
    ensures Join(tokens[..i + 1]) == (if i > 0 then Join(tokens[..i]) + SEPARATOR else "") + tokens[i]
  {
    JoinAppend(tokens[..i], tokens[i]);
    assert tokens[..i + 1] == tokens[..i] + [tokens[i]];
  }

  method JoinNGram(tokens: seq<string>) returns (sig: string)
    ensures sig == Join(tokens)
  {
    if |tokens| == 0 {
      return "";
    } else if |tokens| == 1 {
      return tokens[0];
    }
    var buf: string := "";
    for i := 0 to |tokens|
      invariant buf == Join(tokens[..i])
    {
      JoinNext(tokens, i);
      if i > 0 {
        buf := buf + SEPARATOR;
      }
      buf := buf + tokens[i];
    }
    assert tokens[..|tokens|] == tokens;
    return buf;
  }

  // ---- Tokens that the signature keeps apart ----

  /** The separator occurs at position `i`. */
  predicate SepAt(s: string, i: int) {
    0 <= i && i + 3 <= |s| && s[i] == ' ' && s[i + 1] == ARROW && s[i + 2] == ' '
  }

  /** The separator does not occur in the token, nor where the token meets the blanks around it. */
  ghost predicate Plain(t: string) {
    forall i :: !SepAt(" " + t + " ", i)
  }

  ghost predicate AllPlain(tokens: seq<string>) {
    forall i :: 0 <= i < |tokens| ==> Plain(tokens[i])
  }

  lemma {:induction false} FirstSep(t: string, rest: string)
    requires Plain(t)
    ensures SepAt(" " + t + SEPARATOR + rest, |t| + 1)
    ensures forall i :: i <= |t| ==> !SepAt(" " + t + SEPARATOR + rest, i)
  {
    var s := " " + t + SEPARATOR + rest;
    assert s[|t| + 1] == ' ' && s[|t| + 2] == ARROW && s[|t| + 3] == ' ';
    forall i | i <= |t|
      ensures !SepAt(s, i)
    {
      assert !SepAt(" " + t + " ", i);
    }
  }

  /** Cutting a text behind its first plain token is unambiguous. */
  lemma {:induction false} CutAtSeparator(a: string, x: string, b: string, y: string)
    requires Plain(a) && Plain(b) && a + SEPARATOR + x == b + SEPARATOR + y
    ensures a == b && x == y
  {
    FirstSep(a, x);
    FirstSep(b, y);
    assert " " + a + SEPARATOR + x == " " + (a + SEPARATOR + x);
    assert " " + b + SEPARATOR + y == " " + (b + SEPARATOR + y);
    assert a == (a + SEPARATOR + x)[..|a|] && x == (a + SEPARATOR + x)[|a| + 3..];
    assert b == (b + SEPARATOR + y)[..|b|] && y == (b + SEPARATOR + y)[|b| + 3..];
  }

  lemma {:induction false} SingleHasNoSeparator(t: string, others: seq<string>)
    requires Plain(t) && |others| > 1
    ensures t != Join(others)
  {
    var (first, rest) := (others[0], Join(others[1..]));
    assert (first + SEPARATOR + rest)[|first|] == ' ' && (first + SEPARATOR + rest)[|first| + 1] == ARROW
           && (first + SEPARATOR + rest)[|first| + 2] == ' ';
    assert !SepAt(" " + t + " ", |first| + 1);
  }

  lemma {:induction false} JoinInjective(s: seq<string>, t: seq<string>)
    requires s != [] && t != [] && AllPlain(s) && AllPlain(t) && Join(s) == Join(t)
    ensures s == t
    decreases |s|
  {
    if |s| == 1 {
      if |t| > 1 {
        SingleHasNoSeparator(s[0], t);
      }
    } else if |t| == 1 {
      SingleHasNoSeparator(t[0], s);
    } else {
      CutAtSeparator(s[0], Join(s[1..]), t[0], Join(t[1..]));
      JoinInjective(s[1..], t[1..]);
      assert s == [s[0]] + s[1..] && t == [t[0]] + t[1..];
    }
  }

  // ---- Every other token collides ----

  lemma {:induction false} JoinConcat(a: seq<string>, b: seq<string>)
    requires a != [] && b != []
    ensures Join(a + b) == Join(a) + SEPARATOR + Join(b)
  {
    if |a| == 1 {
      assert (a + b)[1..] == b;
    } else {
      JoinConcat(a[1..], b);
      assert (a + b)[1..] == a[1..] + b;
      assert a[0] + SEPARATOR + (Join(a[1..]) + SEPARATOR + Join(b)) ==
             a[0] + SEPARATOR + Join(a[1..]) + SEPARATOR + Join(b);
    }
  }

  lemma {:induction false} JoinAround(before: seq<string>, a: seq<string>, rest: seq<string>)
    requires a != []
    ensures Join(before + a + rest) ==
            (if before == [] then "" else Join(before) + SEPARATOR) + Join(a) +
            (if rest == [] then "" else SEPARATOR + Join(rest))
  {
    if before == [] {
      assert before + a == a && "" + Join(a) == Join(a);
    } else {
      JoinConcat(before, a);
    }
    if rest == [] {
      assert before + a + rest == before + a && Join(before + a) + "" == Join(before + a);
    } else {
      JoinConcat(before + a, rest);
      assert Join(before + a) + SEPARATOR + Join(rest) == Join(before + a) + (SEPARATOR + Join(rest));
    }
  }

  lemma {:induction false} DifferAround<T>(before: seq<T>, a: seq<T>, b: seq<T>, rest: seq<T>)
    requires a != b
    ensures before + a + rest != before + b + rest
  {
    if |a| == |b| {
      var (s, t) := (before + a + rest, before + b + rest);
      assert s[|before|..|before| + |a|] == a && t[|before|..|before| + |b|] == b;
    } else {
      assert |before + a + rest| != |before + b + rest|;
    }
  }

  lemma {:induction false} JoinTwo(a: string, b: string)
    ensures Join([a, b]) == a + SEPARATOR + b
  {
    assert [a, b][1..] == [b];
  }

  lemma {:induction false} JoinThree(a: string, b: string, c: string)
    ensures Join([a, b, c]) == a + SEPARATOR + b + SEPARATOR + c
  {
    JoinTwo(b, c);
    assert [a, b, c][1..] == [b, c];
    assert a + SEPARATOR + (b + SEPARATOR + c) == a + SEPARATOR + b + SEPARATOR + c;
  }

  /** Where the separator sits decides which other list of tokens gives the same text. */
  lemma {:induction false} OtherReading(p: string, t: string, q: string) returns (other: seq<string>)
    requires !Plain(t)
    ensures 2 <= |other| <= 4 && other != [p, t, q] && (|other| == 4 ==> other[1] != t && other[2] != t)
    ensures Join(other) == Join([p, t, q])
  {
    var i :| SepAt(" " + t + " ", i);
    var (blankArrow, arrowBlank) := (" " + [ARROW], [ARROW] + " ");
    JoinThree(p, t, q);
    if |t| == 1 {
      assert t == [ARROW];
      JoinTwo(p + blankArrow, arrowBlank + q);
      assert p + blankArrow + SEPARATOR + (arrowBlank + q) == p + SEPARATOR + t + SEPARATOR + q;
      return [p + blankArrow, arrowBlank + q];
    } else if i == 0 {
      assert t == arrowBlank + t[2..];
      JoinThree(p + blankArrow, t[2..], q);
      assert p + blankArrow + SEPARATOR + t[2..] == p + SEPARATOR + (arrowBlank + t[2..]);
      return [p + blankArrow, t[2..], q];
    } else if i == |t| - 1 {
      var x := t[..i - 1];
      assert t == x + blankArrow;
      JoinThree(p, x, arrowBlank + q);
      assert x + SEPARATOR + (arrowBlank + q) == x + blankArrow + SEPARATOR + q;
      assert p + SEPARATOR + x + SEPARATOR + (arrowBlank + q) == p + SEPARATOR + (x + SEPARATOR + (arrowBlank + q));
      assert p + SEPARATOR + t + SEPARATOR + q == p + SEPARATOR + (t + SEPARATOR + q);
      return [p, x, arrowBlank + q];
    } else {
      var (x, y) := (t[..i - 1], t[i + 2..]);
      assert t == x + SEPARATOR + y;
      JoinThree(x, y, q);
      JoinTwo(p, t);
      JoinConcat([p], [x, y, q]);
      assert [p] + [x, y, q] == [p, x, y, q];
      assert p + SEPARATOR + t + SEPARATOR + q == p + SEPARATOR + (x + SEPARATOR + y + SEPARATOR + q);
      return [p, x, y, q];
    }
  }

  /** A token that is not plain collides between any two tokens of any list: another list has the same
      signature. */
  lemma {:induction false} OthersCollide(before: seq<string>, p: string, t: string, q: string, rest: seq<string>)
    returns (other: seq<string>)
    requires !Plain(t)
    ensures other != before + [p, t, q] + rest && Join(other) == Join(before + [p, t, q] + rest)
  {
    var reading := OtherReading(p, t, q);
    other := before + reading + rest;
    DifferAround(before, reading, [p, t, q], rest);
    JoinAround(before, reading, rest);
    JoinAround(before, [p, t, q], rest);
  }

  // ---- Windows and the plain counter ----

  function Occurs<T(==)>(s: seq<T>, x: T): nat {
    if s == [] then 0 else Occurs(Front(s), x) + if Last(s) == x then 1 else 0
  }

  lemma {:induction false} OccursConcat<T>(s: seq<T>, t: seq<T>, x: T)
    ensures Occurs(s + t, x) == Occurs(s, x) + Occurs(t, x)
  {
    if t == [] {
      assert s + t == s;
    } else {
      assert Front(s + t) == s + Front(t);
      OccursConcat(s, Front(t), x);
    }
  }

  /** The windows of `size` consecutive tokens that start before position `n`. */
  function WindowsUpTo(tokens: seq<string>, size: nat, n: nat): seq<seq<string>>
    requires n == 0 || n - 1 + size <= |tokens|
  {
    if n == 0 then [] else WindowsUpTo(tokens, size, n - 1) + [tokens[n - 1..n - 1 + size]]
  }

  /** The number of windows of a sequence; 0 when it is too short. */
  function WindowCount(tokens: seq<string>, size: nat): nat {
    if |tokens| < size then 0 else |tokens| - size + 1
  }

  /** All windows of a sequence, from left to right. */
  function Windows(tokens: seq<string>, size: nat): seq<seq<string>> {
    WindowsUpTo(tokens, size, WindowCount(tokens, size))
  }

  function Signatures(windows: seq<seq<string>>): seq<string> {
    if windows == [] then [] else Signatures(Front(windows)) + [Join(Last(windows))]
  }

  function AllWindows(sequences: seq<seq<string>>, size: nat): seq<seq<string>> {
    if sequences == [] then [] else AllWindows(Front(sequences), size) + Windows(Last(sequences), size)
  }

  /** How often a signature occurs at a window size over all sequences. */
  function NGramCount(sequences: seq<seq<string>>, size: nat, sig: string): nat {
    Occurs(Signatures(AllWindows(sequences, size)), sig)
  }

  /** A window with this signature starts at position `i`. */
  ghost predicate StartsAt(tokens: seq<string>, size: nat, sig: string, i: nat) {
    i + size <= |tokens| && Join(tokens[i..i + size]) == sig
  }

  ghost function Places(tokens: seq<string>, size: nat, sig: string): set<nat> {
    set i: nat | i <= |tokens| && StartsAt(tokens, size, sig, i)
  }

  ghost function PlacesBefore(tokens: seq<string>, size: nat, sig: string, n: nat): set<nat> {
    set i: nat | i < n && StartsAt(tokens, size, sig, i)
  }

  lemma {:induction false} NextPlace(tokens: seq<string>, size: nat, sig: string, n: nat)
    ensures |PlacesBefore(tokens, size, sig, n + 1)| ==
            |PlacesBefore(tokens, size, sig, n)| + if StartsAt(tokens, size, sig, n) then 1 else 0
  {
    var before := PlacesBefore(tokens, size, sig, n);
    assert PlacesBefore(tokens, size, sig, n + 1) == before + if StartsAt(tokens, size, sig, n) then {n} else {};
  }

  lemma {:induction false} CountBefore(tokens: seq<string>, size: nat, sig: string, n: nat)
    requires n == 0 || n - 1 + size <= |tokens|
    ensures Occurs(Signatures(WindowsUpTo(tokens, size, n)), sig) == |PlacesBefore(tokens, size, sig, n)|
  {
    if n > 0 {
      CountBefore(tokens, size, sig, n - 1);
      NextSignature(WindowsUpTo(tokens, size, n - 1), tokens[n - 1..n - 1 + size]);
      NextPlace(tokens, size, sig, n - 1);
    }
  }

  /** What is counted: the places in each sequence at which such a window starts. */
  lemma {:induction false} CountIsPlaces(sequences: seq<seq<string>>, tokens: seq<string>, size: nat, sig: string)
    ensures NGramCount([], size, sig) == 0
    ensures NGramCount(sequences + [tokens], size, sig) ==
            NGramCount(sequences, size, sig) + |Places(tokens, size, sig)|
  {
    var n := WindowCount(tokens, size);
    assert Front(sequences + [tokens]) == sequences;
    SignaturesConcat(AllWindows(sequences, size), Windows(tokens, size));
    OccursConcat(Signatures(AllWindows(sequences, size)), Signatures(Windows(tokens, size)), sig);
    CountBefore(tokens, size, sig, n);
    assert PlacesBefore(tokens, size, sig, n) == Places(tokens, size, sig);
  }

  function CountOf(counts: map<string, nat>, sig: string): nat {
    if sig in counts then counts[sig] else 0
  }

  function Tally(sigs: seq<string>): map<string, nat> {
    if sigs == [] then map[]
    else
      var rest := Tally(Front(sigs));
      rest[Last(sigs) := CountOf(rest, Last(sigs)) + 1]
  }

  lemma {:induction false} TallyCounts(sigs: seq<string>, sig: string)
    ensures CountOf(Tally(sigs), sig) == Occurs(sigs, sig)
    ensures sig in Tally(sigs) <==> Occurs(sigs, sig) > 0
  {
    if sigs != [] {
      TallyCounts(Front(sigs), sig);
    }
  }

  lemma {:induction false} SignaturesConcat(s: seq<seq<string>>, t: seq<seq<string>>)
    ensures Signatures(s + t) == Signatures(s) + Signatures(t)
  {
    if t == [] {
      assert s + t == s;
    } else {
      assert Front(s + t) == s + Front(t);
      SignaturesConcat(s, Front(t));
    }
  }

  lemma {:induction false} NextSignature(windows: seq<seq<string>>, w: seq<string>)
    ensures Signatures(windows + [w]) == Signatures(windows) + [Join(w)]
  {
    assert Front(windows + [w]) == windows;
  }

  lemma {:induction false} TallyNext(sigs: seq<string>, sig: string)
    ensures Tally(sigs + [sig]) == Tally(sigs)[sig := CountOf(Tally(sigs), sig) + 1]
  {
    assert Front(sigs + [sig]) == sigs;
  }

  datatype CountedNGram = CountedNGram(signature: string, count: nat)

  /** The counting part of the source: every window of every sequence adds one. */
  method CountNGrams(sequences: seq<seq<string>>, size: nat) returns (counts: map<string, nat>)
    ensures counts == Tally(Signatures(AllWindows(sequences, size)))
  {
    counts := map[];
    ghost var windows: seq<seq<string>> := [];
    for k := 0 to |sequences|
      invariant windows == AllWindows(sequences[..k], size) && counts == Tally(Signatures(windows))
    {
      var tokens := sequences[k];
      assert Front(sequences[..k + 1]) == sequences[..k];
      if |tokens| < size {
        continue;
      }
      counts := CountWindows(tokens, size, counts, windows);
      windows := windows + Windows(tokens, size);
    }
    assert sequences[..|sequences|] == sequences;
  }

  /** The inner loop: the windows of one sequence are added to the tally of the earlier ones. */
  method CountWindows(tokens: seq<string>, size: nat, before: map<string, nat>, ghost earlier: seq<seq<string>>)
    returns (counts: map<string, nat>)
    requires size <= |tokens| && before == Tally(Signatures(earlier))
    ensures counts == Tally(Signatures(earlier + Windows(tokens, size)))
  {
    counts := before;
    ghost var windows := earlier;
    var i := 0;
    while i + size <= |tokens|
      invariant 0 <= i <= |tokens| - size + 1
      invariant windows == earlier + WindowsUpTo(tokens, size, i)
      invariant counts == Tally(Signatures(windows))
    {
      var sig := Join(tokens[i..i + size]);
      NextSignature(windows, tokens[i..i + size]);
      TallyNext(Signatures(windows), sig);
      counts := counts[sig := CountOf(counts, sig) + 1];
      windows := windows + [tokens[i..i + size]];
      i := i + 1;
    }
  }

  ghost function SignaturesOf(out: seq<CountedNGram>): seq<string> {
    seq(|out|, i requires 0 <= i < |out| => out[i].signature)
  }

  function Threshold(minFreq: int): nat {
    if minFreq < 1 then 1 else minFreq
  }

  lemma {:induction false} KeptCounts(sigs: seq<string>, minFreq: int, kept: seq<string>, out: seq<CountedNGram>)
    requires forall sig :: sig in kept <==> CountOf(Tally(sigs), sig) >= Threshold(minFreq)
    requires |out| == |kept| && forall j :: 0 <= j < |kept| ==>
            out[j] == CountedNGram(kept[j], CountOf(Tally(sigs), kept[j]))
    ensures forall g :: g in out <==> g.count == Occurs(sigs, g.signature) && g.count >= Threshold(minFreq)
  {
    forall g
      ensures g in out <==> g.count == Occurs(sigs, g.signature) && g.count >= Threshold(minFreq)
    {
      TallyCounts(sigs, g.signature);
      if g.signature in kept {
        var j :| 0 <= j < |kept| && kept[j] == g.signature;
        assert out[j] == CountedNGram(g.signature, Occurs(sigs, g.signature));
      }
    }
  }

  method ListCounts(counts: map<string, nat>, kept: seq<string>) returns (out: seq<CountedNGram>)
    requires forall sig :: sig in kept ==> sig in counts
    ensures |out| == |kept|
    ensures forall j :: 0 <= j < |kept| ==> out[j] == CountedNGram(kept[j], CountOf(counts, kept[j]))
  {
    out := [];
    for i := 0 to |kept|
      invariant |out| == i && forall j :: 0 <= j < i ==> out[j] == CountedNGram(kept[j], CountOf(counts, kept[j]))
    {
      assert kept[i] in kept;
      out := out + [CountedNGram(kept[i], counts[kept[i]])];
    }
  }

  /** The signatures counted at least `minFreq` times (at least once), each with its count, in
      ascending order: one list, whatever order the counters are enumerated in. */
  method ExtractNGrams(sequences: seq<seq<string>>, size: int, minFreq: int) returns (out: seq<CountedNGram>)
    ensures size < 1 ==> out == []
    ensures Lex.StrictlySorted(SignaturesOf(out))
    ensures size >= 1 ==> forall g :: g in out <==>
              g.count == NGramCount(sequences, size, g.signature) && g.count >= 1 && g.count >= minFreq
  {
    if size < 1 {
      return [];
    }
    var counts := CountNGrams(sequences, size);
    var kept := Lex.SortedElements(set sig | sig in counts && counts[sig] >= Threshold(minFreq));
    out := ListCounts(counts, kept);
    assert SignaturesOf(out) == kept;
    KeptCounts(Signatures(AllWindows(sequences, size)), minFreq, kept, out);
  }
}

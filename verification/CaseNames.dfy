/** The name converters of cmd/cli/scaffold/helpers.go, for any tables of upper and lower case: splitWords,
    ToPascalCase, ToCamelCase, ToSnakeCase and capitalizeFirst. */
module CaseNames {

  import opened Prelude

  // ---- Letters ----

  /** What the tables of package unicode say about characters. */
  datatype Casing = Casing(isUpper: char -> bool, isLower: char -> bool, toUpper: char -> char, toLower: char -> char)

  function Lower(tab: Casing, s: string): (r: string)
    ensures |r| == |s|
    ensures forall i :: 0 <= i < |s| ==> r[i] == tab.toLower(s[i])
  {
    seq(|s|, i requires 0 <= i < |s| => tab.toLower(s[i]))
  }

  function Capitalize(tab: Casing, s: string): (r: string)
    ensures |r| == |s|
  {
    if s == "" then "" else [tab.toUpper(s[0])] + Lower(tab, s[1..])
  }

  /** The in-place update of the rune slice. */
  method CapitalizeFirst(tab: Casing, s: string) returns (r: string)
    ensures r == Capitalize(tab, s) && |r| == |s|
    ensures s != "" ==> r[0] == tab.toUpper(s[0]) && forall i :: 1 <= i < |s| ==> r[i] == tab.toLower(s[i])
  {
    if s == "" {
      return s;
    }
    var runes := new char[|s|](i requires 0 <= i < |s| => s[i]);
    runes[0] := tab.toUpper(runes[0]);
    for i := 1 to |s|
      invariant forall k :: i <= k < |s| ==> runes[k] == s[k]
      invariant runes[0] == tab.toUpper(s[0])
      invariant forall k :: 1 <= k < i ==> runes[k] == tab.toLower(s[k])
    {
      runes[i] := tab.toLower(runes[i]);
    }
    assert runes[..] == Capitalize(tab, s);
    return runes[..];
  }

  // ---- Splitting into words ----

  predicate IsSeparator(c: char) { c == ' ' || c == '_' || c == '-' }

  function Spaces(s: string): (r: string)
    ensures |r| == |s|
    ensures forall i :: 0 <= i < |s| ==> r[i] == if IsSeparator(s[i]) then ' ' else s[i]
  {
    seq(|s|, i requires 0 <= i < |s| => if IsSeparator(s[i]) then ' ' else s[i])
  }

  /** Whether a new word begins in front of `s`, given the word collected so far. */
  predicate Breaks(tab: Casing, current: string, s: string)
    requires s != ""
  {
    && tab.isUpper(s[0]) && current != ""
    && (tab.isLower(Last(current)) || (tab.isUpper(Last(current)) && |s| > 1 && tab.isLower(s[1])))
  }

  function Close(current: string): seq<string> {
    if current == "" then [] else [current]
  }

  function Words(tab: Casing, current: string, s: string): seq<string>
    decreases |s|
  {
    if s == "" then Close(current)
    else if s[0] == ' ' then Close(current) + Words(tab, "", s[1..])
    else if Breaks(tab, current, s) then [current] + Words(tab, [s[0]], s[1..])
    else Words(tab, current + [s[0]], s[1..])
  }

  function WordsOf(tab: Casing, s: string): seq<string> {
    Words(tab, "", Spaces(s))
  }

  lemma {:induction false} WordsStep(tab: Casing, words: seq<string>, current: string, s: string)
    requires s != ""
    ensures words + Words(tab, current, s) ==
            if s[0] == ' ' then words + Close(current) + Words(tab, "", s[1..])
            else if Breaks(tab, current, s) then words + [current] + Words(tab, [s[0]], s[1..])
            else words + Words(tab, current + [s[0]], s[1..])
  {
    if s[0] == ' ' {
      assert words + (Close(current) + Words(tab, "", s[1..])) == words + Close(current) + Words(tab, "", s[1..]);
    } else if Breaks(tab, current, s) {
      assert words + ([current] + Words(tab, [s[0]], s[1..])) == words + [current] + Words(tab, [s[0]], s[1..]);
    }
  }

  method SplitWords(tab: Casing, s: string) returns (words: seq<string>)
    ensures words == WordsOf(tab, s)
  {
    var runes := Spaces(s);
    words := [];
    var current: string := "";
    for i := 0 to |runes|
      invariant current != "" ==> i > 0 && Last(current) == runes[i - 1]
      invariant WordsOf(tab, s) == words + Words(tab, current, runes[i..])
    {
      var r := runes[i];
      assert runes[i..][1..] == runes[i + 1..];
      WordsStep(tab, words, current, runes[i..]);
      assert words + [] == words && [] + [r] == [r];
      if r == ' ' {
        if current != "" {
          words := words + [current];
          current := "";
        }
        continue;
      }
      if tab.isUpper(r) && current != "" {
        var prev := runes[i - 1];
        if tab.isLower(prev) {
          words := words + [current];
          current := "";
        } else if tab.isUpper(prev) && i + 1 < |runes| && tab.isLower(runes[i + 1]) {
          words := words + [current];
          current := "";
        }
      }
      current := current + [r];
    }
    if current != "" {
      words := words + [current];
    }
  }

  // ---- The converters ----

  function LowerAll(tab: Casing, words: seq<string>): (r: seq<string>)
    ensures |r| == |words|
  {
    if words == [] then [] else [Lower(tab, words[0])] + LowerAll(tab, words[1..])
  }

  function Join(words: seq<string>): string {
    if words == [] then ""
    else if |words| == 1 then words[0]
    else words[0] + "_" + Join(words[1..])
  }

  function Glue(tab: Casing, words: seq<string>): string {
    if words == [] then "" else Capitalize(tab, words[0]) + Glue(tab, words[1..])
  }

  function Pascal(tab: Casing, s: string): string {
    Glue(tab, WordsOf(tab, s))
  }

  function LowerFirst(tab: Casing, s: string): string {
    if s == "" then "" else s[0 := tab.toLower(s[0])]
  }

  function Camel(tab: Casing, s: string): string {
    LowerFirst(tab, Pascal(tab, s))
  }

  function Snake(tab: Casing, s: string): string {
    Join(LowerAll(tab, WordsOf(tab, s)))
  }

  lemma {:induction false} GlueStep(tab: Casing, r: string, words: seq<string>)
    requires words != []
    ensures r + Glue(tab, words) == r + Capitalize(tab, words[0]) + Glue(tab, words[1..])
  {
  }

  method ToPascalCase(tab: Casing, s: string) returns (r: string)
    ensures r == Pascal(tab, s)
  {
    var words := SplitWords(tab, s);
    r := "";
    for i := 0 to |words|
      invariant Pascal(tab, s) == r + Glue(tab, words[i..])
    {
      GlueStep(tab, r, words[i..]);
      assert words[i..][1..] == words[i + 1..];
      if words[i] == "" {
        assert r + "" == r;
        continue;
      }
      var c := CapitalizeFirst(tab, words[i]);
      r := r + c;
    }
  }

  method ToCamelCase(tab: Casing, s: string) returns (r: string)
    ensures r == Camel(tab, s)
    ensures var pascal := Pascal(tab, s);
            |r| == |pascal| && (r != "" ==> r[0] == tab.toLower(pascal[0]) && r[1..] == pascal[1..])
  {
    var pascal := ToPascalCase(tab, s);
    if pascal == "" {
      return "";
    }
    var runes := new char[|pascal|](i requires 0 <= i < |pascal| => pascal[i]);
    runes[0] := tab.toLower(runes[0]);
    return runes[..];
  }

  method ToSnakeCase(tab: Casing, s: string) returns (r: string)
    ensures r == Snake(tab, s)
  {
    var words := SplitWords(tab, s);
    WordsAreWhole(tab, "", Spaces(s));
    var lowered: seq<string> := [];
    assert words[0..] == words && [] + LowerAll(tab, words) == LowerAll(tab, words);
    for i := 0 to |words|
      invariant LowerAll(tab, words) == lowered + LowerAll(tab, words[i..])
    {
      assert words[i..][1..] == words[i + 1..];
      var w := words[i];
      if w == "" {
        continue;
      }
      lowered := lowered + [Lower(tab, w)];
    }
    assert lowered + [] == lowered;
    r := Join(lowered);
  }

  // ---- Splitting undoes joining ----

  predicate Whole(w: string) {
    w != "" && forall i :: 0 <= i < |w| ==> !IsSeparator(w[i])
  }

  predicate NoUpper(tab: Casing, w: string) {
    forall i :: 0 <= i < |w| ==> !tab.isUpper(w[i])
  }

  predicate AllWhole(words: seq<string>) {
    forall i :: 0 <= i < |words| ==> Whole(words[i])
  }

  /** A word of a snake_case name: no separator and no capital in it, and not empty. */
  predicate Plain(tab: Casing, w: string) {
    Whole(w) && NoUpper(tab, w)
  }

  predicate AllPlain(tab: Casing, words: seq<string>) {
    forall i :: 0 <= i < |words| ==> Plain(tab, words[i])
  }

  function Flat(words: seq<string>): string {
    if words == [] then "" else words[0] + Flat(words[1..])
  }

  function NonSpaces(s: string): string {
    if s == "" then "" else (if s[0] == ' ' then "" else [s[0]]) + NonSpaces(s[1..])
  }

  predicate OnlySpaces(s: string) {
    forall i :: 0 <= i < |s| ==> IsSeparator(s[i]) ==> s[i] == ' '
  }

  /** The words are exactly the characters that separate nothing, in order; none of them is empty. */
  lemma {:induction false} WordsAreWhole(tab: Casing, current: string, s: string)
    requires (current == "" || Whole(current)) && OnlySpaces(s)
    ensures AllWhole(Words(tab, current, s)) && Flat(Words(tab, current, s)) == current + NonSpaces(s)
    decreases |s|
  {
    if s == "" {
      CloseIsWhole(current, [], "");
    } else if s[0] == ' ' {
      WordsAreWhole(tab, "", s[1..]);
      CloseIsWhole(current, Words(tab, "", s[1..]), NonSpaces(s[1..]));
    } else {
      var c := s[0];
      assert s[1..] + [] == s[1..];
      if Breaks(tab, current, s) {
        WordsAreWhole(tab, [c], s[1..]);
        CloseIsWhole(current, Words(tab, [c], s[1..]), [c] + NonSpaces(s[1..]));
      } else {
        WordsAreWhole(tab, current + [c], s[1..]);
        assert current + [c] + NonSpaces(s[1..]) == current + ([c] + NonSpaces(s[1..]));
      }
    }
  }

  lemma {:induction false} CloseIsWhole(current: string, words: seq<string>, text: string)
    requires (current == "" || Whole(current)) && AllWhole(words) && Flat(words) == text
    ensures AllWhole(Close(current) + words) && Flat(Close(current) + words) == current + text
  {
    if current == "" {
      assert Close(current) + words == words;
    } else {
      assert ([current] + words)[1..] == words;
    }
  }

  /** Inside a run of characters that are neither spaces nor capitals no word ends. */
  lemma {:induction false} InsideWord(tab: Casing, current: string, t: string, rest: string)
    requires forall i :: 0 <= i < |t| ==> !tab.isUpper(t[i]) && t[i] != ' '
    ensures Words(tab, current, t + rest) == Words(tab, current + t, rest)
    decreases |t|
  {
    if t == "" {
      assert t + rest == rest && current + t == current;
    } else {
      assert (t + rest)[1..] == t[1..] + rest;
      assert current + [t[0]] + t[1..] == current + t;
      InsideWord(tab, current + [t[0]], t[1..], rest);
    }
  }

  lemma {:induction false} SpacesConcat(a: string, b: string)
    ensures Spaces(a + b) == Spaces(a) + Spaces(b)
  {
  }

  lemma {:induction false} SpacesOfWord(w: string)
    requires forall i :: 0 <= i < |w| ==> !IsSeparator(w[i])
    ensures Spaces(w) == w
  {
  }

  lemma {:induction false} SplitFirstWord(tab: Casing, w: string, rest: string)
    requires Plain(tab, w)
    ensures WordsOf(tab, w + "_" + rest) == [w] + WordsOf(tab, rest)
  {
    SpacesOfWord(w);
    SpacesConcat(w + "_", rest);
    SpacesConcat(w, "_");
    var tail := " " + Spaces(rest);
    assert Spaces("_") == " ";
    assert w + " " + Spaces(rest) == w + tail;
    InsideWord(tab, "", w, tail);
    assert "" + w == w && tail[1..] == Spaces(rest);
  }

  lemma {:induction false} SplitOneWord(tab: Casing, w: string)
    requires Plain(tab, w)
    ensures WordsOf(tab, w) == [w]
  {
    SpacesOfWord(w);
    InsideWord(tab, "", w, "");
    assert w + "" == w && "" + w == w;
  }

  lemma {:induction false} SplitUndoesJoin(tab: Casing, words: seq<string>)
    requires AllPlain(tab, words)
    ensures WordsOf(tab, Join(words)) == words
    decreases |words|
  {
    if words == [] {
      assert Spaces("") == "";
    } else {
      assert Plain(tab, words[0]);
      assert words == [words[0]] + words[1..];
      if |words| == 1 {
        SplitOneWord(tab, words[0]);
      } else {
        assert AllPlain(tab, words[1..]);
        SplitUndoesJoin(tab, words[1..]);
        SplitFirstWord(tab, words[0], Join(words[1..]));
      }
    }
  }

  // ---- Converting twice ----

  /** The lower case of a character is not a separator and not a capital, and is its own lower case. */
  predicate Settles(tab: Casing, c: char) {
    var l := tab.toLower(c);
    !IsSeparator(l) && !tab.isUpper(l) && tab.toLower(l) == l
  }

  predicate SettledWord(tab: Casing, w: string) {
    Whole(w) && forall i :: 0 <= i < |w| ==> Settles(tab, w[i])
  }

  predicate AllSettled(tab: Casing, words: seq<string>) {
    forall i :: 0 <= i < |words| ==> SettledWord(tab, words[i])
  }

  predicate CharsSettle(tab: Casing, s: string) {
    forall i :: 0 <= i < |s| ==> IsSeparator(s[i]) || Settles(tab, s[i])
  }

  lemma {:induction false} CloseSettles(tab: Casing, current: string, words: seq<string>)
    requires (current == "" || SettledWord(tab, current)) && AllSettled(tab, words)
    ensures AllSettled(tab, Close(current) + words)
  {
  }

  lemma {:induction false} WordsSettle(tab: Casing, current: string, s: string)
    requires (current == "" || SettledWord(tab, current)) && OnlySpaces(s) && CharsSettle(tab, s)
    ensures AllSettled(tab, Words(tab, current, s))
    decreases |s|
  {
    if s == "" {
      CloseSettles(tab, current, []);
      assert Close(current) + [] == Close(current);
    } else if s[0] == ' ' {
      WordsSettle(tab, "", s[1..]);
      CloseSettles(tab, current, Words(tab, "", s[1..]));
    } else if Breaks(tab, current, s) {
      WordsSettle(tab, [s[0]], s[1..]);
      CloseSettles(tab, current, Words(tab, [s[0]], s[1..]));
    } else {
      WordsSettle(tab, current + [s[0]], s[1..]);
    }
  }

  lemma {:induction false} LowerSettles(tab: Casing, w: string)
    requires SettledWord(tab, w)
    ensures Plain(tab, Lower(tab, w)) && Lower(tab, Lower(tab, w)) == Lower(tab, w)
  {
    assert forall i :: 0 <= i < |w| ==> Settles(tab, w[i]);
  }

  lemma {:induction false} LowerIsPlain(tab: Casing, words: seq<string>)
    requires AllSettled(tab, words)
    ensures AllPlain(tab, LowerAll(tab, words)) && LowerAll(tab, LowerAll(tab, words)) == LowerAll(tab, words)
    decreases |words|
  {
    if words != [] {
      assert SettledWord(tab, words[0]) && AllSettled(tab, words[1..]);
      LowerSettles(tab, words[0]);
      LowerIsPlain(tab, words[1..]);
      LowerFirstWord(tab, words[0], words[1..]);
      LowerFirstWord(tab, Lower(tab, words[0]), LowerAll(tab, words[1..]));
    }
  }

  /** Where every character settles, converting twice is converting once. */
  lemma {:induction false} SnakeIsIdempotent(tab: Casing, s: string)
    requires CharsSettle(tab, s)
    ensures Snake(tab, Snake(tab, s)) == Snake(tab, s)
  {
    WordsSettle(tab, "", Spaces(s));
    LowerIsPlain(tab, WordsOf(tab, s));
    SplitUndoesJoin(tab, LowerAll(tab, WordsOf(tab, s)));
  }

  /** The tables have the letter A. */
  predicate HasLetterA(tab: Casing) {
    tab.isUpper('A') && !tab.isLower('A') && tab.toLower('A') == 'a' && tab.isLower('a')
  }

  lemma {:induction false} OneCharacter(tab: Casing, x: char)
    ensures WordsOf(tab, [x]) == if IsSeparator(x) then [] else [[x]]
    ensures Snake(tab, [x]) == if IsSeparator(x) then "" else [tab.toLower(x)]
  {
    assert Spaces([x]) == [if IsSeparator(x) then ' ' else x];
    assert Words(tab, "", "") == [] && Words(tab, [x], "") == [[x]];
    assert [x][1..] == "" == [' '][1..] && "" + [x] == [x];
    assert Lower(tab, [x]) == [tab.toLower(x)];
  }

  lemma {:induction false} TwoCharacters(tab: Casing, x: char, y: char)
    requires !IsSeparator(x) && !IsSeparator(y)
    ensures WordsOf(tab, [x, y]) == if Breaks(tab, [x], [y]) then [[x], [y]] else [[x, y]]
  {
    assert Spaces([x, y]) == [x, y];
    assert [x, y][1..] == [y] && [y][1..] == "";
    assert Words(tab, [x], [y]) == (if Breaks(tab, [x], [y]) then [[x], [y]] else [[x, y]]) by {
      assert [x] + [y] == [x, y] && Words(tab, [y], "") == [[y]] && Words(tab, [x, y], "") == [[x, y]];
    }
    assert "" + [x] == [x];
  }

  lemma {:induction false} SnakeOfTwo(tab: Casing, x: char, y: char)
    requires !IsSeparator(x) && !IsSeparator(y)
    ensures Breaks(tab, [x], [y]) ==> |Snake(tab, [x, y])| == 3
    ensures !Breaks(tab, [x], [y]) ==> Snake(tab, [x, y]) == [tab.toLower(x), tab.toLower(y)]
  {
    TwoCharacters(tab, x, y);
    if Breaks(tab, [x], [y]) {
      LowerFirstWord(tab, [x], [[y]]);
      LowerFirstWord(tab, [y], []);
      assert [[x]] + [[y]] == [[x], [y]] && [[y]] + [] == [[y]];
      assert LowerAll(tab, [[x], [y]]) == [Lower(tab, [x]), Lower(tab, [y])];
      JoinCons(Lower(tab, [x]), [Lower(tab, [y])]);
      assert Snake(tab, [x, y]) == Lower(tab, [x]) + "_" + Lower(tab, [y]);
    } else {
      LowerFirstWord(tab, [x, y], []);
      assert Lower(tab, [x, y]) == [tab.toLower(x), tab.toLower(y)];
    }
  }

  /** A character that does not settle makes a name that changes when it is converted again. */
  lemma {:induction false} UnsettledChanges(tab: Casing, c: char) returns (s: string)
    requires HasLetterA(tab) && !IsSeparator(c) && !Settles(tab, c)
    ensures Snake(tab, Snake(tab, s)) != Snake(tab, s)
  {
    var l := tab.toLower(c);
    if !IsSeparator(l) && tab.isUpper(l) {
      SnakeOfTwo(tab, 'A', c);
      SnakeOfTwo(tab, 'a', l);
      return ['A', c];
    } else {
      OneCharacter(tab, c);
      OneCharacter(tab, l);
      return [c];
    }
  }

  /** Converting twice is converting once for every string exactly if every character settles. */
  lemma {:induction false} SnakeIsIdempotentIff(tab: Casing)
    requires HasLetterA(tab)
    ensures (forall s :: Snake(tab, Snake(tab, s)) == Snake(tab, s)) <==>
            (forall c :: IsSeparator(c) || Settles(tab, c))
  {
    if forall c :: IsSeparator(c) || Settles(tab, c) {
      forall s
        ensures Snake(tab, Snake(tab, s)) == Snake(tab, s)
      {
        SnakeIsIdempotent(tab, s);
      }
    } else {
      var c :| !IsSeparator(c) && !Settles(tab, c);
      var s := UnsettledChanges(tab, c);
    }
  }

  // ---- Reading a capitalised name back ----

  /** A character that is its own lower case and that of its upper case, which is a capital exactly if the
      character is a lower-case letter. */
  predicate Pairs(tab: Casing, c: char) {
    var up := tab.toUpper(c);
    && !tab.isUpper(c) && tab.toLower(c) == c
    && tab.toLower(up) == c && (tab.isUpper(up) <==> tab.isLower(c)) && !tab.isLower(up) && !IsSeparator(up)
  }

  predicate Regular(tab: Casing, w: string) {
    Whole(w) && forall i :: 0 <= i < |w| ==> Pairs(tab, w[i])
  }

  predicate AllRegular(tab: Casing, words: seq<string>) {
    forall i :: 0 <= i < |words| ==> Regular(tab, words[i])
  }

  lemma {:induction false} RegularIsPlain(tab: Casing, w: string)
    requires Regular(tab, w)
    ensures Plain(tab, w) && Lower(tab, w) == w
  {
    assert forall i :: 0 <= i < |w| ==> Pairs(tab, w[i]);
  }

  lemma {:induction false} AllRegularArePlain(tab: Casing, words: seq<string>)
    requires AllRegular(tab, words)
    ensures AllPlain(tab, words)
  {
    forall i | 0 <= i < |words|
      ensures Plain(tab, words[i])
    {
      RegularIsPlain(tab, words[i]);
    }
  }

  /** Whether the splitter separates a capitalised word from text that ends in `last`. */
  predicate Joint(tab: Casing, last: char, v: string)
    requires v != ""
  {
    tab.isLower(v[0]) && (tab.isLower(last) || (tab.isUpper(last) && |v| > 1 && tab.isLower(v[1])))
  }

  /** The last character of a word as it stands in the name. */
  function Ending(tab: Casing, w: string, capitalised: bool): char
    requires w != ""
  {
    Last(if capitalised then Capitalize(tab, w) else w)
  }

  /** Neighbours that are not separated again run together: `current` is the word so far. */
  function MergeFrom(tab: Casing, current: string, last: char, words: seq<string>): seq<string>
    requires AllRegular(tab, words)
    decreases |words|
  {
    if words == [] then [current]
    else
      assert Regular(tab, words[0]) && AllRegular(tab, words[1..]);
      var (v, rest) := (words[0], words[1..]);
      if Joint(tab, last, v) then [current] + MergeFrom(tab, v, Ending(tab, v, true), rest)
      else MergeFrom(tab, current + v, Ending(tab, v, true), rest)
  }

  /** The words ToSnakeCase finds in the name made of `words`, whose first is capitalised or not. */
  function Merge(tab: Casing, words: seq<string>, capitalised: bool): seq<string>
    requires AllRegular(tab, words)
  {
    if words == [] then []
    else
      assert Regular(tab, words[0]) && AllRegular(tab, words[1..]);
      MergeFrom(tab, words[0], Ending(tab, words[0], capitalised), words[1..])
  }

  lemma {:induction false} CapitalizedWord(tab: Casing, v: string)
    requires Regular(tab, v)
    ensures var c := Capitalize(tab, v);
            && c[1..] == v[1..] && Lower(tab, c) == v && Spaces(c) == c
            && (tab.isUpper(c[0]) <==> tab.isLower(v[0])) && !tab.isLower(c[0])
  {
    assert Lower(tab, v[1..]) == v[1..];
  }

  lemma {:induction false} NextIsNotLower(tab: Casing, words: seq<string>)
    requires AllRegular(tab, words) && Glue(tab, words) != ""
    ensures !tab.isLower(Glue(tab, words)[0])
  {
    assert Regular(tab, words[0]);
    CapitalizedWord(tab, words[0]);
  }

  /** A capital begins a new word exactly at a joint. */
  lemma {:induction false} BreaksAtJoint(tab: Casing, current: string, v: string, rest: seq<string>)
    requires Regular(tab, v) && AllRegular(tab, rest) && current != ""
    ensures Capitalize(tab, v) + Glue(tab, rest) != ""
    ensures Breaks(tab, current, Capitalize(tab, v) + Glue(tab, rest)) <==> Joint(tab, Last(current), v)
  {
    CapitalizedWord(tab, v);
    if Glue(tab, rest) != "" {
      NextIsNotLower(tab, rest);
    }
  }

  lemma {:induction false} TakeWord(tab: Casing, current: string, v: string, rest: string)
    requires Regular(tab, v)
    ensures Words(tab, current + [Capitalize(tab, v)[0]], v[1..] + rest) ==
            Words(tab, current + Capitalize(tab, v), rest)
  {
    CapitalizedWord(tab, v);
    var c := Capitalize(tab, v);
    InsideWord(tab, current + [c[0]], v[1..], rest);
    assert current + [c[0]] + v[1..] == current + c;
  }

  lemma {:induction false} LowerConcat(tab: Casing, a: string, b: string)
    ensures Lower(tab, a + b) == Lower(tab, a) + Lower(tab, b)
  {
  }

  lemma {:induction false} GlueTail(tab: Casing, v: string, rest: string)
    requires Regular(tab, v)
    ensures (Capitalize(tab, v) + rest)[0] == Capitalize(tab, v)[0] != ' '
    ensures (Capitalize(tab, v) + rest)[1..] == v[1..] + rest
  {
    CapitalizedWord(tab, v);
    assert Spaces(Capitalize(tab, v))[0] == Capitalize(tab, v)[0];
    assert (Capitalize(tab, v) + rest)[1..] == Capitalize(tab, v)[1..] + rest;
  }

  /** One capitalised word is read: a new word begins, or the current one goes on. */
  lemma {:induction false} ReadWord(tab: Casing, current: string, v: string, rest: seq<string>)
    requires Regular(tab, v) && AllRegular(tab, rest) && current != ""
    ensures Words(tab, current, Capitalize(tab, v) + Glue(tab, rest)) ==
            if Joint(tab, Last(current), v) then [current] + Words(tab, Capitalize(tab, v), Glue(tab, rest))
            else Words(tab, current + Capitalize(tab, v), Glue(tab, rest))
  {
    GlueTail(tab, v, Glue(tab, rest));
    BreaksAtJoint(tab, current, v, rest);
    TakeWord(tab, "", v, Glue(tab, rest));
    TakeWord(tab, current, v, Glue(tab, rest));
    assert "" + [Capitalize(tab, v)[0]] == [Capitalize(tab, v)[0]] && "" + Capitalize(tab, v) == Capitalize(tab, v);
  }

  lemma {:induction false} LowerFirstWord(tab: Casing, word: string, words: seq<string>)
    ensures LowerAll(tab, [word] + words) == [Lower(tab, word)] + LowerAll(tab, words)
  {
    assert ([word] + words)[1..] == words;
  }

  lemma {:induction false} ReadGlue(tab: Casing, current: string, words: seq<string>)
    requires AllRegular(tab, words) && current != ""
    ensures LowerAll(tab, Words(tab, current, Glue(tab, words))) ==
            MergeFrom(tab, Lower(tab, current), Last(current), words)
    decreases |words|
  {
    if words == [] {
      LowerFirstWord(tab, current, []);
      assert [current] + [] == [current];
    } else {
      var (v, rest) := (words[0], words[1..]);
      assert Regular(tab, v) && AllRegular(tab, rest);
      CapitalizedWord(tab, v);
      ReadWord(tab, current, v, rest);
      if Joint(tab, Last(current), v) {
        ReadGlue(tab, Capitalize(tab, v), rest);
        LowerFirstWord(tab, current, Words(tab, Capitalize(tab, v), Glue(tab, rest)));
      } else {
        LowerConcat(tab, current, Capitalize(tab, v));
        ReadGlue(tab, current + Capitalize(tab, v), rest);
      }
    }
  }

  lemma {:induction false} GlueHasNoSeparator(tab: Casing, words: seq<string>)
    requires AllRegular(tab, words)
    ensures Spaces(Glue(tab, words)) == Glue(tab, words)
    decreases |words|
  {
    if words == [] {
      assert Spaces("") == "";
    } else {
      assert Regular(tab, words[0]) && AllRegular(tab, words[1..]);
      CapitalizedWord(tab, words[0]);
      GlueHasNoSeparator(tab, words[1..]);
      SpacesConcat(Capitalize(tab, words[0]), Glue(tab, words[1..]));
    }
  }

  lemma {:induction false} FirstWordOfName(tab: Casing, u: string, first: string, rest: string)
    requires Regular(tab, u) && first != "" && first[0] != ' ' && first[1..] == u[1..]
    ensures Words(tab, "", first + rest) == Words(tab, first, rest)
  {
    assert (first + rest)[1..] == u[1..] + rest;
    InsideWord(tab, [first[0]], u[1..], rest);
    assert "" + [first[0]] == [first[0]] && [first[0]] + u[1..] == first;
  }

  /** ToSnakeCase of a name: its words with the unseparated neighbours run together. */
  lemma {:induction false} SnakeOfName(tab: Casing, u: string, first: string, rest: seq<string>)
    requires Regular(tab, u) && AllRegular(tab, rest) && (first == u || first == Capitalize(tab, u))
    ensures Snake(tab, first + Glue(tab, rest)) == Join(MergeFrom(tab, u, Last(first), rest))
  {
    CapitalizedWord(tab, u);
    SpacesOfWord(u);
    SpacesConcat(first, Glue(tab, rest));
    GlueHasNoSeparator(tab, rest);
    assert Lower(tab, u) == u && Spaces(first)[0] == first[0];
    FirstWordOfName(tab, u, first, Glue(tab, rest));
    ReadGlue(tab, first, rest);
  }

  lemma {:induction false} LowerFirstUndoes(tab: Casing, u: string, rest: string)
    requires Regular(tab, u)
    ensures LowerFirst(tab, Capitalize(tab, u) + rest) == u + rest
  {
    CapitalizedWord(tab, u);
    ReplaceFirst(Capitalize(tab, u), u, rest);
  }

  lemma {:induction false} ReplaceFirst(c: string, u: string, rest: string)
    requires c != "" && u != "" && c[1..] == u[1..]
    ensures (c + rest)[0 := u[0]] == u + rest
  {
    assert (c + rest)[1..] == u[1..] + rest && (u + rest)[1..] == u[1..] + rest;
    var t := (c + rest)[0 := u[0]];
    assert t[1..] == (c + rest)[1..];
    assert t == [t[0]] + t[1..] && u + rest == [u[0]] + (u + rest)[1..];
  }

  lemma {:induction false} PascalOfJoin(tab: Casing, words: seq<string>)
    requires AllRegular(tab, words)
    ensures Pascal(tab, Join(words)) == Glue(tab, words)
    ensures Camel(tab, Join(words)) == if words == [] then "" else words[0] + Glue(tab, words[1..])
  {
    SplitUndoesJoin(tab, words);
    if words != [] {
      assert Regular(tab, words[0]);
      LowerFirstUndoes(tab, words[0], Glue(tab, words[1..]));
    }
  }

  lemma {:induction false} SnakeOfPascalAndCamel(tab: Casing, words: seq<string>)
    requires AllRegular(tab, words)
    ensures Snake(tab, Pascal(tab, Join(words))) == Join(Merge(tab, words, true))
    ensures Snake(tab, Camel(tab, Join(words))) == Join(Merge(tab, words, false))
  {
    PascalOfJoin(tab, words);
    if words == [] {
      assert Spaces("") == "";
    } else {
      assert Regular(tab, words[0]) && AllRegular(tab, words[1..]);
      SnakeOfName(tab, words[0], Capitalize(tab, words[0]), words[1..]);
      SnakeOfName(tab, words[0], words[0], words[1..]);
    }
  }

  // ---- When nothing runs together ----

  lemma {:induction false} JoinCons(w: string, words: seq<string>)
    ensures Join([w] + words) == if words == [] then w else w + "_" + Join(words)
  {
    assert ([w] + words)[1..] == words;
  }

  ghost predicate JointsFrom(tab: Casing, last: char, words: seq<string>)
    requires AllRegular(tab, words)
    decreases |words|
  {
    if words == [] then true
    else
      assert Regular(tab, words[0]) && AllRegular(tab, words[1..]);
      Joint(tab, last, words[0]) && JointsFrom(tab, Ending(tab, words[0], true), words[1..])
  }

  /** Running words together costs separators, so the text tells whether it happened. */
  lemma {:induction false} MergeLength(tab: Casing, current: string, last: char, words: seq<string>)
    requires AllRegular(tab, words)
    ensures MergeFrom(tab, current, last, words) != []
    ensures JointsFrom(tab, last, words) ==> MergeFrom(tab, current, last, words) == [current] + words
    ensures !JointsFrom(tab, last, words) ==> |Join(MergeFrom(tab, current, last, words))| < |Join([current] + words)|
    decreases |words|
  {
    JoinCons(current, words);
    if words == [] {
      assert [current] + words == [current];
    } else {
      var (v, rest) := (words[0], words[1..]);
      assert Regular(tab, v) && AllRegular(tab, rest);
      assert words == [v] + rest;
      JoinCons(v, rest);
      if Joint(tab, last, v) {
        MergeLength(tab, v, Ending(tab, v, true), rest);
        JoinCons(current, MergeFrom(tab, v, Ending(tab, v, true), rest));
      } else {
        MergeLength(tab, current + v, Ending(tab, v, true), rest);
        JoinCons(current + v, rest);
      }
    }
  }

  lemma {:induction false} MergeKeepsIff(tab: Casing, words: seq<string>, capitalised: bool)
    requires AllRegular(tab, words) && words != []
    ensures Regular(tab, words[0]) && AllRegular(tab, words[1..])
    ensures Join(Merge(tab, words, capitalised)) == Join(words) <==>
            JointsFrom(tab, Ending(tab, words[0], capitalised), words[1..])
  {
    assert Regular(tab, words[0]);
    MergeLength(tab, words[0], Ending(tab, words[0], capitalised), words[1..]);
    assert words == [words[0]] + words[1..];
  }

  // ---- Words of letters ----

  /** A word of lower-case letters with capitals of their own. */
  predicate Letters(tab: Casing, w: string) {
    Regular(tab, w) && forall i :: 0 <= i < |w| ==> tab.isLower(w[i])
  }

  predicate AllLetters(tab: Casing, words: seq<string>) {
    forall i :: 0 <= i < |words| ==> Letters(tab, words[i])
  }

  /** No two neighbours from position `from` on are both one letter long. */
  predicate NoSinglePairs(words: seq<string>, from: nat) {
    forall i :: from <= i < |words| - 1 ==> |words[i]| > 1 || |words[i + 1]| > 1
  }

  lemma {:induction false} LettersAreRegular(tab: Casing, words: seq<string>)
    requires AllLetters(tab, words)
    ensures AllRegular(tab, words)
  {
    forall i | 0 <= i < |words|
      ensures Regular(tab, words[i])
    {
      assert Letters(tab, words[i]);
    }
  }

  lemma {:induction false} JointOfLetters(tab: Casing, u: string, v: string, capitalised: bool)
    requires Letters(tab, u) && Letters(tab, v)
    ensures Joint(tab, Ending(tab, u, capitalised), v) <==> !capitalised || |u| > 1 || |v| > 1
  {
    assert Regular(tab, u);
    CapitalizedWord(tab, u);
    assert Last(u) == u[|u| - 1];
    assert |u| > 1 ==> Last(Capitalize(tab, u)) == Last(u);
  }

  lemma {:induction false} NoSinglePairsFirst(words: seq<string>, from: nat)
    requires |words| > 1 && from <= 1
    ensures NoSinglePairs(words, from) <==>
            (from == 1 || |words[0]| > 1 || |words[1]| > 1) && NoSinglePairs(words[1..], 0)
  {
    var rest := words[1..];
    if NoSinglePairs(words, from) {
      forall i | 0 <= i < |rest| - 1
        ensures |rest[i]| > 1 || |rest[i + 1]| > 1
      {
        assert rest[i] == words[i + 1] && rest[i + 1] == words[i + 2];
      }
    }
    if NoSinglePairs(rest, 0) {
      forall i | 1 <= i < |words| - 1
        ensures |words[i]| > 1 || |words[i + 1]| > 1
      {
        assert words[i] == rest[i - 1] && words[i + 1] == rest[i];
      }
    }
  }

  lemma {:induction false} JointsOfLetters(tab: Casing, words: seq<string>, capitalised: bool)
    requires AllLetters(tab, words) && words != []
    ensures Letters(tab, words[0]) && AllRegular(tab, words[1..])
    ensures JointsFrom(tab, Ending(tab, words[0], capitalised), words[1..]) <==>
            NoSinglePairs(words, if capitalised then 0 else 1)
    decreases |words|
  {
    assert Letters(tab, words[0]);
    var rest := words[1..];
    assert AllLetters(tab, rest);
    LettersAreRegular(tab, rest);
    if rest != [] {
      assert Letters(tab, rest[0]);
      JointOfLetters(tab, words[0], rest[0], capitalised);
      JointsOfLetters(tab, rest, true);
      NoSinglePairsFirst(words, if capitalised then 0 else 1);
    }
  }

  /** On words of lowercase letters, ToSnakeCase undoes ToPascalCase exactly when no two neighbours are
      both one letter long; for ToCamelCase the first word does not matter. */
  lemma {:induction false} RoundTrip(tab: Casing, words: seq<string>)
    requires AllLetters(tab, words)
    ensures Snake(tab, Pascal(tab, Join(words))) == Join(words) <==> NoSinglePairs(words, 0)
    ensures Snake(tab, Camel(tab, Join(words))) == Join(words) <==> NoSinglePairs(words, 1)
  {
    LettersAreRegular(tab, words);
    SnakeOfPascalAndCamel(tab, words);
    if words != [] {
      MergeKeepsIff(tab, words, true);
      MergeKeepsIff(tab, words, false);
      JointsOfLetters(tab, words, true);
      JointsOfLetters(tab, words, false);
    }
  }

  /** Names made of different words differ, whether or not they can be read back. */
  lemma {:induction false} PascalIsInjective(tab: Casing, a: seq<string>, b: seq<string>)
    requires AllLetters(tab, a) && AllLetters(tab, b) && Pascal(tab, Join(a)) == Pascal(tab, Join(b))
    ensures a == b
  {
    LettersAreRegular(tab, a);
    LettersAreRegular(tab, b);
    PascalOfJoin(tab, a);
    PascalOfJoin(tab, b);
    GlueIsInjective(tab, a, b);
  }

  lemma {:induction false} FirstLength(tab: Casing, u: string, v: string, a: seq<string>, b: seq<string>)
    requires Letters(tab, u) && Letters(tab, v) && AllLetters(tab, a) && AllLetters(tab, b)
    requires Capitalize(tab, u) + Glue(tab, a) == Capitalize(tab, v) + Glue(tab, b)
    ensures |u| >= |v|
  {
    if |u| < |v| {
      var s := Capitalize(tab, u) + Glue(tab, a);
      assert Regular(tab, v);
      CapitalizedWord(tab, v);
      assert s[|u|] == Capitalize(tab, v)[1..][|u| - 1] == v[|u|];
      LettersAreRegular(tab, a);
      assert Glue(tab, a) != "" && s[|u|] == Glue(tab, a)[0];
      NextIsNotLower(tab, a);
    }
  }

  lemma {:induction false} GlueIsEmpty(tab: Casing, words: seq<string>)
    requires AllLetters(tab, words)
    ensures Glue(tab, words) == "" <==> words == []
  {
    if words != [] {
      assert Letters(tab, words[0]);
    }
  }

  lemma {:induction false} SplitEqual(a: string, x: string, b: string, y: string)
    requires |a| == |b| && a + x == b + y
    ensures a == b && x == y
  {
    assert (a + x)[..|a|] == a && (b + y)[..|a|] == b;
    assert (a + x)[|a|..] == x && (b + y)[|a|..] == y;
  }

  lemma {:induction false} SameHead(tab: Casing, a: seq<string>, b: seq<string>)
    requires AllLetters(tab, a) && AllLetters(tab, b) && Glue(tab, a) == Glue(tab, b) && a != [] && b != []
    ensures AllLetters(tab, a[1..]) && AllLetters(tab, b[1..]) && a[0] == b[0] && Glue(tab, a[1..]) == Glue(tab, b[1..])
  {
    assert Letters(tab, a[0]) && Letters(tab, b[0]);
    FirstLength(tab, a[0], b[0], a[1..], b[1..]);
    FirstLength(tab, b[0], a[0], b[1..], a[1..]);
    SplitEqual(Capitalize(tab, a[0]), Glue(tab, a[1..]), Capitalize(tab, b[0]), Glue(tab, b[1..]));
    assert Regular(tab, a[0]) && Regular(tab, b[0]);
    CapitalizedWord(tab, a[0]);
    CapitalizedWord(tab, b[0]);
  }

  lemma {:induction false} GlueIsInjective(tab: Casing, a: seq<string>, b: seq<string>)
    requires AllLetters(tab, a) && AllLetters(tab, b) && Glue(tab, a) == Glue(tab, b)
    ensures a == b
    decreases |a|
  {
    if a != [] && b != [] {
      SameHead(tab, a, b);
      GlueIsInjective(tab, a[1..], b[1..]);
      assert a == [a[0]] + a[1..] && b == [b[0]] + b[1..];
    } else if a != [] {
      GlueIsEmpty(tab, a);
    } else if b != [] {
      GlueIsEmpty(tab, b);
    }
  }

  // ---- ASCII ----

  const ASCII := Casing(
    c => 'A' <= c <= 'Z',
    c => 'a' <= c <= 'z',
    c => if 'a' <= c <= 'z' then c - 'a' + 'A' else c,
    c => if 'A' <= c <= 'Z' then c - 'A' + 'a' else c)

  /** With the letters of ASCII alone every character settles, and every other than a capital or a separator
      pairs. */
  lemma {:induction false} AsciiIsOrdinary(c: char)
    requires !IsSeparator(c)
    ensures HasLetterA(ASCII) && Settles(ASCII, c) && (Pairs(ASCII, c) <==> !ASCII.isUpper(c))
  {
    assert 'A' <= ASCII.toUpper(c) <= 'Z' ==> !IsSeparator(ASCII.toUpper(c));
  }
}

/** String operations of the Go standard library, as far as the parsers use them. */
module Text {

  import opened Prelude

  function IndexOf(s: string, c: char): (i: int)
    ensures -1 <= i < |s|
    ensures i == -1 ==> c !in s
    ensures i >= 0 ==> s[i] == c && c !in s[..i]
  {
    if s == "" then -1
    else if s[0] == c then 0
    else
      var i := IndexOf(s[1..], c);
      assert s == [s[0]] + s[1..];
      assert i >= 0 ==> s[..i + 1] == [s[0]] + s[1..][..i];
      if i < 0 then -1 else i + 1
  }

  lemma {:induction false} FirstOccurrence(line: string, c: char, rest: string)
    requires c !in line
    ensures IndexOf(line + [c] + rest, c) == |line|
    ensures (line + [c] + rest)[..|line|] == line && (line + [c] + rest)[|line| + 1..] == rest
  {
    var s := line + [c] + rest;
    if line != "" {
      assert line == [line[0]] + line[1..];
      FirstOccurrence(line[1..], c, rest);
      assert s[1..] == line[1..] + [c] + rest;
    }
  }

  // ---- Lines ----

  function DropCR(line: string): string {
    if line != "" && Last(line) == '\r' then Front(line) else line
  }

  /** The lines a scanner delivers: cut at line feeds, without a final carriage return. */
  function Lines(raw: string): seq<string>
    decreases |raw|
  {
    if raw == "" then []
    else
      var i := IndexOf(raw, '\n');
      if i < 0 then [DropCR(raw)] else [DropCR(raw[..i])] + Lines(raw[i + 1..])
  }

  lemma {:induction false} FirstLine(line: string, rest: string)
    requires '\n' !in line && '\r' !in line
    ensures Lines(line + "\n" + rest) == [line] + Lines(rest)
  {
    FirstOccurrence(line, '\n', rest);
  }

  lemma {:induction false} Reassociate(line: string, a: string, b: string)
    ensures line + "\n" + a + b == line + "\n" + (a + b)
  {
  }

  lemma {:induction false} PutBack(lines: seq<string>, rest: seq<string>)
    requires lines != []
    ensures [lines[0]] + (lines[1..] + rest) == lines + rest
  {
  }

  lemma {:induction false} FirstLines(lines: seq<string>, rest: string)
    requires PlainLines(lines)
    ensures Lines(Unlines(lines) + rest) == lines + Lines(rest)
    decreases |lines|
  {
    if lines == [] {
      assert Unlines(lines) + rest == rest && lines + Lines(rest) == Lines(rest);
    } else {
      var (line, more) := (lines[0], lines[1..]);
      PlainTail(lines);
      FirstLines(more, rest);
      Reassociate(line, Unlines(more), rest);
      FirstLine(line, Unlines(more) + rest);
      PutBack(lines, Lines(rest));
    }
  }

  predicate PlainLines(lines: seq<string>) {
    forall i :: 0 <= i < |lines| ==> '\n' !in lines[i] && '\r' !in lines[i]
  }

  lemma {:induction false} PlainTail(lines: seq<string>)
    requires lines != [] && PlainLines(lines)
    ensures '\n' !in lines[0] && '\r' !in lines[0] && PlainLines(lines[1..])
  {
  }

  /** Without a final line feed and carriage returns, the scanner delivers the pieces between the line feeds. */
  lemma {:induction false} LinesIsSplit(s: string)
    requires s != "" && Last(s) != '\n' && '\r' !in s
    ensures Lines(s) == Split(s)
    decreases |s|
  {
    var i := IndexOf(s, '\n');
    if i >= 0 {
      assert Last(s[i + 1..]) == Last(s);
      LinesIsSplit(s[i + 1..]);
    }
  }

  /** A piece has only characters of the text. */
  lemma {:induction false} SplitKeepsChars(s: string, c: char)
    requires c !in s
    ensures forall i :: 0 <= i < |Split(s)| ==> c !in Split(s)[i]
    decreases |s|
  {
    var i := IndexOf(s, '\n');
    if i >= 0 {
      var (line, rest) := (s[..i], s[i + 1..]);
      assert c !in line && c !in rest;
      SplitKeepsChars(rest, c);
      assert Split(s) == [line] + Split(rest);
    }
  }

  /** A first part without line feeds stays in the first piece. */
  lemma {:induction false} SplitPrefix(x: string, s: string)
    requires '\n' !in x
    ensures Split(s) != [] && Split(x + s) == [x + Split(s)[0]] + Split(s)[1..]
  {
    var i := IndexOf(s, '\n');
    if i < 0 {
      assert IndexOf(x + s, '\n') == -1;
      assert [s][1..] == [];
    } else {
      var (line, rest) := (s[..i], s[i + 1..]);
      assert x + s == (x + line) + ['\n'] + rest;
      FirstOccurrence(x + line, '\n', rest);
      assert ([line] + Split(rest))[1..] == Split(rest);
    }
  }

  /** The lines with a line feed after each. */
  function Unlines(lines: seq<string>): string {
    if lines == [] then "" else lines[0] + "\n" + Unlines(lines[1..])
  }

  function Split(content: string): seq<string>
    decreases |content|
  {
    var i := IndexOf(content, '\n');
    if i < 0 then [content] else [content[..i]] + Split(content[i + 1..])
  }

  predicate AreLines(lines: seq<string>) {
    forall i :: 0 <= i < |lines| ==> '\n' !in lines[i]
  }

  lemma {:induction false} CutAtLine(content: string, i: nat)
    requires i < |content| && content[i] == '\n'
    ensures content[..i] + "\n" + (content[i + 1..] + "\n") == content + "\n"
  {
    assert content == content[..i] + "\n" + content[i + 1..];
  }

  lemma {:induction false} UnlinesFirst(line: string, lines: seq<string>)
    ensures Unlines([line] + lines) == line + "\n" + Unlines(lines)
    ensures '\n' !in line && AreLines(lines) ==> AreLines([line] + lines)
  {
    assert ([line] + lines)[1..] == lines;
  }

  lemma {:induction false} SplitIsLines(content: string)
    ensures AreLines(Split(content)) && Unlines(Split(content)) == content + "\n"
    decreases |content|
  {
    var i := IndexOf(content, '\n');
    if i < 0 {
      UnlinesFirst(content, []);
      assert [content] + [] == [content];
      assert content + "\n" + "" == content + "\n";
    } else {
      SplitIsLines(content[i + 1..]);
      UnlinesFirst(content[..i], Split(content[i + 1..]));
      CutAtLine(content, i);
    }
  }

  // ---- Splitting ----

  /** At most `n` pieces; the last one keeps the remaining separators. */
  function SplitN(s: string, sep: char, n: nat): seq<string>
    requires n > 0
    decreases n
  {
    var i := IndexOf(s, sep);
    if n == 1 || i < 0 then [s] else [s[..i]] + SplitN(s[i + 1..], sep, n - 1)
  }

  lemma {:induction false} SplitFirst(piece: string, sep: char, rest: string, n: nat)
    requires sep !in piece && n > 1
    ensures SplitN(piece + [sep] + rest, sep, n) == [piece] + SplitN(rest, sep, n - 1)
  {
    FirstOccurrence(piece, sep, rest);
  }

  // ---- White space ----

  predicate IsSpace(c: char) {
    || '\t' <= c <= '\r' || c == ' ' || c == '\U{0085}' || c == '\U{00A0}' || c == '\U{1680}'
    || '\U{2000}' <= c <= '\U{200a}' || c == '\U{2028}' || c == '\U{2029}' || c == '\U{202f}'
    || c == '\U{205f}' || c == '\U{3000}'
  }

  function TrimLeft(s: string): string {
    if s != "" && IsSpace(s[0]) then TrimLeft(s[1..]) else s
  }

  function TrimRight(s: string): string {
    if s != "" && IsSpace(Last(s)) then TrimRight(Front(s)) else s
  }

  function TrimSpace(s: string): string {
    TrimRight(TrimLeft(s))
  }

  function TrimNewlines(s: string): string {
    if s != "" && Last(s) == '\n' then TrimNewlines(Front(s)) else s
  }

  // ---- What these operations are, without their recursion ----

  ghost predicate AllSpace(s: string) {
    forall i :: 0 <= i < |s| ==> IsSpace(s[i])
  }

  lemma {:induction false} TrimLeftIs(s: string) returns (before: string)
    ensures s == before + TrimLeft(s) && AllSpace(before)
    ensures TrimLeft(s) != "" ==> !IsSpace(TrimLeft(s)[0])
  {
    before := "";
    if s != "" && IsSpace(s[0]) {
      var more := TrimLeftIs(s[1..]);
      before := [s[0]] + more;
      assert s == [s[0]] + s[1..];
    }
  }

  lemma {:induction false} TrimRightIs(s: string) returns (behind: string)
    ensures s == TrimRight(s) + behind && AllSpace(behind)
    ensures TrimRight(s) != "" ==> !IsSpace(Last(TrimRight(s))) && TrimRight(s)[0] == s[0]
  {
    behind := "";
    if s != "" && IsSpace(Last(s)) {
      var more := TrimRightIs(Front(s));
      behind := more + [Last(s)];
      assert s == Front(s) + [Last(s)];
    }
  }

  /** Trimming takes white space off both ends, and all of it. */
  lemma {:induction false} TrimSpaceIs(s: string) returns (before: string, behind: string)
    ensures s == before + TrimSpace(s) + behind && AllSpace(before) && AllSpace(behind)
    ensures TrimSpace(s) != "" ==> !IsSpace(TrimSpace(s)[0]) && !IsSpace(Last(TrimSpace(s)))
  {
    before := TrimLeftIs(s);
    behind := TrimRightIs(TrimLeft(s));
    assert before + (TrimSpace(s) + behind) == before + TrimSpace(s) + behind;
  }

  lemma {:induction false} BlankIff(s: string)
    ensures TrimSpace(s) == "" <==> AllSpace(s)
  {
    var before, behind := TrimSpaceIs(s);
    if TrimSpace(s) != "" {
      assert s[|before|] == TrimSpace(s)[0];
    }
  }

  lemma {:induction false} TrimNewlinesIs(s: string) returns (behind: string)
    ensures s == TrimNewlines(s) + behind && forall i :: 0 <= i < |behind| ==> behind[i] == '\n'
    ensures TrimNewlines(s) != "" ==> Last(TrimNewlines(s)) != '\n'
  {
    behind := "";
    if s != "" && Last(s) == '\n' {
      var more := TrimNewlinesIs(Front(s));
      behind := more + [Last(s)];
      assert s == Front(s) + [Last(s)];
    }
  }

  function JoinWith(pieces: seq<string>, sep: char): string {
    if pieces == [] then ""
    else if |pieces| == 1 then pieces[0]
    else pieces[0] + [sep] + JoinWith(pieces[1..], sep)
  }

  /** The pieces of a text cut at its first separators. */
  ghost predicate AreFirstPieces(p: seq<string>, sep: char, n: nat) {
    && 1 <= |p| <= n
    && (forall i :: 0 <= i < |p| - 1 ==> sep !in p[i])
    && (|p| < n ==> sep !in p[|p| - 1])
  }

  lemma {:induction false} PutPieceFirst(piece: string, p: seq<string>, sep: char, n: nat)
    requires sep !in piece && AreFirstPieces(p, sep, n)
    ensures AreFirstPieces([piece] + p, sep, n + 1)
    ensures JoinWith([piece] + p, sep) == piece + [sep] + JoinWith(p, sep)
  {
    assert ([piece] + p)[1..] == p;
    assert forall i :: 1 <= i < |p| + 1 ==> ([piece] + p)[i] == p[i - 1];
  }

  /** Splitting cuts at the first separators, and joining undoes it. */
  lemma {:induction false} SplitNIs(s: string, sep: char, n: nat)
    requires n > 0
    ensures AreFirstPieces(SplitN(s, sep, n), sep, n) && JoinWith(SplitN(s, sep, n), sep) == s
    decreases n
  {
    var i := IndexOf(s, sep);
    if n > 1 && i >= 0 {
      SplitNIs(s[i + 1..], sep, n - 1);
      SplitNext(s, sep, n, i);
    }
  }

  lemma {:induction false} SplitNext(s: string, sep: char, n: nat, i: nat)
    requires n > 1 && i == IndexOf(s, sep)
    requires var p := SplitN(s[i + 1..], sep, n - 1); AreFirstPieces(p, sep, n - 1) && JoinWith(p, sep) == s[i + 1..]
    ensures AreFirstPieces(SplitN(s, sep, n), sep, n) && JoinWith(SplitN(s, sep, n), sep) == s
  {
    var p := SplitN(s[i + 1..], sep, n - 1);
    SplitOff(s, sep, n, i);
    PutPieceFirst(s[..i], p, sep, n - 1);
    CutAt(s, sep, i);
  }

  lemma {:induction false} SplitOff(s: string, sep: char, n: nat, i: nat)
    requires n > 1 && i == IndexOf(s, sep)
    ensures SplitN(s, sep, n) == [s[..i]] + SplitN(s[i + 1..], sep, n - 1)
  {
  }

  lemma {:induction false} CutAt(s: string, sep: char, i: nat)
    requires i < |s| && s[i] == sep
    ensures s[..i] + [sep] + s[i + 1..] == s
  {
  }

  /** A line may end in a carriage return and a line feed, and the last one in nothing. */
  lemma {:induction false} LineEndings(line: string, rest: string)
    requires '\n' !in line && (line == "" || Last(line) != '\r')
    ensures Lines(line + "\n" + rest) == [line] + Lines(rest)
    ensures Lines(line + "\r" + "\n" + rest) == [line] + Lines(rest)
    ensures Lines(line) == if line == "" then [] else [line]
  {
    FirstOccurrence(line, '\n', rest);
    FirstOccurrence(line + "\r", '\n', rest);
    assert Front(line + "\r") == line;
  }
}

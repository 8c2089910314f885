/** HTML-comment stripping of tools/validate-spec/parser.go: the line-by-line stripper with its carried
    flag, and the one-pass character automaton it agrees with. */
module Comments {

  import opened Text

  const OPEN := "<!--"
  const CLOSE := "-->"

  /** The first place where `mark` occurs in `s`, or -1. */
  function Find(s: string, mark: string): (i: int)
    requires mark != ""
    ensures -1 <= i && (i >= 0 ==> i + |mark| <= |s|)
  {
    if |s| < |mark| then -1
    else if mark <= s then 0
    else
      var i := Find(s[1..], mark);
      if i < 0 then -1 else i + 1
  }

  /** A line without its comments, and whether a comment is still open after it. */
  function Strip(line: string, inComment: bool): (string, bool)
    decreases |line|
  {
    if inComment then
      var i := Find(line, CLOSE);
      if i < 0 then ("", true) else Strip(line[i + |CLOSE|..], false)
    else
      var i := Find(line, OPEN);
      if i < 0 then (line, false)
      else
        var (text, open) := Strip(line[i + |OPEN|..], true);
        (line[..i] + text, open)
  }

  method StripComments(line: string, inComment: bool) returns (text: string, open: bool)
    ensures (text, open) == Strip(line, inComment)
  {
    text, open := "", inComment;
    var work := line;
    assert "" + Strip(line, open).0 == Strip(line, open).0;
    while true
      invariant Strip(line, inComment) == (text + Strip(work, open).0, Strip(work, open).1)
      decreases |work|
    {
      assert text + "" == text;
      if open {
        var i := Find(work, CLOSE);
        if i < 0 {
          return text, true;
        }
        work := work[i + |CLOSE|..];
        open := false;
        continue;
      }
      var i := Find(work, OPEN);
      if i < 0 {
        return text + work, false;
      }
      ghost var after := Strip(work[i + |OPEN|..], true).0;
      assert text + (work[..i] + after) == text + work[..i] + after;
      text := text + work[..i];
      work := work[i + |OPEN|..];
      open := true;
    }
  }

  /** The body the parser keeps: every stripped line with its line feed. */
  function Body(lines: seq<string>, inComment: bool): (string, bool)
    decreases |lines|
  {
    if lines == [] then ("", inComment)
    else
      var (text, open) := Strip(lines[0], inComment);
      var (rest, last) := Body(lines[1..], open);
      (text + "\n" + rest, last)
  }

  lemma {:induction false} GroupBody(body: string, text: string, rest: string)
    ensures body + (text + "\n" + rest) == body + text + "\n" + rest
  {
  }

  method StripBody(lines: seq<string>) returns (body: string, inComment: bool)
    ensures (body, inComment) == Body(lines, false)
  {
    body, inComment := "", false;
    assert lines[0..] == lines && "" + Body(lines, false).0 == Body(lines, false).0;
    for i := 0 to |lines|
      invariant Body(lines, false) == (body + Body(lines[i..], inComment).0, Body(lines[i..], inComment).1)
    {
      assert lines[i..][1..] == lines[i + 1..];
      var text;
      text, inComment := StripComments(lines[i], inComment);
      ghost var rest := Body(lines[i + 1..], inComment).0;
      GroupBody(body, text, rest);
      body := body + text;
      body := body + "\n";
    }
    assert body + "" == body;
  }

  // ---- The automaton ----

  /** Outside a comment the automaton holds back the opener it has begun to read; inside one it counts the
      dashes just read, up to two. */
  datatype State = Text | Lt | LtBang | LtBangDash | Inside | Dash | DashDash

  predicate InComment(st: State) {
    st.Inside? || st.Dash? || st.DashDash?
  }

  function Start(inComment: bool): State {
    if inComment then Inside else Text
  }

  /** The characters held back. */
  function Held(st: State): string {
    match st
    case Lt => "<"
    case LtBang => "<!"
    case LtBangDash => "<!-"
    case _ => ""
  }

  /** One character: the next state and what is written. A line feed is always written. */
  function Read(st: State, c: char): (State, string) {
    if InComment(st) then
      if c == '\n' then (Inside, "\n")
      else if c == '>' && st.DashDash? then (Text, "")
      else if c == '-' then (if st.Inside? then Dash else DashDash, "")
      else (Inside, "")
    else if c == '!' && st.Lt? then (LtBang, "")
    else if c == '-' && st.LtBang? then (LtBangDash, "")
    else if c == '-' && st.LtBangDash? then (Inside, "")
    else if c == '<' then (Lt, Held(st))
    else (Text, Held(st) + [c])
  }

  function Run(st: State, s: string): (State, string)
    decreases |s|
  {
    if s == "" then (st, "")
    else
      var (next, out) := Read(st, s[0]);
      var (last, rest) := Run(next, s[1..]);
      (last, out + rest)
  }

  // ---- One line ----

  predicate Opens(s: string) {
    |s| >= 4 && s[0] == '<' && s[1] == '!' && s[2] == '-' && s[3] == '-'
  }

  predicate Closes(s: string) {
    |s| >= 3 && s[0] == '-' && s[1] == '-' && s[2] == '>'
  }

  lemma {:induction false} OpensIsPrefix(s: string)
    ensures OPEN <= s <==> Opens(s)
  {
  }

  lemma {:induction false} ClosesIsPrefix(s: string)
    ensures CLOSE <= s <==> Closes(s)
  {
  }

  lemma {:induction false} StripOpens(s: string)
    requires Opens(s)
    ensures Strip(s, false) == Strip(s[4..], true)
  {
    OpensIsPrefix(s);
    assert Find(s, OPEN) == 0;
    assert s[..0] + Strip(s[4..], true).0 == Strip(s[4..], true).0;
  }

  lemma {:induction false} StripCloses(s: string)
    requires Closes(s)
    ensures Strip(s, true) == Strip(s[3..], false)
  {
    ClosesIsPrefix(s);
    assert Find(s, CLOSE) == 0;
  }

  lemma {:induction false} FindLater(a: char, s: string, mark: string)
    requires mark != "" && !(mark <= [a] + s)
    ensures Find([a] + s, mark) == if Find(s, mark) < 0 then -1 else Find(s, mark) + 1
  {
    assert ([a] + s)[1..] == s;
  }

  lemma {:induction false} Shift(a: char, s: string, i: nat, after: string)
    requires i + 4 <= |s|
    ensures ([a] + s)[..i + 1] + after == [a] + (s[..i] + after)
    ensures ([a] + s)[i + 5..] == s[i + 4..]
  {
    assert ([a] + s)[..i + 1] == [a] + s[..i];
  }

  lemma {:induction false} SkipOutside(a: char, s: string)
    requires !Opens([a] + s)
    ensures Strip([a] + s, false) == ([a] + Strip(s, false).0, Strip(s, false).1)
  {
    OpensIsPrefix([a] + s);
    FindLater(a, s, OPEN);
    var i := Find(s, OPEN);
    if i >= 0 {
      Shift(a, s, i, Strip(s[i + 4..], true).0);
    }
  }

  lemma {:induction false} SkipInside(a: char, s: string)
    requires !Closes([a] + s)
    ensures Strip([a] + s, true) == Strip(s, true)
  {
    ClosesIsPrefix([a] + s);
    FindLater(a, s, CLOSE);
    var i := Find(s, CLOSE);
    if i >= 0 {
      assert ([a] + s)[i + 1 + |CLOSE|..] == s[i + |CLOSE|..];
    }
  }

  /** What the stripper would still have to look at: the undecided characters of the state, then the rest. */
  function Resume(st: State, s: string): string {
    match st
    case Lt => ['<'] + s
    case LtBang => ['<'] + (['!'] + s)
    case LtBangDash => ['<'] + (['!'] + (['-'] + s))
    case Dash => ['-'] + s
    case DashDash => ['-'] + (['-'] + s)
    case _ => s
  }

  /** The held characters in front of what follows them. */
  function Release(st: State, text: string): string {
    match st
    case Lt => ['<'] + text
    case LtBang => ['<'] + (['!'] + text)
    case LtBangDash => ['<'] + (['!'] + (['-'] + text))
    case _ => text
  }

  lemma {:induction false} ReleaseIsHeld(st: State, text: string)
    ensures Release(st, text) == Held(st) + text
  {
  }

  predicate Continues(st: State, c: char) {
    match st
    case Text => c == '<'
    case Lt => c == '!'
    case LtBang => c == '-'
    case LtBangDash => c == '-'
    case _ => false
  }

  /** A begun opener that does not continue is plain text. */
  lemma {:induction false} HeldIsText(st: State, s: string)
    requires !InComment(st) && (s == "" || !Continues(st, s[0]))
    ensures Strip(Resume(st, s), false) == (Release(st, Strip(s, false).0), Strip(s, false).1)
  {
    match st
    case Text =>
    case Lt =>
      SkipOutside('<', s);
    case LtBang =>
      SkipOutside('<', ['!'] + s);
      SkipOutside('!', s);
    case LtBangDash =>
      SkipOutside('<', ['!'] + (['-'] + s));
      SkipOutside('!', ['-'] + s);
      SkipOutside('-', s);
  }

  /** Counted dashes that no closer can use are comment text. */
  lemma {:induction false} DashesAreComment(st: State, c: char, s: string)
    requires InComment(st) && c != '-' && !(c == '>' && st.DashDash?)
    ensures Strip(Resume(st, [c] + s), true) == Strip(s, true)
  {
    SkipInside(c, s);
    if st.Dash? {
      SkipInside('-', [c] + s);
    } else if st.DashDash? {
      SkipInside('-', [c] + s);
      SkipInside('-', ['-'] + ([c] + s));
    }
  }

  ghost predicate Agrees(st: State, s: string) {
    var (last, out) := Run(st, s);
    Strip(Resume(st, s), InComment(st)) == (out + Held(last), InComment(last))
  }

  lemma {:induction false} AgreesAtEnd(st: State)
    ensures Agrees(st, "")
  {
    if InComment(st) {
      assert Find(Resume(st, ""), CLOSE) == -1;
    } else {
      HeldIsText(st, "");
      ReleaseIsHeld(st, "");
      assert Strip("", false) == ("", false);
      assert "" + Held(st) == Held(st) == Held(st) + "";
    }
  }

  lemma {:induction false} RunFirst(st: State, c: char, s: string)
    ensures var (next, out) := Read(st, c); Run(st, [c] + s) == (Run(next, s).0, out + Run(next, s).1)
  {
    assert ([c] + s)[1..] == s;
  }

  lemma {:induction false} Silent(text: string)
    ensures "" + text == text
  {
  }

  lemma {:induction false} AgreesOnMatch(st: State, c: char, s: string)
    requires !InComment(st) && Continues(st, c) && Agrees(Read(st, c).0, s)
    ensures Agrees(st, [c] + s)
  {
    RunFirst(st, c, s);
    Silent(Run(Read(st, c).0, s).1);
    if st.LtBangDash? {
      var whole := Resume(st, [c] + s);
      StripOpens(whole);
      assert whole[4..] == s;
    }
  }

  lemma {:induction false} Associate(a: string, b: string, c: string, d: string)
    ensures a + (b + (c + d)) == a + b + c + d && a + (c + d) == a + c + d
  {
  }

  lemma {:induction false} AgreesOnMismatch(st: State, c: char, s: string)
    requires !InComment(st) && !Continues(st, c) && Agrees(Read(st, c).0, s)
    ensures Agrees(st, [c] + s)
  {
    RunFirst(st, c, s);
    HeldIsText(st, [c] + s);
    ReleaseIsHeld(st, Strip([c] + s, false).0);
    var (last, out) := Run(Read(st, c).0, s);
    Associate(Held(st), [c], out, Held(last));
    if c != '<' {
      SkipOutside(c, s);
    }
  }

  lemma {:induction false} AgreesOnClose(s: string)
    requires Agrees(Text, s)
    ensures Agrees(DashDash, ['>'] + s)
  {
    RunFirst(DashDash, '>', s);
    Silent(Run(Text, s).1);
    var whole := Resume(DashDash, ['>'] + s);
    StripCloses(whole);
    assert whole[3..] == s;
  }

  lemma {:induction false} AgreesOnDash(st: State, s: string)
    requires InComment(st) && Agrees(Read(st, '-').0, s)
    ensures Agrees(st, ['-'] + s)
  {
    RunFirst(st, '-', s);
    Silent(Run(Read(st, '-').0, s).1);
    if st.DashDash? {
      SkipInside('-', ['-'] + (['-'] + s));
    }
  }

  lemma {:induction false} AgreesInside(st: State, c: char, s: string)
    requires InComment(st) && c != '\n' && c != '-' && !(c == '>' && st.DashDash?) && Agrees(Inside, s)
    ensures Agrees(st, [c] + s)
  {
    RunFirst(st, c, s);
    Silent(Run(Inside, s).1);
    DashesAreComment(st, c, s);
  }

  /** On one line, the stripper and the automaton agree from every state. */
  lemma {:induction false} LineAgrees(st: State, s: string)
    requires '\n' !in s
    ensures Agrees(st, s)
    decreases |s|
  {
    if s == "" {
      AgreesAtEnd(st);
    } else {
      var (c, rest) := (s[0], s[1..]);
      LineAgrees(Read(st, c).0, rest);
      if InComment(st) && c == '-' {
        AgreesOnDash(st, rest);
      } else if st.DashDash? && c == '>' {
        AgreesOnClose(rest);
      } else if InComment(st) {
        AgreesInside(st, c, rest);
      } else if Continues(st, c) {
        AgreesOnMatch(st, c, rest);
      } else {
        AgreesOnMismatch(st, c, rest);
      }
      assert s == [c] + rest;
    }
  }

  // ---- The whole document ----

  lemma {:induction false} RunConcat(st: State, a: string, b: string)
    ensures var (mid, out) := Run(st, a); var (last, rest) := Run(mid, b); Run(st, a + b) == (last, out + rest)
    decreases |a|
  {
    if a == "" {
      assert a + b == b;
      Silent(Run(st, b).1);
    } else {
      var (next, out) := Read(st, a[0]);
      RunConcat(next, a[1..], b);
      assert a + b == [a[0]] + (a[1..] + b);
      RunFirst(st, a[0], a[1..] + b);
      var (mid, more) := Run(next, a[1..]);
      Associate(out, "", more, Run(mid, b).1);
    }
  }

  /** A line feed releases what is held back, is kept itself, and starts the next line afresh. */
  lemma {:induction false} LineFeed(st: State)
    ensures Run(st, "\n") == (Start(InComment(st)), Held(st) + "\n")
  {
    RunFirst(st, '\n', "");
    assert ['\n'] + "" == "\n";
    var (next, out) := Read(st, '\n');
    assert Run(next, "") == (next, "");
    assert out + "" == out;
    Silent("\n");
  }

  lemma {:induction false} RunLine(inComment: bool, line: string)
    requires '\n' !in line
    ensures var (text, open) := Strip(line, inComment); Run(Start(inComment), line + "\n") == (Start(open), text + "\n")
  {
    LineAgrees(Start(inComment), line);
    RunConcat(Start(inComment), line, "\n");
    var (mid, out) := Run(Start(inComment), line);
    LineFeed(mid);
    Associate(out, "", Held(mid), "\n");
  }

  /** Carrying the flag from line to line gives the text and the state of the automaton that reads the
      whole document. */
  lemma {:induction false} BodyIsRun(lines: seq<string>, inComment: bool)
    requires AreLines(lines)
    ensures var (text, open) := Body(lines, inComment); Run(Start(inComment), Unlines(lines)) == (Start(open), text)
    decreases |lines|
  {
    if lines != [] {
      var (text, open) := Strip(lines[0], inComment);
      RunLine(inComment, lines[0]);
      assert AreLines(lines[1..]);
      BodyIsRun(lines[1..], open);
      RunConcat(Start(inComment), lines[0] + "\n", Unlines(lines[1..]));
    }
  }

  lemma {:induction false} ChunkInvariant(content: string)
    ensures var (text, open) := Body(Split(content), false);
            Run(Text, content + "\n") == (Start(open), text)
  {
    SplitIsLines(content);
    BodyIsRun(Split(content), false);
  }

  // ---- Around one comment ----

  predicate OpensAt(s: string, i: int) {
    0 <= i && i + 4 <= |s| && s[i] == '<' && s[i + 1] == '!' && s[i + 2] == '-' && s[i + 3] == '-'
  }

  lemma {:induction false} FirstOpener(s: string)
    ensures Find(s, OPEN) < 0 ==> forall k :: !OpensAt(s, k)
    ensures Find(s, OPEN) >= 0 ==> OpensAt(s, Find(s, OPEN)) && forall k :: k < Find(s, OPEN) ==> !OpensAt(s, k)
  {
    OpensIsPrefix(s);
    if |s| >= 4 && !Opens(s) {
      FirstOpener(s[1..]);
      forall k | OpensAt(s, k)
        ensures OpensAt(s[1..], k - 1)
      {
      }
    }
  }

  /** The last one, two or three characters of `x` and the first ones of `y` make up an opener. */
  predicate Joins(x: string, y: string) {
    var (m, n) := (|x|, |y|);
    || (m >= 1 && n >= 3 && x[m - 1] == '<' && y[0] == '!' && y[1] == '-' && y[2] == '-')
    || (m >= 2 && n >= 2 && x[m - 2] == '<' && x[m - 1] == '!' && y[0] == '-' && y[1] == '-')
    || (m >= 3 && n >= 1 && x[m - 3] == '<' && x[m - 2] == '!' && x[m - 1] == '-' && y[0] == '-')
  }

  lemma {:induction false} JoinsIsOpener(x: string, y: string)
    ensures Joins(x, y) <==>
            (|y| >= 3 && OpensAt(x + y, |x| - 1)) || (|y| >= 2 && OpensAt(x + y, |x| - 2)) ||
            (|y| >= 1 && OpensAt(x + y, |x| - 3))
  {
  }

  lemma {:induction false} OpenerPlace(x: string, y: string, i: nat)
    requires OpensAt(x + y, i)
    ensures OpensAt(x, i) || OpensAt(y, i - |x|) || i == |x| - 1 || i == |x| - 2 || i == |x| - 3
  {
  }

  lemma {:induction false} NewOpenerIff(x: string, y: string)
    requires Find(x, OPEN) < 0 && Find(y, OPEN) < 0
    ensures Find(x + y, OPEN) >= 0 <==> Joins(x, y)
  {
    FirstOpener(x);
    FirstOpener(y);
    FirstOpener(x + y);
    JoinsIsOpener(x, y);
    if Find(x + y, OPEN) >= 0 {
      OpenerPlace(x, y, Find(x + y, OPEN));
    }
  }

  /** A comment text in which, with what follows it, the first closer is the one at its end. */
  predicate ClosesAfter(comment: string, rest: string) {
    Find(comment + CLOSE + rest, CLOSE) == |comment|
  }

  lemma {:induction false} OpenerAfter(x: string, more: string)
    requires Find(x, OPEN) < 0
    ensures Find(x + (OPEN + more), OPEN) == |x|
  {
    FirstOpener(x);
    FirstOpener(x + (OPEN + more));
    assert OpensAt(x + (OPEN + more), |x|);
    forall k | k < |x|
      ensures !OpensAt(x + (OPEN + more), k)
    {
      assert !OpensAt(x, k);
    }
  }

  /** One comment is removed, and what is around it is joined. */
  lemma {:induction false} StripOneComment(x: string, comment: string, y: string)
    requires Find(x, OPEN) < 0 && Find(y, OPEN) < 0 && ClosesAfter(comment, y)
    ensures Strip(x + (OPEN + (comment + CLOSE + y)), false) == (x + y, false)
  {
    var (line, inner) := (x + (OPEN + (comment + CLOSE + y)), comment + CLOSE + y);
    OpenerAfter(x, inner);
    assert inner[|comment| + |CLOSE|..] == y;
    assert Strip(inner, true) == Strip(y, false) == (y, false);
    assert line[..|x|] == x && line[|x| + |OPEN|..] == inner;
  }

  lemma {:induction false} StripShortens(s: string, inComment: bool)
    ensures |Strip(s, inComment).0| <= |s|
    decreases |s|
  {
    var i := Find(s, if inComment then CLOSE else OPEN);
    if i >= 0 {
      StripShortens(if inComment then s[i + |CLOSE|..] else s[i + |OPEN|..], !inComment);
    }
  }

  lemma {:induction false} FixedIffNoOpener(s: string)
    ensures Strip(s, false) == (s, false) <==> Find(s, OPEN) < 0
  {
    var i := Find(s, OPEN);
    if i >= 0 {
      StripShortens(s[i + |OPEN|..], true);
    }
  }

  /** What is left of a line with one comment is left as it is by a second pass exactly if the characters
      around the comment do not join into a new opener. */
  lemma {:induction false} StrippedReopensIff(x: string, comment: string, y: string)
    requires Find(x, OPEN) < 0 && Find(y, OPEN) < 0 && ClosesAfter(comment, y)
    ensures var (text, open) := Strip(x + (OPEN + (comment + CLOSE + y)), false);
            text == x + y && !open && (Strip(text, false) == (text, false) <==> !Joins(x, y))
  {
    StripOneComment(x, comment, y);
    NewOpenerIff(x, y);
    FixedIffNoOpener(x + y);
  }
}

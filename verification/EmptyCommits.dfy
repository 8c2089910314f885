/** What parseGitEntries makes of commits without files, after which `git log` prints no blank line: the next
    header is taken for numstat lines.  When exactly a history survives this. */
module EmptyCommits {

  import opened Prelude
  import opened Text
  import opened GitLog

  /** The parts that git prints on one line are one line, and the body contains no field separator. */
  predicate Printed(c: Commit) {
    '\n' !in c.sha && '\n' !in c.date && '\n' !in c.subject && FIELD_SEP !in c.body
  }

  predicate Dated(env: Env, c: Commit) {
    env.parseDate(c.date).Some?
  }

  ghost predicate AllPrinted(env: Env, commits: seq<Commit>) {
    AllValid(commits) && forall i :: 0 <= i < |commits| ==> Printed(commits[i]) && Dated(env, commits[i])
  }

  lemma {:induction false} AllPrintedTail(env: Env, commits: seq<Commit>)
    requires AllPrinted(env, commits) && commits != []
    ensures ValidCommit(commits[0]) && Dated(env, commits[0]) && PlainCommit(commits[0]) && Printed(commits[0])
    ensures AllPrinted(env, commits[1..])
  {
  }

  function FirstBlank(lines: seq<string>): (k: nat)
    ensures k <= |lines| && NonBlank(lines[..k]) && (k < |lines| ==> lines[k] == "")
  {
    if lines == [] || lines[0] == "" then 0
    else
      var k := FirstBlank(lines[1..]);
      assert lines[..k + 1] == [lines[0]] + lines[1..][..k];
      k + 1
  }

  /** The lines of a commit that a preceding commit without files takes for its own. */
  function Taken(c: Commit): seq<string> {
    var k := FirstBlank(HeaderLines(c));
    if k < |HeaderLines(c)| then HeaderLines(c)[..k] else EntryLines(c)
  }

  // ---- The rest of a header ----

  function FirstFields(c: Commit): string {
    c.sha + [FIELD_SEP] + (c.date + [FIELD_SEP] + (c.subject + [FIELD_SEP]))
  }

  lemma {:induction false} SplitFields(c: Commit)
    ensures HeaderBlock(c) == FirstFields(c) + (c.body + [BLOCK_SEP])
  {
  }

  /** The separators of the fields are all on the first line of the header, which is therefore not blank. */
  lemma {:induction false} OnlyFirstLineHasFields(c: Commit)
    requires Printed(c)
    ensures HeaderLines(c) != [] && HeaderLines(c)[0] != ""
    ensures forall i :: 0 < i < |HeaderLines(c)| ==> FIELD_SEP !in HeaderLines(c)[i]
  {
    var tail := c.body + [BLOCK_SEP];
    SplitFields(c);
    SplitPrefix(FirstFields(c), tail);
    SplitKeepsChars(tail, FIELD_SEP);
    assert FirstFields(c) != "";
  }

  lemma {:induction false} UnlinesKeepsChars(lines: seq<string>, c: char)
    requires c != '\n' && forall i :: 0 <= i < |lines| ==> c !in lines[i]
    ensures c !in Unlines(lines)
    decreases |lines|
  {
    if lines != [] {
      assert forall i :: 0 <= i < |lines| - 1 ==> lines[1..][i] == lines[i + 1];
      UnlinesKeepsChars(lines[1..], c);
    }
  }

  lemma {:induction false} RestHasNoFields(c: Commit, k: nat)
    requires Printed(c) && 0 < k < |HeaderLines(c)|
    ensures FIELD_SEP !in Unlines(HeaderLines(c)[k..])
  {
    OnlyFirstLineHasFields(c);
    UnlinesKeepsChars(HeaderLines(c)[k..], FIELD_SEP);
  }

  lemma {:induction false} TrimKeepsChars(s: string, c: char)
    requires c !in s
    ensures c !in TrimLeft(s) && c !in TrimRight(s) && c !in TrimNewlines(s)
  {
    if s != "" {
      TrimKeepsChars(s[1..], c);
      TrimKeepsChars(Front(s), c);
    }
  }

  /** Text without field separators is no header. */
  lemma {:induction false} NoFieldsNoRecord(env: Env, h: string, numstat: seq<string>, inHeader: bool,
      records: seq<GitRecord>)
    requires FIELD_SEP !in h
    ensures Flush(env, Scan(h, numstat, inHeader, records)) == Clean(records)
  {
    var text := TrimSpace(h);
    TrimKeepsChars(h, FIELD_SEP);
    TrimKeepsChars(TrimLeft(h), FIELD_SEP);
    TrimKeepsChars(text, FIELD_SEP);
    var trimmed := TrimNewlines(text);
    var idx := IndexOf(trimmed, BLOCK_SEP);
    var header := if idx >= 0 then trimmed[..idx] else trimmed;
    assert FIELD_SEP !in header && IndexOf(header, FIELD_SEP) == -1;
    assert SplitN(header, FIELD_SEP, 4) == [header];
    assert BuildGitRecord(env, text, numstat) == Malformed;
    assert records + [] == records;
  }

  // ---- Feeding a commit to an open entry ----

  function Open(h: string, numstat: seq<string>, records: seq<GitRecord>): Scan {
    Scan(h, numstat, false, records)
  }

  lemma {:induction false} FeedWithoutBlank(env: Env, h: string, numstat: seq<string>, records: seq<GitRecord>,
      c: Commit)
    requires PlainCommit(c) && FirstBlank(HeaderLines(c)) == |HeaderLines(c)|
    ensures FeedAll(env, Open(h, numstat, records), EntryLines(c)) == Open(h, numstat + Taken(c), records)
  {
    StatTextsArePlain(c.stats);
    assert HeaderLines(c)[..|HeaderLines(c)|] == HeaderLines(c);
    FeedLines(env, Open(h, numstat, records), EntryLines(c));
  }

  lemma {:induction false} LinesAfterBlank(c: Commit, k: nat)
    requires PlainCommit(c) && k < |HeaderLines(c)| && HeaderLines(c)[k] == ""
    ensures EndsBlock(HeaderLines(c)[k + 1..])
  {
    HeaderLinesArePlain(c);
    HeaderEndsBlock(HeaderFields(c));
    var rest := HeaderLines(c)[k + 1..];
    assert k + 1 < |HeaderLines(c)|;
    assert Last(rest) == Last(HeaderLines(c));
    assert forall i :: 0 <= i < |rest| - 1 ==> rest[i] == HeaderLines(c)[k + 1 + i];
  }

  /** The lines up to the first blank one, and that one, flush the open entry. */
  lemma {:induction false} FeedToBlank(env: Env, h: string, numstat: seq<string>, records: seq<GitRecord>, c: Commit)
    requires FirstBlank(HeaderLines(c)) < |HeaderLines(c)|
    ensures FeedAll(env, Open(h, numstat, records), HeaderLines(c)[..FirstBlank(HeaderLines(c))] + [""]) ==
            Flush(env, Open(h, numstat + Taken(c), records))
  {
    var (st, lines) := (Open(h, numstat, records), HeaderLines(c)[..FirstBlank(HeaderLines(c))]);
    FeedConcat(env, st, lines, [""]);
    FeedLines(env, st, lines);
    assert [""][1..] == [];
  }

  /** What is left of a header, and the numstat lines, are collected as another entry. */
  lemma {:induction false} FeedRest(env: Env, records: seq<GitRecord>, rest: seq<string>, texts: seq<string>)
    requires EndsBlock(rest) && NonBlank(texts)
    ensures FeedAll(env, Clean(records), rest + texts) == Open(Unlines(rest), texts, records)
  {
    FeedConcat(env, Clean(records), rest, texts);
    FeedHeader(env, Clean(records), rest);
    assert "" + Unlines(rest) == Unlines(rest);
    FeedLines(env, Open(Unlines(rest), [], records), texts);
    assert [] + texts == texts;
  }

  /** A blank line in the header flushes the open entry; what follows is collected as another header. */
  lemma {:induction false} FeedWithBlank(env: Env, h: string, numstat: seq<string>, records: seq<GitRecord>, c: Commit)
    requires PlainCommit(c) && FirstBlank(HeaderLines(c)) < |HeaderLines(c)|
    ensures var rest := HeaderLines(c)[FirstBlank(HeaderLines(c)) + 1..];
            FeedAll(env, Open(h, numstat, records), EntryLines(c)) ==
            Open(Unlines(rest), StatTexts(c.stats), Flush(env, Open(h, numstat + Taken(c), records)).records)
  {
    var lines := HeaderLines(c);
    var k := FirstBlank(lines);
    LinesAfterBlank(c, k);
    StatTextsArePlain(c.stats);
    var flushed := Flush(env, Open(h, numstat + Taken(c), records)).records;
    FeedToBlank(env, h, numstat, records, c);
    FeedThrough(env, Open(h, numstat, records), lines, k, StatTexts(c.stats), flushed);
  }

  lemma {:induction false} FeedThrough(env: Env, st: Scan, lines: seq<string>, k: nat, texts: seq<string>,
      flushed: seq<GitRecord>)
    requires k < |lines| && lines[k] == "" && EndsBlock(lines[k + 1..]) && NonBlank(texts)
    requires FeedAll(env, st, lines[..k] + [""]) == Clean(flushed)
    ensures FeedAll(env, st, lines + texts) == Open(Unlines(lines[k + 1..]), texts, flushed)
  {
    var rest := lines[k + 1..];
    FeedRest(env, flushed, rest, texts);
    FeedThen(env, st, lines[..k] + [""], Clean(flushed), rest + texts, Open(Unlines(rest), texts, flushed));
    CutLines(lines, k, texts);
  }

  lemma {:induction false} FeedThen(env: Env, st: Scan, a: seq<string>, mid: Scan, b: seq<string>, last: Scan)
    requires FeedAll(env, st, a) == mid && FeedAll(env, mid, b) == last
    ensures FeedAll(env, st, a + b) == last
  {
    FeedConcat(env, st, a, b);
  }

  lemma {:induction false} CutLines(lines: seq<string>, k: nat, texts: seq<string>)
    requires k < |lines| && lines[k] == ""
    ensures lines + texts == lines[..k] + [""] + (lines[k + 1..] + texts)
  {
  }

  // ---- How many records there can be ----

  /** The number of records an open entry can still give. */
  function Potential(h: string): nat {
    if FIELD_SEP in h then 1 else 0
  }

  lemma {:induction false} FlushAddsPotential(env: Env, h: string, numstat: seq<string>, records: seq<GitRecord>)
    ensures |Flush(env, Open(h, numstat, records)).records| <= |records| + Potential(h)
    ensures Flush(env, Open(h, numstat, records)) == Clean(Flush(env, Open(h, numstat, records)).records)
  {
    if FIELD_SEP !in h {
      NoFieldsNoRecord(env, h, numstat, false, records);
    }
  }

  function Tail(commits: seq<Commit>): seq<Commit> {
    if commits == [] then [] else commits[1..]
  }

  /** The number of records at the end of the text, from a state in the middle of it. */
  function Final(env: Env, st: Scan, commits: seq<Commit>): nat {
    |Flush(env, FeedAll(env, st, GitLines(commits))).records|
  }

  /** The state after an open entry has taken in a commit: still open, without records for that commit. */
  lemma {:induction false} TakenIn(env: Env, h: string, numstat: seq<string>, records: seq<GitRecord>, c: Commit)
    returns (h': string, numstat': seq<string>, records': seq<GitRecord>)
    requires PlainCommit(c) && Printed(c)
    ensures FeedAll(env, Open(h, numstat, records), EntryLines(c)) == Open(h', numstat', records')
    ensures |records'| + Potential(h') <= |records| + Potential(h)
    ensures Flush(env, Open(h', numstat', records')) == Clean(Flush(env, Open(h, numstat + Taken(c), records)).records)
  {
    var k := FirstBlank(HeaderLines(c));
    if k == |HeaderLines(c)| {
      FeedWithoutBlank(env, h, numstat, records, c);
      h', numstat', records' := h, numstat + Taken(c), records;
      FlushAddsPotential(env, h', numstat', records');
    } else {
      FeedWithBlank(env, h, numstat, records, c);
      FlushAddsPotential(env, h, numstat + Taken(c), records);
      h', numstat' := Unlines(HeaderLines(c)[k + 1..]), StatTexts(c.stats);
      records' := Flush(env, Open(h, numstat + Taken(c), records)).records;
      OnlyFirstLineHasFields(c);
      LinesAfterBlank(c, k);
      RestHasNoFields(c, k + 1);
      NoFieldsNoRecord(env, h', numstat', false, records');
    }
  }

  lemma {:induction false} ExpectedLength(env: Env, commits: seq<Commit>)
    requires commits != [] && ValidCommit(commits[0]) && Dated(env, commits[0])
    ensures |AllExpected(env, commits)| ==
            (if AnyBinary(commits[0].stats) then 0 else 1) + |AllExpected(env, commits[1..])|
  {
  }

  /** From an open entry, the first commit gives no record of its own. */
  lemma {:induction false} OpenBound(
    env: Env, h: string, numstat: seq<string>, records: seq<GitRecord>, commits: seq<Commit>)
    requires AllPrinted(env, commits)
    ensures Final(env, Open(h, numstat, records), commits) <=
            |records| + Potential(h) + |AllExpected(env, Tail(commits))|
    decreases |commits|
  {
    if commits == [] {
      FlushAddsPotential(env, h, numstat, records);
    } else {
      var (c, rest) := (commits[0], commits[1..]);
      AllPrintedTail(env, commits);
      FeedNext(env, Open(h, numstat, records), commits);
      var h', numstat', records' := TakenIn(env, h, numstat, records, c);
      FlushAddsPotential(env, h', numstat', records');
      if rest != [] && c.stats != [] {
        CleanBound(env, Flush(env, Open(h', numstat', records')).records, rest);
      } else if rest != [] {
        OpenBound(env, h', numstat', records', rest);
        AllPrintedTail(env, rest);
        ExpectedLength(env, rest);
      }
    }
  }

  lemma {:induction false} CleanBound(env: Env, records: seq<GitRecord>, commits: seq<Commit>)
    requires AllPrinted(env, commits)
    ensures Final(env, Clean(records), commits) <= |records| + |AllExpected(env, commits)|
    decreases |commits|
  {
    if commits == [] {
      CleanFlush(env, records);
    } else {
      var (c, rest) := (commits[0], commits[1..]);
      AllPrintedTail(env, commits);
      if rest == [] || c.stats != [] {
        ReadsCommit(env, records, commits);
        CleanBound(env, records + Expected(env, c), rest);
      } else {
        EmptyThenOpen(env, records, commits);
        OpenBound(env, HeaderBlock(c) + "\n", [], records, rest);
        AllPrintedTail(env, rest);
        ExpectedLength(env, rest);
      }
    }
  }

  /** After a commit without files the parser is still collecting its numstat lines. */
  lemma {:induction false} EmptyThenOpen(env: Env, records: seq<GitRecord>, commits: seq<Commit>)
    requires AllPrinted(env, commits) && |commits| > 1 && commits[0].stats == []
    ensures FeedAll(env, Clean(records), GitLines(commits)) ==
            FeedAll(env, Open(HeaderBlock(commits[0]) + "\n", [], records), GitLines(commits[1..]))
    ensures |AllExpected(env, commits)| == 1 + |AllExpected(env, commits[1..])|
  {
    AllPrintedTail(env, commits);
    FeedNext(env, Clean(records), commits);
    FeedEntry(env, commits[0], records);
    assert StatTexts([]) == [];
  }

  /** Some commit without files is followed by one that is not binary. */
  ghost predicate LosesOne(commits: seq<Commit>)
    decreases |commits|
  {
    |commits| > 1 &&
    ((commits[0].stats == [] && !AnyBinary(commits[1].stats)) || LosesOne(commits[1..]))
  }

  /** Then records are missing: a commit follows without a record of its own, or has lost its predecessor's. */
  lemma {:induction false} StrictBound(env: Env, records: seq<GitRecord>, commits: seq<Commit>)
    requires AllPrinted(env, commits) && LosesOne(commits)
    ensures Final(env, Clean(records), commits) < |records| + |AllExpected(env, commits)|
    decreases |commits|
  {
    var (c, rest) := (commits[0], commits[1..]);
    AllPrintedTail(env, commits);
    AllPrintedTail(env, rest);
    ExpectedLength(env, rest);
    if c.stats != [] {
      ReadsCommit(env, records, commits);
      StrictBound(env, records + Expected(env, c), rest);
    } else {
      EmptyThenOpen(env, records, commits);
      if !AnyBinary(rest[0].stats) {
        OpenBound(env, HeaderBlock(c) + "\n", [], records, rest);
      } else {
        StrictPastBinary(env, HeaderBlock(c) + "\n", records, rest);
      }
    }
  }

  lemma {:induction false} StrictPastBinary(env: Env, h: string, records: seq<GitRecord>, commits: seq<Commit>)
    requires AllPrinted(env, commits) && |commits| > 1 && AnyBinary(commits[0].stats) && LosesOne(commits[1..])
    ensures Final(env, Open(h, [], records), commits) < |records| + 1 + |AllExpected(env, commits[1..])|
    decreases |commits|
  {
    AllPrintedTail(env, commits);
    FeedNext(env, Open(h, [], records), commits);
    var h', numstat', records' := TakenIn(env, h, [], records, commits[0]);
    FlushAddsPotential(env, h', numstat', records');
    StrictBound(env, Flush(env, Open(h', numstat', records')).records, commits[1..]);
  }

  /** Wherever a commit without files is followed by one that is not binary, fewer records come back than there
      are commits to report. */
  lemma {:induction false} RecordsAreLost(env: Env, commits: seq<Commit>, i: nat)
    requires AllPrinted(env, commits) && i + 1 < |commits|
    requires commits[i].stats == [] && !AnyBinary(commits[i + 1].stats)
    ensures |Parse(env, Render(commits))| < |AllExpected(env, commits)|
  {
    LosesAt(commits, i);
    ParseOfRender(env, commits);
    StrictBound(env, [], commits);
  }

  lemma {:induction false} LosesAt(commits: seq<Commit>, i: nat)
    requires i + 1 < |commits| && commits[i].stats == [] && !AnyBinary(commits[i + 1].stats)
    ensures LosesOne(commits)
  {
    if i > 0 {
      LosesAt(commits[1..], i - 1);
    }
  }

  // ---- A binary commit behind a commit without files ----

  /** A line that the numstat parser would take a file from. */
  predicate LooksLikeStat(line: string) {
    line != "" && |SplitN(line, '\t', 3)| >= 3
  }

  /** A binary commit, which has no record to lose, whose header has a blank line before anything that looks
      like a numstat line: it ends the entry of the commit in front of it without adding a file. */
  predicate Harmless(c: Commit) {
    var lines := HeaderLines(c);
    && AnyBinary(c.stats) && FirstBlank(lines) < |lines|
    && forall i :: 0 <= i < FirstBlank(lines) ==> !LooksLikeStat(lines[i])
  }

  lemma {:induction false} NoFilesIff(lines: seq<string>)
    ensures ParseNumstat(lines) == Some([]) <==> forall i :: 0 <= i < |lines| ==> !LooksLikeStat(lines[i])
  {
    if lines != [] {
      NoFilesIff(Front(lines));
      assert forall i :: 0 <= i < |lines| - 1 ==> Front(lines)[i] == lines[i];
      assert Last(lines) == lines[|lines| - 1];
    }
  }

  lemma {:induction false} BinaryAtEnd(lines: seq<string>, stats: seq<FileStat>)
    requires ValidStats(stats) && AnyBinary(stats)
    ensures ParseNumstat(lines + StatTexts(stats)).None?
    decreases |stats|
  {
    LastStat(stats);
    var texts := StatTexts(Front(stats));
    assert lines + StatTexts(stats) == lines + texts + [StatLine(Last(stats))];
    NumstatNext(lines + texts, Last(stats));
    if AnyBinary(Front(stats)) {
      BinaryAtEnd(lines, Front(stats));
    }
  }

  lemma {:induction false} HarmlessIff(c: Commit)
    requires PlainCommit(c) && AnyBinary(c.stats)
    ensures Harmless(c) <==> ParseNumstat(Taken(c)) == Some([])
  {
    var (lines, k) := (HeaderLines(c), FirstBlank(HeaderLines(c)));
    if k < |lines| {
      NoFilesIff(lines[..k]);
      assert forall i :: 0 <= i < k ==> lines[..k][i] == lines[i];
    } else {
      BinaryAtEnd(lines, c.stats);
    }
  }

  /** What is made of a commit without files when `next` follows. */
  function Instead(env: Env, c: Commit, next: Commit): seq<GitRecord> {
    Flush(env, Open(HeaderBlock(c) + "\n", Taken(next), [])).records
  }

  lemma {:induction false} SomeDirs(env: Env, files: seq<string>)
    requires files != []
    ensures DirTokens(env, files) != []
  {
    SortedDirsAreSorted(env, files);
    assert files[0] in files && DirToken(env, files[0]) in SortedDirs(env, files);
  }

  function RecordWith(env: Env, c: Commit, files: seq<string>): GitRecord
    requires env.parseDate(c.date).Some?
  {
    var (typ, scope) := env.typeScope(c.subject);
    GitRecord(c.sha, [typ, scope] + DirTokens(env, files), env.parseDate(c.date).value,
              env.sanitize(BodyText(c.subject, c.body)))
  }

  lemma {:induction false} BuiltFromHeader(env: Env, c: Commit, numstat: seq<string>)
    requires ValidCommit(c) && Dated(env, c)
    ensures var files := ParseNumstat(numstat);
            BuildGitRecord(env, TrimSpace(HeaderBlock(c) + "\n"), numstat) ==
            if files.None? then Binary else Built(RecordWith(env, c, files.value))
  {
    var trimmed := TrimNewlines(TrimSpace(HeaderBlock(c) + "\n"));
    TrimHeader(c);
    HeaderCut(c);
    assert trimmed == HeaderBlock(c);
    HeaderSplits(c);
  }

  lemma {:induction false} HeaderCut(c: Commit)
    requires BLOCK_SEP !in HeaderFields(c)
    ensures IndexOf(HeaderBlock(c), BLOCK_SEP) == |HeaderFields(c)|
    ensures HeaderBlock(c)[..|HeaderFields(c)|] == HeaderFields(c)
  {
    FirstOccurrence(HeaderFields(c), BLOCK_SEP, "");
    assert HeaderFields(c) + [BLOCK_SEP] + "" == HeaderBlock(c);
  }

  lemma {:induction false} InsteadIs(env: Env, c: Commit, next: Commit)
    requires ValidCommit(c) && Dated(env, c)
    ensures var files := ParseNumstat(Taken(next));
            Instead(env, c, next) == if files.None? then [] else [RecordWith(env, c, files.value)]
  {
    BuiltFromHeader(env, c, Taken(next));
    TrimHeader(c);
    assert HeaderBlock(c) != "";
  }

  lemma {:induction false} RecordsDiffer(env: Env, c: Commit, files: seq<string>)
    requires env.parseDate(c.date).Some?
    ensures RecordWith(env, c, files) == RecordWith(env, c, []) <==> files == []
  {
    if files != [] {
      SomeDirs(env, files);
      var (typ, scope) := env.typeScope(c.subject);
      assert |[typ, scope] + DirTokens(env, files)| > |[typ, scope] + DirTokens(env, [])|;
    }
  }

  lemma {:induction false} ExpectedWithoutFiles(env: Env, c: Commit)
    requires ValidCommit(c) && Dated(env, c) && c.stats == []
    ensures Expected(env, c) == [RecordWith(env, c, [])]
  {
    assert FilesOf(c.stats) == [];
  }

  lemma {:induction false} InsteadIff(env: Env, c: Commit, next: Commit)
    requires ValidCommit(c) && Dated(env, c) && c.stats == [] && PlainCommit(next) && AnyBinary(next.stats)
    ensures |Instead(env, c, next)| <= 1 == |Expected(env, c)|
    ensures Instead(env, c, next) == Expected(env, c) <==> Harmless(next)
  {
    HarmlessIff(next);
    InsteadIs(env, c, next);
    ExpectedWithoutFiles(env, c);
    if ParseNumstat(Taken(next)).Some? {
      RecordsDiffer(env, c, ParseNumstat(Taken(next)).value);
    }
  }

  lemma {:induction false} FlushAppends(env: Env, h: string, numstat: seq<string>, records: seq<GitRecord>)
    ensures Flush(env, Open(h, numstat, records)).records == records + Flush(env, Open(h, numstat, [])).records
  {
    assert forall added: seq<GitRecord> :: [] + added == added;
  }

  /** A commit without files and the binary one behind it, read together. */
  lemma {:induction false} ReadsPair(env: Env, records: seq<GitRecord>, commits: seq<Commit>)
    requires AllPrinted(env, commits) && |commits| > 1 && commits[0].stats == [] && AnyBinary(commits[1].stats)
    ensures Flush(env, FeedAll(env, Clean(records), GitLines(commits))).records ==
            Flush(env, FeedAll(env, Clean(records + Instead(env, commits[0], commits[1])),
                               GitLines(commits[2..]))).records
  {
    var (c, next, rest) := (commits[0], commits[1], commits[2..]);
    assert commits[1..][0] == next && commits[1..][1..] == rest;
    AllPrintedTail(env, commits);
    AllPrintedTail(env, commits[1..]);
    EmptyThenOpen(env, records, commits);
    var h := HeaderBlock(c) + "\n";
    FeedNext(env, Open(h, [], records), commits[1..]);
    var h', numstat', records' := TakenIn(env, h, [], records, next);
    assert [] + Taken(next) == Taken(next);
    FlushAppends(env, h, Taken(next), records);
    CleanFlush(env, records + Instead(env, c, next));
  }

  /** What the parser makes of a history in which only binary commits follow those without files. */
  function Actual(env: Env, commits: seq<Commit>): seq<GitRecord>
    decreases |commits|
  {
    if commits == [] then []
    else if |commits| > 1 && commits[0].stats == [] then
      Instead(env, commits[0], commits[1]) + Actual(env, commits[2..])
    else Expected(env, commits[0]) + Actual(env, commits[1..])
  }

  lemma {:induction false} ReadsActual(env: Env, records: seq<GitRecord>, commits: seq<Commit>)
    requires AllPrinted(env, commits) && !LosesOne(commits)
    ensures Flush(env, FeedAll(env, Clean(records), GitLines(commits))).records == records + Actual(env, commits)
    decreases |commits|
  {
    if commits == [] {
      CleanFlush(env, records);
      assert records + [] == records;
    } else {
      AllPrintedTail(env, commits);
      if |commits| > 1 && commits[0].stats == [] {
        AllPrintedTail(env, commits[1..]);
        assert commits[1..][1..] == commits[2..];
        ReadsPair(env, records, commits);
        ReadsActual(env, records + Instead(env, commits[0], commits[1]), commits[2..]);
        Associate(records, Instead(env, commits[0], commits[1]), Actual(env, commits[2..]));
      } else {
        ReadsCommit(env, records, commits);
        ReadsActual(env, records + Expected(env, commits[0]), commits[1..]);
        Associate(records, Expected(env, commits[0]), Actual(env, commits[1..]));
      }
    }
  }

  /** No commit without files stands in front of one that is not harmless. */
  predicate Intact(commits: seq<Commit>) {
    forall i :: 0 <= i < |commits| - 1 ==> commits[i].stats != [] || Harmless(commits[i + 1])
  }

  lemma {:induction false} IntactFirst(commits: seq<Commit>)
    requires |commits| > 1
    ensures Intact(commits) <==> (commits[0].stats != [] || Harmless(commits[1])) && Intact(commits[1..])
  {
    var rest := commits[1..];
    if Intact(commits) {
      forall i | 0 <= i < |rest| - 1
        ensures rest[i].stats != [] || Harmless(rest[i + 1])
      {
        assert rest[i] == commits[i + 1] && rest[i + 1] == commits[i + 2];
      }
    }
    if (commits[0].stats != [] || Harmless(commits[1])) && Intact(rest) {
      forall i | 0 <= i < |commits| - 1
        ensures commits[i].stats != [] || Harmless(commits[i + 1])
      {
        assert i > 0 ==> commits[i] == rest[i - 1] && commits[i + 1] == rest[i];
      }
    }
  }

  lemma {:induction false} PartsEqual(a: seq<GitRecord>, x: seq<GitRecord>, b: seq<GitRecord>, y: seq<GitRecord>)
    requires |a| <= |b| && |x| <= |y|
    ensures a + x == b + y <==> a == b && x == y
  {
    if a + x == b + y {
      assert |a + x| == |b + y|;
      assert (a + x)[..|a|] == a && (b + y)[..|b|] == b && (a + x)[|a|..] == x && (b + y)[|b|..] == y;
    }
  }

  lemma {:induction false} ActualIff(env: Env, commits: seq<Commit>)
    requires AllPrinted(env, commits) && !LosesOne(commits)
    ensures |Actual(env, commits)| <= |AllExpected(env, commits)|
    ensures Actual(env, commits) == AllExpected(env, commits) <==> Intact(commits)
    decreases |commits|
  {
    if commits != [] {
      var (c, rest) := (commits[0], commits[1..]);
      AllPrintedTail(env, commits);
      if |commits| > 1 {
        IntactFirst(commits);
      }
      if |commits| > 1 && c.stats == [] {
        PairIff(env, commits);
      } else {
        ActualIff(env, rest);
        PartsEqual(Expected(env, c), Actual(env, rest), Expected(env, c), AllExpected(env, rest));
      }
    }
  }

  lemma {:induction false} PairIff(env: Env, commits: seq<Commit>)
    requires AllPrinted(env, commits) && |commits| > 1 && commits[0].stats == [] && !LosesOne(commits)
    ensures |Actual(env, commits)| <= |AllExpected(env, commits)|
    ensures Actual(env, commits) == AllExpected(env, commits) <==> Harmless(commits[1]) && Intact(commits[1..])
    decreases |commits|, 0
  {
    var (c, next, rest) := (commits[0], commits[1], commits[2..]);
    AllPrintedTail(env, commits);
    AllPrintedTail(env, commits[1..]);
    assert commits[1..][0] == next && commits[1..][1..] == rest;
    assert next.stats != [];
    InsteadIff(env, c, next);
    ActualIff(env, rest);
    if rest != [] {
      IntactFirst(commits[1..]);
    }
    assert Expected(env, next) == [];
    assert AllExpected(env, commits[1..]) == [] + AllExpected(env, rest) == AllExpected(env, rest);
    PartsEqual(Instead(env, c, next), Actual(env, rest), Expected(env, c), AllExpected(env, rest));
  }

  lemma {:induction false} IntactLosesNone(commits: seq<Commit>)
    requires Intact(commits)
    ensures !LosesOne(commits)
    decreases |commits|
  {
    if |commits| > 1 {
      IntactFirst(commits);
      IntactLosesNone(commits[1..]);
    }
  }

  /** A printed history is parsed into one record per non-binary commit, in order and intact, exactly if every
      commit without files is the last one or has a harmless commit behind it. */
  lemma {:induction false} RoundTripIff(env: Env, commits: seq<Commit>)
    requires AllPrinted(env, commits)
    ensures Parse(env, Render(commits)) == AllExpected(env, commits) <==> Intact(commits)
  {
    ParseOfRender(env, commits);
    if LosesOne(commits) {
      StrictBound(env, [], commits);
      if Intact(commits) {
        IntactLosesNone(commits);
      }
    } else {
      ReadsActual(env, [], commits);
      ActualIff(env, commits);
      assert [] + Actual(env, commits) == Actual(env, commits);
    }
  }

  predicate NoneBinary(commits: seq<Commit>) {
    forall i :: 0 <= i < |commits| ==> !AnyBinary(commits[i].stats)
  }

  lemma {:induction false} NotHarmless(commits: seq<Commit>, i: nat)
    requires NoneBinary(commits) && i < |commits|
    ensures !Harmless(commits[i])
  {
  }

  lemma {:induction false} IntactWithoutBinaries(commits: seq<Commit>)
    requires NoneBinary(commits)
    ensures Intact(commits) <==> AllButLastHaveFiles(commits)
  {
    if Intact(commits) {
      forall i | 0 <= i < |commits| - 1
        ensures commits[i].stats != []
      {
        NotHarmless(commits, i + 1);
      }
    }
  }

  /** Among histories without binary commits it is exactly those in which every commit but the last has files. */
  lemma {:induction false} WithoutBinaries(env: Env, commits: seq<Commit>)
    requires AllPrinted(env, commits) && NoneBinary(commits)
    ensures Parse(env, Render(commits)) == AllExpected(env, commits) <==> AllButLastHaveFiles(commits)
  {
    RoundTripIff(env, commits);
    IntactWithoutBinaries(commits);
  }

  /** A binary commit whose body starts with a blank line is harmless if its first line has no tabs. */
  lemma {:induction false} BlankBodyIsHarmless(c: Commit, rest: string)
    requires Printed(c) && PlainCommit(c) && AnyBinary(c.stats) && c.body == "\n\n" + rest
    requires '\t' !in FirstFields(c)
    ensures Harmless(c)
  {
    var tail := "\n" + rest + [BLOCK_SEP];
    SplitFields(c);
    assert c.body + [BLOCK_SEP] == "" + ['\n'] + tail && tail == "" + ['\n'] + (rest + [BLOCK_SEP]);
    FirstOccurrence("", '\n', tail);
    FirstOccurrence("", '\n', rest + [BLOCK_SEP]);
    SplitPrefix(FirstFields(c), c.body + [BLOCK_SEP]);
    var lines := HeaderLines(c);
    assert lines[0] == FirstFields(c) + "" == FirstFields(c) && lines[1] == "";
    OnlyFirstLineHasFields(c);
    assert FirstBlank(lines) == 1;
    assert SplitN(lines[0], '\t', 3) == [lines[0]];
  }
}

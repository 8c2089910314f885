/** The parser of `git log` output: parseGitEntries, buildGitRecord, parseNumstat and dirTokens of
    tools/learn/ingest_git.go, and the format it reads. */
module GitLog {

  import opened Prelude
  import opened Text
  import opened Picking
  import Lex
  import Sorting

  const FIELD_SEP: char := '\U{1f}'
  const BLOCK_SEP: char := '\U{1e}'

  /** What the parser takes from elsewhere: date parsing, the subject's type and scope, the parent
      directory of a file and the sanitizer. */
  datatype Env = Env(
    parseDate: string -> Option<int>,
    typeScope: string -> (string, string),
    dirOf: string -> string,
    sanitize: string -> string)

  datatype GitRecord = GitRecord(source: string, tokens: seq<string>, seenAt: int, body: string)

  // ---- Directory tokens ----

  const MAX_DIRS := 8

  /** The parent directories, ascending and without repetition. */
  function SortedDirs(env: Env, files: seq<string>): seq<string> {
    if files == [] then [] else Sorting.Insert(SortedDirs(env, Front(files)), DirToken(env, Last(files)), Lex.Less)
  }

  function DirToken(env: Env, file: string): string {
    if env.dirOf(file) == "" then "." else env.dirOf(file)
  }

  function DirTokens(env: Env, files: seq<string>): seq<string> {
    var dirs := SortedDirs(env, files);
    if |dirs| > MAX_DIRS then dirs[..MAX_DIRS] else dirs
  }

  lemma {:induction false} SortedDirsAreSorted(env: Env, files: seq<string>)
    ensures Lex.StrictlySorted(SortedDirs(env, files))
    ensures forall d :: d in SortedDirs(env, files) <==> exists f :: f in files && DirToken(env, f) == d
  {
    if files != [] {
      SortedDirsAreSorted(env, Front(files));
      assert files == Front(files) + [Last(files)];
      Lex.InsertString(SortedDirs(env, Front(files)), DirToken(env, Last(files)));
    }
  }

  ghost predicate IsDirOf(env: Env, d: string, f: string) {
    d == if env.dirOf(f) == "" then "." else env.dirOf(f)
  }

  /** The first eight directories of the files, ascending. */
  ghost predicate AreFirstDirs(env: Env, files: seq<string>, dirs: seq<string>) {
    && |dirs| <= 8 && Lex.StrictlySorted(dirs)
    && (forall d :: d in dirs ==> exists f :: f in files && IsDirOf(env, d, f))
    && (forall d, f :: f in files && IsDirOf(env, d, f) && d !in dirs ==> |dirs| == 8 && Lex.Less(dirs[7], d))
  }

  lemma {:induction false} DirTokensAreFirst(env: Env, files: seq<string>)
    ensures AreFirstDirs(env, files, DirTokens(env, files))
  {
    SortedDirsAreSorted(env, files);
    var (all, dirs) := (SortedDirs(env, files), DirTokens(env, files));
    forall d, f | f in files && IsDirOf(env, d, f) && d !in dirs
      ensures |dirs| == 8 && Lex.Less(dirs[7], d)
    {
      assert DirToken(env, f) == d && d in all && |all| > 8;
      assert all == dirs + all[8..];
      var i :| 0 <= i < |all| - 8 && all[8..][i] == d;
      assert all[8 + i] == d && all[7] == dirs[7];
    }
    forall d | d in dirs
      ensures exists f :: f in files && IsDirOf(env, d, f)
    {
      assert d in all;
      var f :| f in files && DirToken(env, f) == d;
      assert IsDirOf(env, d, f);
    }
  }

  method ComputeDirTokens(env: Env, files: seq<string>) returns (dirs: seq<string>)
    ensures dirs == DirTokens(env, files) && AreFirstDirs(env, files, dirs)
  {
    var seen: set<string> := {};
    for i := 0 to |files|
      invariant forall d :: d in seen <==> exists f :: f in files[..i] && DirToken(env, f) == d
    {
      seen := seen + {DirToken(env, files[i])};
      assert files[..i + 1] == files[..i] + [files[i]];
    }
    assert files[..|files|] == files;
    dirs := Lex.SortedElements(seen);
    SortedDirsAreSorted(env, files);
    Lex.SortedUnique(dirs, SortedDirs(env, files));
    if |dirs| > MAX_DIRS {
      dirs := dirs[..MAX_DIRS];
    }
    DirTokensAreFirst(env, files);
  }

  // ---- Numstat lines ----

  /** The files of a numstat block; None when some file is binary. */
  function ParseNumstat(lines: seq<string>): Option<seq<string>> {
    if lines == [] then Some([])
    else
      var (before, parts) := (ParseNumstat(Front(lines)), SplitN(Last(lines), '\t', 3));
      if before.None? then None
      else if Last(lines) == "" || |parts| < 3 then before
      else if parts[0] == "-" && parts[1] == "-" then None
      else Some(before.value + [parts[2]])
  }

  predicate NamesFile(line: string) {
    line != "" && |SplitN(line, '\t', 3)| == 3
  }

  predicate IsBinaryLine(line: string) {
    NamesFile(line) && SplitN(line, '\t', 3)[0] == "-" && SplitN(line, '\t', 3)[1] == "-"
  }

  function NamingLines(lines: seq<string>): seq<bool> {
    seq(|lines|, i requires 0 <= i < |lines| => NamesFile(lines[i]))
  }

  ghost predicate AreFilesOf(files: seq<string>, lines: seq<string>, ps: seq<nat>) {
    |files| == |ps| && forall j :: 0 <= j < |ps| ==>
      ps[j] < |lines| && NamesFile(lines[ps[j]]) && files[j] == SplitN(lines[ps[j]], '\t', 3)[2]
  }

  lemma {:induction false} OneMoreNaming(files: seq<string>, lines: seq<string>, ps: seq<nat>)
    requires lines != [] && AreFilesOf(files, Front(lines), ps)
    ensures AreFilesOf(files, lines, ps)
    ensures NamesFile(Last(lines)) ==>
              AreFilesOf(files + [SplitN(Last(lines), '\t', 3)[2]], lines, ps + [|lines| - 1])
  {
  }

  lemma {:induction false} NextNaming(lines: seq<string>)
    requires lines != []
    ensures Positions(NamingLines(lines)) ==
            if NamesFile(Last(lines)) then Positions(NamingLines(Front(lines))) + [|lines| - 1]
            else Positions(NamingLines(Front(lines)))
  {
    assert Front(NamingLines(lines)) == NamingLines(Front(lines));
    assert Positions(NamingLines(Front(lines))) + [] == Positions(NamingLines(Front(lines)));
  }

  lemma {:induction false} NumstatStep(lines: seq<string>)
    requires lines != []
    ensures var before := ParseNumstat(Front(lines));
            ParseNumstat(lines) ==
            if before.None? || IsBinaryLine(Last(lines)) then None
            else if NamesFile(Last(lines)) then Some(before.value + [SplitN(Last(lines), '\t', 3)[2]])
            else before
  {
    SplitNIs(Last(lines), '\t', 3);
  }

  /** No files are returned exactly if some line has two dashes in front. */
  lemma {:induction false} NumstatFailsIff(lines: seq<string>)
    ensures ParseNumstat(lines).None? <==> exists line :: line in lines && IsBinaryLine(line)
  {
    if lines != [] {
      NumstatFailsIff(Front(lines));
      NumstatStep(lines);
      assert lines == Front(lines) + [Last(lines)];
    }
  }

  /** Otherwise they are the third fields of the lines that have three, in order. */
  lemma {:induction false} NumstatByPosition(lines: seq<string>)
    ensures AreAt(Positions(NamingLines(lines)), NamingLines(lines))
    ensures ParseNumstat(lines).Some? ==>
              AreFilesOf(ParseNumstat(lines).value, lines, Positions(NamingLines(lines)))
  {
    PositionsAreExact(NamingLines(lines));
    if lines != [] {
      var f := Front(lines);
      NumstatByPosition(f);
      NumstatStep(lines);
      NextNaming(lines);
      if ParseNumstat(lines).Some? {
        OneMoreNaming(ParseNumstat(f).value, lines, Positions(NamingLines(f)));
      }
    }
  }

  lemma {:induction false} BinaryStays(lines: seq<string>, k: nat)
    requires k <= |lines| && ParseNumstat(lines[..k]).None?
    ensures ParseNumstat(lines).None?
    decreases |lines|
  {
    if k < |lines| {
      assert Front(lines)[..k] == lines[..k];
      BinaryStays(Front(lines), k);
    } else {
      assert lines[..k] == lines;
    }
  }

  method ComputeNumstat(lines: seq<string>) returns (r: Option<seq<string>>)
    ensures r == ParseNumstat(lines)
  {
    var files: seq<string> := [];
    for i := 0 to |lines|
      invariant ParseNumstat(lines[..i]) == Some(files)
    {
      assert Front(lines[..i + 1]) == lines[..i];
      var parts := SplitN(lines[i], '\t', 3);
      if lines[i] == "" || |parts| < 3 {
        continue;
      }
      if parts[0] == "-" && parts[1] == "-" {
        BinaryStays(lines, i + 1);
        return None;
      }
      files := files + [parts[2]];
    }
    assert lines[..|lines|] == lines;
    return Some(files);
  }

  // ---- One entry ----

  datatype Built = Malformed | Binary | Built(record: GitRecord)

  function BodyText(subject: string, body: string): string {
    if TrimSpace(body) != "" then subject + "\n\n" + body else subject
  }

  function BuildGitRecord(env: Env, header: string, numstat: seq<string>): Built {
    var trimmed := TrimNewlines(header);
    var idx := IndexOf(trimmed, BLOCK_SEP);
    var fields := SplitN(if idx >= 0 then trimmed[..idx] else trimmed, FIELD_SEP, 4);
    if |fields| < 4 then Malformed
    else
      var seenAt := env.parseDate(TrimSpace(fields[1]));
      if seenAt.None? then Malformed
      else
        var files := ParseNumstat(numstat);
        if files.None? then Binary
        else
          var (typ, scope) := env.typeScope(fields[2]);
          Built(GitRecord(TrimSpace(fields[0]), [typ, scope] + DirTokens(env, files.value), seenAt.value,
                          env.sanitize(BodyText(fields[2], fields[3]))))
  }

  // ---- The line loop ----

  datatype Scan = Scan(header: string, numstat: seq<string>, inHeader: bool, records: seq<GitRecord>)

  const START := Scan("", [], true, [])

  function Flush(env: Env, st: Scan): Scan {
    var text := TrimSpace(st.header);
    var b := BuildGitRecord(env, text, st.numstat);
    Scan("", [], true, st.records + if text != "" && b.Built? then [b.record] else [])
  }

  function Feed(env: Env, st: Scan, line: string): Scan {
    if st.inHeader then st.(header := st.header + line + "\n", inHeader := BLOCK_SEP !in line)
    else if line == "" then Flush(env, st)
    else st.(numstat := st.numstat + [line])
  }

  function FeedAll(env: Env, st: Scan, lines: seq<string>): Scan
    decreases |lines|
  {
    if lines == [] then st else FeedAll(env, Feed(env, st, lines[0]), lines[1..])
  }

  function Parse(env: Env, raw: string): seq<GitRecord> {
    if TrimSpace(raw) == "" then [] else Flush(env, FeedAll(env, START, Lines(raw))).records
  }

  method ParseGitEntries(env: Env, raw: string) returns (records: seq<GitRecord>)
    ensures records == Parse(env, raw)
  {
    if TrimSpace(raw) == "" {
      return [];
    }
    var lines := Lines(raw);
    records := [];
    var header: string := "";
    var numstat: seq<string> := [];
    var inHeader := true;
    for i := 0 to |lines|
      invariant FeedAll(env, START, lines) == FeedAll(env, Scan(header, numstat, inHeader, records), lines[i..])
    {
      var line := lines[i];
      assert lines[i..][1..] == lines[i + 1..];
      if inHeader {
        header := header + line;
        header := header + "\n";
        if BLOCK_SEP in line {
          inHeader := false;
        }
        continue;
      }
      if line == "" {
        records := FlushEntry(env, header, numstat, records);
        header, numstat, inHeader := "", [], true;
        continue;
      }
      numstat := numstat + [line];
    }
    records := FlushEntry(env, header, numstat, records);
  }

  /** The flush closure: appends the record of the collected entry, if it has one. */
  method FlushEntry(env: Env, header: string, numstat: seq<string>, before: seq<GitRecord>)
    returns (records: seq<GitRecord>)
    ensures forall inHeader :: records == Flush(env, Scan(header, numstat, inHeader, before)).records
  {
    var text := TrimSpace(header);
    if text == "" {
      return before;
    }
    var b := BuildGitRecord(env, text, numstat);
    if b.Built? {
      return before + [b.record];
    }
    return before;
  }

  // ---- The format ----

  datatype FileStat = FileStat(added: string, deleted: string, file: string)

  datatype Commit = Commit(sha: string, date: string, subject: string, body: string, stats: seq<FileStat>)

  function StatLine(s: FileStat): string {
    s.added + ['\t'] + (s.deleted + ['\t'] + s.file)
  }

  function HeaderFields(c: Commit): string {
    c.sha + [FIELD_SEP] + (c.date + [FIELD_SEP] + (c.subject + [FIELD_SEP] + c.body))
  }

  /** The header block: the fields and the block separator. */
  function HeaderBlock(c: Commit): string {
    HeaderFields(c) + [BLOCK_SEP]
  }

  function StatTexts(stats: seq<FileStat>): seq<string> {
    seq(|stats|, i requires 0 <= i < |stats| => StatLine(stats[i]))
  }

  /** One commit: the header block and, if it has files, a line for each. */
  function RenderCommit(c: Commit): string {
    HeaderBlock(c) + if c.stats == [] then "" else "\n" + Unlines(StatTexts(c.stats))
  }

  /** What `git log` prints: the commits with a line feed between them, which after a commit with files is a
      blank line, and after one without files only ends its header. */
  function Render(commits: seq<Commit>): string {
    if commits == [] then ""
    else if |commits| == 1 then RenderCommit(commits[0])
    else RenderCommit(commits[0]) + "\n" + Render(commits[1..])
  }

  predicate Plain(s: string) {
    BLOCK_SEP !in s && '\r' !in s
  }

  predicate ValidStat(s: FileStat) {
    && '\t' !in s.added && '\t' !in s.deleted
    && '\n' !in StatLine(s) && '\r' !in StatLine(s)
  }

  predicate ValidStats(stats: seq<FileStat>) {
    forall i :: 0 <= i < |stats| ==> ValidStat(stats[i])
  }

  /** No separator where it would be taken for one, and no carriage return. */
  predicate ValidCommit(c: Commit) {
    && Plain(c.sha) && Plain(c.date) && Plain(c.subject) && Plain(c.body)
    && FIELD_SEP !in c.sha && FIELD_SEP !in c.date && FIELD_SEP !in c.subject
    && TrimSpace(c.sha) == c.sha && TrimSpace(c.date) == c.date
    && ValidStats(c.stats)
  }

  predicate BinaryStat(s: FileStat) {
    s.added == "-" && s.deleted == "-"
  }

  predicate AnyBinary(stats: seq<FileStat>) {
    exists i :: 0 <= i < |stats| && BinaryStat(stats[i])
  }

  function FilesOf(stats: seq<FileStat>): seq<string> {
    seq(|stats|, i requires 0 <= i < |stats| => stats[i].file)
  }

  /** What the parser should make of a commit. */
  function Expected(env: Env, c: Commit): seq<GitRecord> {
    if AnyBinary(c.stats) || env.parseDate(c.date).None? then []
    else
      var (typ, scope) := env.typeScope(c.subject);
      [GitRecord(c.sha, [typ, scope] + DirTokens(env, FilesOf(c.stats)), env.parseDate(c.date).value,
                 env.sanitize(BodyText(c.subject, c.body)))]
  }

  function AllExpected(env: Env, commits: seq<Commit>): seq<GitRecord> {
    if commits == [] then [] else Expected(env, commits[0]) + AllExpected(env, commits[1..])
  }

  // ---- Round trip ----

  lemma {:induction false} StatSplits(s: FileStat)
    requires ValidStat(s)
    ensures SplitN(StatLine(s), '\t', 3) == [s.added, s.deleted, s.file]
  {
    SplitFirst(s.added, '\t', s.deleted + ['\t'] + s.file, 3);
    SplitFirst(s.deleted, '\t', s.file, 2);
  }

  lemma {:induction false} NumstatNext(lines: seq<string>, s: FileStat)
    requires ValidStat(s)
    ensures ParseNumstat(lines + [StatLine(s)]) ==
            if ParseNumstat(lines).None? || BinaryStat(s) then None else Some(ParseNumstat(lines).value + [s.file])
  {
    StatSplits(s);
    assert Front(lines + [StatLine(s)]) == lines;
  }

  lemma {:induction false} LastStat(stats: seq<FileStat>)
    requires stats != []
    ensures StatTexts(stats) == StatTexts(Front(stats)) + [StatLine(Last(stats))]
    ensures FilesOf(stats) == FilesOf(Front(stats)) + [Last(stats).file]
    ensures AnyBinary(stats) <==> AnyBinary(Front(stats)) || BinaryStat(Last(stats))
    ensures ValidStats(stats) ==> ValidStats(Front(stats)) && ValidStat(Last(stats))
  {
    assert forall i :: 0 <= i < |stats| - 1 ==> Front(stats)[i] == stats[i];
    assert stats[|stats| - 1] == Last(stats);
  }

  /** The numstat block reads back as the file list. */
  lemma {:induction false} NumstatRoundTrip(stats: seq<FileStat>)
    requires ValidStats(stats)
    ensures ParseNumstat(StatTexts(stats)) == if AnyBinary(stats) then None else Some(FilesOf(stats))
  {
    if stats == [] {
      assert StatTexts(stats) == [] && FilesOf(stats) == [];
    } else {
      LastStat(stats);
      NumstatRoundTrip(Front(stats));
      NumstatNext(StatTexts(Front(stats)), Last(stats));
    }
  }

  predicate Distinct(files: seq<string>) {
    forall i, j :: 0 <= i < j < |files| ==> files[i] != files[j]
  }

  /** Repetitions are kept: the result lists a file twice exactly if two lines of the block name it. */
  lemma {:induction false} NumstatIsUniqueIff(stats: seq<FileStat>)
    requires ValidStats(stats) && !AnyBinary(stats)
    ensures ParseNumstat(StatTexts(stats)).Some?
    ensures Distinct(ParseNumstat(StatTexts(stats)).value) <==>
            forall i, j :: 0 <= i < j < |stats| ==> stats[i].file != stats[j].file
  {
    NumstatRoundTrip(stats);
    var files := FilesOf(stats);
    assert forall i :: 0 <= i < |stats| ==> files[i] == stats[i].file;
  }

  lemma {:induction false} HeaderSplits(c: Commit)
    requires FIELD_SEP !in c.sha && FIELD_SEP !in c.date && FIELD_SEP !in c.subject
    ensures SplitN(HeaderFields(c), FIELD_SEP, 4) == [c.sha, c.date, c.subject, c.body]
  {
    var rest := c.date + [FIELD_SEP] + (c.subject + [FIELD_SEP] + c.body);
    SubjectSplits(c.date, c.subject, c.body, 3);
    PutFirst(c.sha, rest, [c.date, c.subject, c.body], 4);
  }

  lemma {:induction false} PutFirst(piece: string, rest: string, others: seq<string>, n: nat)
    requires FIELD_SEP !in piece && n > 1 && SplitN(rest, FIELD_SEP, n - 1) == others
    ensures SplitN(piece + [FIELD_SEP] + rest, FIELD_SEP, n) == [piece] + others
  {
    SplitFirst(piece, FIELD_SEP, rest, n);
  }

  lemma {:induction false} SubjectSplits(date: string, subject: string, body: string, n: nat)
    requires FIELD_SEP !in date && FIELD_SEP !in subject && n == 3
    ensures SplitN(date + [FIELD_SEP] + (subject + [FIELD_SEP] + body), FIELD_SEP, n) == [date, subject, body]
  {
    SplitFirst(subject, FIELD_SEP, body, n - 1);
    SplitFirst(date, FIELD_SEP, subject + [FIELD_SEP] + body, n);
  }

  // ---- The lines of the text ----

  function HeaderLines(c: Commit): seq<string> {
    Split(HeaderBlock(c))
  }

  function EntryLines(c: Commit): seq<string> {
    HeaderLines(c) + StatTexts(c.stats)
  }

  function SeparatorLine(c: Commit, rest: seq<Commit>): seq<string> {
    if rest != [] && c.stats != [] then [""] else []
  }

  function GitLines(commits: seq<Commit>): seq<string> {
    if commits == [] then []
    else EntryLines(commits[0]) + (SeparatorLine(commits[0], commits[1..]) + GitLines(commits[1..]))
  }

  predicate NonBlank(lines: seq<string>) {
    forall i :: 0 <= i < |lines| ==> lines[i] != ""
  }

  lemma {:induction false} StatTextsArePlain(stats: seq<FileStat>)
    requires ValidStats(stats)
    ensures PlainLines(StatTexts(stats)) && NonBlank(StatTexts(stats))
  {
    forall i | 0 <= i < |stats|
      ensures StatLine(stats[i]) != "" && '\n' !in StatLine(stats[i]) && '\r' !in StatLine(stats[i])
    {
      assert ValidStat(stats[i]);
    }
  }

  predicate PlainCommit(c: Commit) {
    Plain(c.sha) && Plain(c.date) && Plain(c.subject) && Plain(c.body) && ValidStats(c.stats)
  }

  lemma {:induction false} HeaderLinesArePlain(c: Commit)
    requires PlainCommit(c)
    ensures BLOCK_SEP !in HeaderFields(c) && '\r' !in HeaderBlock(c)
    ensures PlainLines(HeaderLines(c)) && Unlines(HeaderLines(c)) == HeaderBlock(c) + "\n"
  {
    SplitIsLines(HeaderBlock(c));
    SplitKeepsChars(HeaderBlock(c), '\r');
  }

  lemma {:induction false} LinesOfLastCommit(c: Commit)
    requires PlainCommit(c)
    ensures Lines(RenderCommit(c)) == EntryLines(c)
  {
    HeaderLinesArePlain(c);
    if c.stats == [] {
      assert RenderCommit(c) == HeaderBlock(c);
      LinesIsSplit(HeaderBlock(c));
      assert HeaderLines(c) + StatTexts(c.stats) == HeaderLines(c);
    } else {
      var texts := StatTexts(c.stats);
      StatTextsArePlain(c.stats);
      assert RenderCommit(c) == Unlines(HeaderLines(c)) + Unlines(texts);
      FirstLines(HeaderLines(c), Unlines(texts));
      FirstLines(texts, "");
      assert Unlines(texts) + "" == Unlines(texts) && texts + [] == texts;
    }
  }

  lemma {:induction false} GroupText(header: string, texts: string, rest: string)
    ensures header + ("\n" + texts) + "\n" + rest == header + "\n" + (texts + ("\n" + rest))
  {
  }

  lemma {:induction false} GroupLines(header: seq<string>, texts: seq<string>, rest: seq<string>)
    ensures header + (texts + rest) == header + texts + rest
  {
  }

  lemma {:induction false} TextOfCommitWithFiles(c: Commit, rest: string)
    requires PlainCommit(c) && c.stats != []
    ensures RenderCommit(c) + "\n" + rest ==
            Unlines(HeaderLines(c)) + (Unlines(StatTexts(c.stats)) + ("\n" + rest))
  {
    HeaderLinesArePlain(c);
    GroupText(HeaderBlock(c), Unlines(StatTexts(c.stats)), rest);
  }

  lemma {:induction false} BlankLine(rest: string)
    ensures Lines("\n" + rest) == [""] + Lines(rest)
  {
    FirstLine("", rest);
    assert "" + "\n" + rest == "\n" + rest;
  }

  lemma {:induction false} LinesOfCommitWithFiles(c: Commit, rest: string)
    requires PlainCommit(c) && c.stats != []
    ensures Lines(RenderCommit(c) + "\n" + rest) == EntryLines(c) + ([""] + Lines(rest))
  {
    var (lines, texts) := (HeaderLines(c), StatTexts(c.stats));
    HeaderLinesArePlain(c);
    StatTextsArePlain(c.stats);
    TextOfCommitWithFiles(c, rest);
    FirstLines(lines, Unlines(texts) + ("\n" + rest));
    FirstLines(texts, "\n" + rest);
    BlankLine(rest);
    GroupLines(lines, texts, [""] + Lines(rest));
  }

  lemma {:induction false} LinesOfCommit(c: Commit, rest: string)
    requires PlainCommit(c)
    ensures Lines(RenderCommit(c) + "\n" + rest) == EntryLines(c) + ((if c.stats == [] then [] else [""]) + Lines(rest))
  {
    if c.stats == [] {
      HeaderLinesArePlain(c);
      assert RenderCommit(c) == HeaderBlock(c);
      FirstLines(HeaderLines(c), rest);
      assert EntryLines(c) == HeaderLines(c) && [] + Lines(rest) == Lines(rest);
    } else {
      LinesOfCommitWithFiles(c, rest);
    }
  }

  predicate AllPlain(commits: seq<Commit>) {
    forall i :: 0 <= i < |commits| ==> PlainCommit(commits[i])
  }

  lemma {:induction false} LinesOfRender(commits: seq<Commit>)
    requires AllPlain(commits)
    ensures Lines(Render(commits)) == GitLines(commits)
    decreases |commits|
  {
    if commits != [] {
      var (c, rest) := (commits[0], commits[1..]);
      assert PlainCommit(c) && AllPlain(rest);
      if rest == [] {
        LinesOfLastCommit(c);
        assert EntryLines(c) + ([] + []) == EntryLines(c);
      } else {
        LinesOfRender(rest);
        LinesOfCommit(c, Render(rest));
      }
    }
  }

  // ---- Feeding lines ----

  lemma {:induction false} FeedConcat(env: Env, st: Scan, a: seq<string>, b: seq<string>)
    ensures FeedAll(env, st, a + b) == FeedAll(env, FeedAll(env, st, a), b)
    decreases |a|
  {
    if a == [] {
      assert a + b == b;
    } else {
      assert (a + b)[1..] == a[1..] + b;
      FeedConcat(env, Feed(env, st, a[0]), a[1..], b);
    }
  }

  /** The lines of a header: only the last one contains the separator. */
  predicate EndsBlock(lines: seq<string>) {
    lines != [] && BLOCK_SEP in Last(lines) && forall i :: 0 <= i < |lines| - 1 ==> BLOCK_SEP !in lines[i]
  }

  lemma {:induction false} HeaderEndsBlock(h: string)
    requires BLOCK_SEP !in h
    ensures EndsBlock(Split(h + [BLOCK_SEP]))
    decreases |h|
  {
    var i := IndexOf(h, '\n');
    if i < 0 {
      assert IndexOf(h + [BLOCK_SEP], '\n') == -1;
    } else {
      var (line, more) := (h[..i], h[i + 1..]);
      assert h + [BLOCK_SEP] == line + ['\n'] + (more + [BLOCK_SEP]);
      FirstOccurrence(line, '\n', more + [BLOCK_SEP]);
      HeaderEndsBlock(more);
    }
  }

  /** A header block is collected up to the separator, whatever line breaks it contains. */
  lemma {:induction false} FeedHeader(env: Env, st: Scan, lines: seq<string>)
    requires st.inHeader && EndsBlock(lines)
    ensures FeedAll(env, st, lines) == st.(header := st.header + Unlines(lines), inHeader := false)
    decreases |lines|
  {
    var (line, more) := (lines[0], lines[1..]);
    var next := Feed(env, st, line);
    assert st.header + (line + "\n" + Unlines(more)) == st.header + line + "\n" + Unlines(more);
    if more == [] {
      assert line == Last(lines);
      assert Unlines(more) == "" && next.header + "" == next.header;
    } else {
      assert EndsBlock(more);
      FeedHeader(env, next, more);
    }
  }

  /** The lines of a numstat block are collected as they stand. */
  lemma {:induction false} FeedLines(env: Env, st: Scan, lines: seq<string>)
    requires !st.inHeader && NonBlank(lines)
    ensures FeedAll(env, st, lines) == st.(numstat := st.numstat + lines)
    decreases |lines|
  {
    if lines == [] {
      assert st.numstat + lines == st.numstat;
    } else {
      assert st.numstat + [lines[0]] + lines[1..] == st.numstat + lines;
      assert NonBlank(lines[1..]);
      FeedLines(env, Feed(env, st, lines[0]), lines[1..]);
    }
  }

  /** The state between two commits. */
  function Clean(records: seq<GitRecord>): Scan {
    Scan("", [], true, records)
  }

  /** The state after the lines of a commit that was read from the beginning. */
  function Collected(c: Commit, records: seq<GitRecord>): Scan {
    Scan(HeaderBlock(c) + "\n", StatTexts(c.stats), false, records)
  }

  lemma {:induction false} FeedEntry(env: Env, c: Commit, records: seq<GitRecord>)
    requires PlainCommit(c)
    ensures FeedAll(env, Clean(records), EntryLines(c)) == Collected(c, records)
  {
    HeaderLinesArePlain(c);
    HeaderEndsBlock(HeaderFields(c));
    StatTextsArePlain(c.stats);
    FeedConcat(env, Clean(records), HeaderLines(c), StatTexts(c.stats));
    FeedHeader(env, Clean(records), HeaderLines(c));
    assert "" + Unlines(HeaderLines(c)) == HeaderBlock(c) + "\n";
    FeedLines(env, Scan(HeaderBlock(c) + "\n", [], false, records), StatTexts(c.stats));
    assert [] + StatTexts(c.stats) == StatTexts(c.stats);
  }

  /** The blank line, if there is one, is fed after the lines of the commit. */
  function Separate(env: Env, st: Scan, c: Commit, rest: seq<Commit>): Scan {
    if rest != [] && c.stats != [] then Feed(env, st, "") else st
  }

  lemma {:induction false} FeedNext(env: Env, st: Scan, commits: seq<Commit>)
    requires commits != []
    ensures FeedAll(env, st, GitLines(commits)) ==
            FeedAll(env, Separate(env, FeedAll(env, st, EntryLines(commits[0])), commits[0], commits[1..]),
                    GitLines(commits[1..]))
  {
    var (c, rest) := (commits[0], commits[1..]);
    var mid := FeedAll(env, st, EntryLines(c));
    FeedConcat(env, st, EntryLines(c), SeparatorLine(c, rest) + GitLines(rest));
    FeedConcat(env, mid, SeparatorLine(c, rest), GitLines(rest));
    assert rest != [] && c.stats != [] ==> [""][1..] == [];
  }

  // Trimming the header block removes only the line feed after it.

  lemma {:induction false} TrimShortens(s: string)
    ensures |TrimLeft(s)| <= |s| && |TrimRight(s)| <= |s|
  {
    if s != "" {
      TrimShortens(s[1..]);
      TrimShortens(Front(s));
    }
  }

  lemma {:induction false} TrimmedHead(s: string)
    requires s != "" && TrimSpace(s) == s
    ensures !IsSpace(s[0])
  {
    TrimShortens(s[1..]);
    TrimShortens(TrimLeft(s));
  }

  lemma {:induction false} BlankIsAllSpace(s: string, c: char)
    requires TrimSpace(s) == "" && c in s
    ensures IsSpace(c)
  {
    if IsSpace(s[0]) {
      assert s == [s[0]] + s[1..];
      if c != s[0] {
        BlankIsAllSpace(s[1..], c);
      }
    } else {
      RightKeepsHead(s);
    }
  }

  lemma {:induction false} RightKeepsHead(s: string)
    requires s != "" && !IsSpace(s[0])
    ensures TrimRight(s) != ""
  {
    if IsSpace(Last(s)) {
      RightKeepsHead(Front(s));
    }
  }

  lemma {:induction false} TrimHeader(c: Commit)
    requires TrimSpace(c.sha) == c.sha
    ensures TrimSpace(HeaderBlock(c) + "\n") == HeaderBlock(c) && TrimNewlines(HeaderBlock(c)) == HeaderBlock(c)
  {
    var h := HeaderBlock(c);
    if c.sha != "" {
      TrimmedHead(c.sha);
    }
    assert h[0] == if c.sha == "" then FIELD_SEP else c.sha[0];
    var text := h + "\n";
    assert Front(text) == h && Last(h) == BLOCK_SEP;
    assert TrimLeft(text) == text;
    assert TrimRight(text) == TrimRight(h) == h;
  }

  lemma {:induction false} BuildsExpected(env: Env, c: Commit)
    requires ValidCommit(c)
    ensures var b := BuildGitRecord(env, HeaderBlock(c), StatTexts(c.stats));
            Expected(env, c) == if b.Built? then [b.record] else []
  {
    TrimHeader(c);
    FirstOccurrence(HeaderFields(c), BLOCK_SEP, "");
    assert HeaderFields(c) + [BLOCK_SEP] + "" == HeaderBlock(c);
    HeaderSplits(c);
    NumstatRoundTrip(c.stats);
  }

  /** Flushing a commit that was read from the beginning adds its record. */
  lemma {:induction false} FlushCommit(env: Env, c: Commit, records: seq<GitRecord>)
    requires ValidCommit(c)
    ensures Flush(env, Collected(c, records)) == Clean(records + Expected(env, c))
  {
    TrimHeader(c);
    BuildsExpected(env, c);
  }

  predicate AllValid(commits: seq<Commit>) {
    forall i :: 0 <= i < |commits| ==> ValidCommit(commits[i])
  }

  lemma {:induction false} AllValidTail(commits: seq<Commit>)
    requires AllValid(commits) && commits != []
    ensures ValidCommit(commits[0]) && PlainCommit(commits[0]) && AllValid(commits[1..])
  {
  }

  /** Reading one rendered commit that has files, or is the last, adds its record and leaves the parser
      between two commits. */
  lemma {:induction false} ReadsCommit(env: Env, records: seq<GitRecord>, commits: seq<Commit>)
    requires AllValid(commits) && commits != [] && (commits[0].stats != [] || |commits| == 1)
    ensures var (c, rest) := (commits[0], commits[1..]);
            Flush(env, FeedAll(env, Clean(records), GitLines(commits))).records ==
            Flush(env, FeedAll(env, Clean(records + Expected(env, c)), GitLines(rest))).records
  {
    var (c, rest) := (commits[0], commits[1..]);
    AllValidTail(commits);
    FeedNext(env, Clean(records), commits);
    FeedEntry(env, c, records);
    FlushCommit(env, c, records);
    if rest == [] {
      CleanFlush(env, records + Expected(env, c));
    }
  }

  lemma {:induction false} CleanFlush(env: Env, records: seq<GitRecord>)
    ensures Flush(env, Clean(records)) == Clean(records)
  {
    assert records + [] == records;
  }

  lemma {:induction false} Associate(a: seq<GitRecord>, b: seq<GitRecord>, c: seq<GitRecord>)
    ensures (a + b) + c == a + (b + c)
  {
  }

  /** Every commit but the last has files. */
  predicate AllButLastHaveFiles(commits: seq<Commit>) {
    forall i :: 0 <= i < |commits| - 1 ==> commits[i].stats != []
  }

  lemma {:induction false} ReadsCommits(env: Env, records: seq<GitRecord>, commits: seq<Commit>)
    requires AllValid(commits) && AllButLastHaveFiles(commits)
    ensures Flush(env, FeedAll(env, Clean(records), GitLines(commits))).records == records + AllExpected(env, commits)
    decreases |commits|
  {
    if commits == [] {
      CleanFlush(env, records);
      assert records + [] == records;
    } else {
      var (c, rest) := (commits[0], commits[1..]);
      AllValidTail(commits);
      assert forall i :: 0 <= i < |rest| - 1 ==> rest[i] == commits[i + 1];
      ReadsCommit(env, records, commits);
      ReadsCommits(env, records + Expected(env, c), rest);
      Associate(records, Expected(env, c), AllExpected(env, rest));
    }
  }

  lemma {:induction false} SeparatorIsNoSpace(raw: string)
    requires BLOCK_SEP in raw
    ensures TrimSpace(raw) != ""
  {
    if TrimSpace(raw) == "" {
      BlankIsAllSpace(raw, BLOCK_SEP);
    }
  }

  /** The parse of a printed history is the fold over its lines. */
  lemma {:induction false} ParseOfRender(env: Env, commits: seq<Commit>)
    requires AllValid(commits)
    ensures Parse(env, Render(commits)) == Flush(env, FeedAll(env, Clean([]), GitLines(commits))).records
  {
    if commits == [] {
      CleanFlush(env, []);
    } else {
      var raw := Render(commits);
      assert raw[|HeaderFields(commits[0])|] == BLOCK_SEP;
      SeparatorIsNoSpace(raw);
      assert AllPlain(commits);
      LinesOfRender(commits);
    }
  }

  /** If every commit but the last has files, printing a history and parsing the text gives one record per
      non-binary commit whose date parses, in order, with its sha, subject, body and file list. */
  lemma {:induction false} RoundTrip(env: Env, commits: seq<Commit>)
    requires AllValid(commits) && AllButLastHaveFiles(commits)
    ensures Parse(env, Render(commits)) == AllExpected(env, commits)
  {
    ParseOfRender(env, commits);
    ReadsCommits(env, [], commits);
    assert [] + AllExpected(env, commits) == AllExpected(env, commits);
  }
}

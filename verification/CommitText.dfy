/** What can be read back from the records that parseGitEntries (tools/learn/ingest_git.go) makes of a printed
    history: everything that was printed, as long as the sanitizer leaves texts alone. */
module CommitText {

  import opened Prelude
  import opened Text
  import opened Picking
  import opened GitLog

  // ---- Subject and body in one text ----

  /** A text up to its first line feed. */
  function FirstPart(text: string): string {
    var i := IndexOf(text, '\n');
    if i < 0 then text else text[..i]
  }

  /** `rest` is what follows the first two line feeds in a row. */
  ghost predicate FollowsBlankLine(text: string, rest: string) {
    exists i :: IsGapAt(text, i) && (forall k :: k < i ==> !IsGapAt(text, k)) && text[i + 2..] == rest
  }

  predicate IsGapAt(text: string, i: int) {
    0 <= i && i + 2 <= |text| && text[i] == '\n' && text[i + 1] == '\n'
  }

  /** `text` tells `subject` and `body`: the subject alone for a blank body, and otherwise both, a blank line
      between them. */
  ghost predicate TellsText(text: string, subject: string, body: string) {
    && FirstPart(text) == subject
    && (AllSpace(body) <==> text == subject)
    && (!AllSpace(body) ==> FollowsBlankLine(text, body))
  }

  lemma {:induction false} FirstPartOf(subject: string, rest: string)
    requires '\n' !in subject
    ensures FirstPart(subject) == subject && FirstPart(subject + "\n" + rest) == subject
  {
    FirstOccurrence(subject, '\n', rest);
  }

  lemma {:induction false} GapAfterSubject(subject: string, body: string)
    requires '\n' !in subject
    ensures FollowsBlankLine(subject + "\n\n" + body, body)
  {
    var text := subject + "\n\n" + body;
    assert IsGapAt(text, |subject|) && text[|subject| + 2..] == body;
    assert forall k :: 0 <= k < |subject| ==> text[k] == subject[k];
  }

  lemma {:induction false} BodyTextTells(subject: string, body: string)
    requires '\n' !in subject
    ensures TellsText(BodyText(subject, body), subject, body)
  {
    BlankIff(body);
    FirstPartOf(subject, "\n" + body);
    if TrimSpace(body) != "" {
      GapAfterSubject(subject, body);
      assert subject + "\n\n" + body == subject + "\n" + ("\n" + body);
    }
  }

  // ---- A record and its commit ----

  /** Files of the commit, in the order of its numstat lines. */
  ghost predicate AreFilesIn(files: seq<string>, stats: seq<FileStat>) {
    |files| == |stats| && forall i :: 0 <= i < |stats| ==> files[i] == stats[i].file
  }

  /** A record tells everything about its commit that is not a count of lines. */
  ghost predicate Tells(env: Env, r: GitRecord, c: Commit) {
    && r.source == c.sha && env.parseDate(c.date) == Some(r.seenAt)
    && |r.tokens| >= 2 && (r.tokens[0], r.tokens[1]) == env.typeScope(c.subject)
    && (exists files :: AreFilesIn(files, c.stats) && AreFirstDirs(env, files, r.tokens[2..]))
    && (exists text :: r.body == env.sanitize(text) && TellsText(text, c.subject, c.body))
  }

  function HaveRecords(env: Env, commits: seq<Commit>): seq<bool> {
    seq(|commits|, i requires 0 <= i < |commits| =>
      !AnyBinary(commits[i].stats) && env.parseDate(commits[i].date).Some?)
  }

  ghost predicate TellInOrder(env: Env, records: seq<GitRecord>, commits: seq<Commit>, ps: seq<nat>) {
    |records| == |ps| && forall j :: 0 <= j < |ps| ==> ps[j] < |commits| && Tells(env, records[j], commits[ps[j]])
  }

  ghost predicate Transparent(env: Env) {
    forall s :: env.sanitize(s) == s
  }

  predicate OneLineSubjects(commits: seq<Commit>) {
    forall i :: 0 <= i < |commits| ==> '\n' !in commits[i].subject
  }

  lemma {:induction false} ExpectedTells(env: Env, c: Commit)
    requires ValidCommit(c) && '\n' !in c.subject && !AnyBinary(c.stats) && env.parseDate(c.date).Some?
    ensures |Expected(env, c)| == 1 && Tells(env, Expected(env, c)[0], c)
  {
    var (r, files) := (Expected(env, c)[0], FilesOf(c.stats));
    var (typ, scope) := env.typeScope(c.subject);
    BodyTextTells(c.subject, c.body);
    DirTokensAreFirst(env, files);
    assert AreFilesIn(files, c.stats) && r.tokens[2..] == DirTokens(env, files);
    assert r.body == env.sanitize(BodyText(c.subject, c.body));
  }

  lemma {:induction false} ExpectedAppend(env: Env, commits: seq<Commit>, c: Commit)
    ensures AllExpected(env, commits + [c]) == AllExpected(env, commits) + Expected(env, c)
  {
    if commits == [] {
      assert [] + [c] == [c] && Expected(env, c) + [] == Expected(env, c) == [] + Expected(env, c);
    } else {
      var rest := commits[1..];
      ExpectedAppend(env, rest, c);
      ExpectedCons(env, commits[0], rest);
      ExpectedCons(env, commits[0], rest + [c]);
      assert commits == [commits[0]] + rest && commits + [c] == [commits[0]] + (rest + [c]);
      Associate(Expected(env, commits[0]), AllExpected(env, rest), Expected(env, c));
    }
  }

  lemma {:induction false} ExpectedCons(env: Env, c: Commit, commits: seq<Commit>)
    ensures AllExpected(env, [c] + commits) == Expected(env, c) + AllExpected(env, commits)
  {
    assert ([c] + commits)[1..] == commits;
  }

  lemma {:induction false} OneMoreCommit(env: Env, records: seq<GitRecord>, commits: seq<Commit>, ps: seq<nat>)
    requires commits != [] && TellInOrder(env, records, Front(commits), ps)
    ensures TellInOrder(env, records, commits, ps)
    ensures forall r :: Tells(env, r, Last(commits)) ==> TellInOrder(env, records + [r], commits, ps + [|commits| - 1])
  {
  }

  lemma {:induction false} NextTells(env: Env, commits: seq<Commit>)
    requires commits != [] && AllValid(commits) && OneLineSubjects(commits)
    requires TellInOrder(env, AllExpected(env, Front(commits)), Front(commits),
                         Positions(HaveRecords(env, Front(commits))))
    ensures TellInOrder(env, AllExpected(env, Front(commits)) + Expected(env, Last(commits)), commits,
                        Positions(HaveRecords(env, commits)))
  {
    var (f, c) := (Front(commits), Last(commits));
    assert Front(HaveRecords(env, commits)) == HaveRecords(env, f);
    OneMoreCommit(env, AllExpected(env, f), commits, Positions(HaveRecords(env, f)));
    if AnyBinary(c.stats) || env.parseDate(c.date).None? {
      assert AllExpected(env, f) + [] == AllExpected(env, f);
      assert Positions(HaveRecords(env, f)) + [] == Positions(HaveRecords(env, f));
    } else {
      ExpectedTells(env, c);
      assert Expected(env, c) == [Expected(env, c)[0]];
    }
  }

  lemma {:induction false} ExpectedOfLast(env: Env, commits: seq<Commit>)
    requires commits != []
    ensures AllExpected(env, commits) == AllExpected(env, Front(commits)) + Expected(env, Last(commits))
  {
    ExpectedAppend(env, Front(commits), Last(commits));
    assert commits == Front(commits) + [Last(commits)];
  }

  lemma {:induction false} WithoutLast(commits: seq<Commit>)
    requires commits != [] && AllValid(commits) && OneLineSubjects(commits)
    ensures AllValid(Front(commits)) && OneLineSubjects(Front(commits))
  {
    assert forall i :: 0 <= i < |Front(commits)| ==> Front(commits)[i] == commits[i];
  }

  lemma {:induction false} AllExpectedTell(env: Env, commits: seq<Commit>)
    requires AllValid(commits) && OneLineSubjects(commits)
    ensures TellInOrder(env, AllExpected(env, commits), commits, Positions(HaveRecords(env, commits)))
  {
    if commits != [] {
      WithoutLast(commits);
      ExpectedOfLast(env, commits);
      AllExpectedTell(env, Front(commits));
      NextTells(env, commits);
    }
  }

  /** The records of a printed history are one for each commit without binary files whose date parses, in order,
      and each tells its commit's sha, date, type, scope and directories, and, before sanitizing, its subject and
      body. */
  lemma {:induction false} RecordsTell(env: Env, commits: seq<Commit>) returns (ps: seq<nat>)
    requires AllValid(commits) && AllButLastHaveFiles(commits) && OneLineSubjects(commits)
    ensures Ascending(ps) && forall i: nat :: i in ps <==>
              i < |commits| && !AnyBinary(commits[i].stats) && env.parseDate(commits[i].date).Some?
    ensures TellInOrder(env, Parse(env, Render(commits)), commits, ps)
  {
    ps := Positions(HaveRecords(env, commits));
    PositionsAreExact(HaveRecords(env, commits));
    RoundTrip(env, commits);
    AllExpectedTell(env, commits);
  }

  /** With a sanitizer that changes nothing, subject and body can be read back from the record itself. */
  lemma {:induction false} TextReadsBack(env: Env, r: GitRecord, c: Commit)
    requires Tells(env, r, c) && Transparent(env)
    ensures FirstPart(r.body) == c.subject
    ensures if AllSpace(c.body) then r.body == c.subject else FollowsBlankLine(r.body, c.body)
  {
    var text :| r.body == env.sanitize(text) && TellsText(text, c.subject, c.body);
    assert env.sanitize(text) == text;
  }
}

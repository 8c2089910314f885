# Verified models of gopherplate's stateful and algorithmic parts

These Dafny files model the parts of the repository whose correctness is not visible from one function
body, and prove properties of the models for all inputs, all runs and all interleavings.

| Area | Files | Main results |
|---|---|---|
| Edit distance | `EditDistance.dfy` | the one-row loop computes the length of a shortest edit script; the metric laws |
| Spec scheduler checks | `SpecModel.dfy`, `CycleCheck.dfy`, `BatchCheck.dfy`, `OverlapCheck.dfy`, `ScheduleFindings.dfy` | the cycle search is sound, complete and terminates; silent checks certify a schedule, and conversely; overlap reports are counted exactly; what each finding names |
| Idempotency protocol | `Idempotency.dfy`, `IdempotencyAnswers.dfy`, `AtMostOnce.dfy` | exclusion at every moment exactly if no held lock expires; at most one kept response per key and expiry, in every run; a replay is what was captured, and what was sent exactly if nothing bypassed the capture; every refusal has its reason in the run |
| Pattern miner | `NGrams.dfy`, `Miner.dfy`, `MinedFacts.dfy`, `Sorting.dfy`, `Lex.dfy` | counts with provenance equal the plain counts, and which tokens are counted exactly; one determined output for every map enumeration, and what it says about the sources |
| Recall ranking | `Ranking.dfy`, `Recall.dfy`, `MergedLimit.dfy` | the per-index limit preserves the meaning of the unlimited ranking; for one index and for several, exactly when; which indexes an answer comes from, and its order |
| Deprecate and rollback | `Lifecycle.dfy`, `LifecycleAnswers.dfy`, `DeprecatedNames.dfy`, `LifecycleRuns.dfy`, `StampedRuns.dfy` | exactly which runs conserve all files, roll back exactly and keep the audit trails in order; runs with increasing stamps are among them; which files share a deprecated name |
| Git log parser | `GitLog.dfy`, `CommitText.dfy`, `EmptyCommits.dfy` | printing a history and parsing the text gives the commits back, subjects and bodies included, exactly under which condition, and what is lost otherwise |
| Spec ingester | `SpecRecords.dfy`, `SpecIngest.dfy` | one record per anchor line, in document order, with exactly its own block, told by line positions |
| Comment stripper | `Comments.dfy` | line by line equals a one-pass character automaton; exactly when a removed comment leaves a new opener |
| Name converters | `CaseNames.dfy`, `WordBreaks.dfy` | exactly when converting twice is converting once, and when the Pascal and camel round trips succeed; where words begin |
| User use cases | `UserCache.dfy`, `UserAnswers.dfy`, `UserCacheRuns.dfy`, `UserCacheCoherence.dfy` | every value read was held by the row; exactly when the cache cannot be noticed, when it stays current under interleaving, and when a deleted user stays deleted |

`Prelude.dfy`, `Text.dfy` and `Picking.dfy` hold shared vocabulary.  `dafny verify dfyconfig.toml` checks everything.

## How the models are built

* Code that changes variables, maps, slices or objects step by step is a `method` or a `class` with the same
  loops and branches.  Its `ensures` ties the new state to a specification function or states the promise
  outright, and lemmas about the function give it its meaning.
* Stores (Redis, the SQL tables, the file system) are maps, and each call into one is a single atomic step
  that may also fail, before or after its effect.  Concurrent code is a step machine over these calls, and
  every lemma about runs quantifies over all sequences of steps.
* Iteration over a Go map is a choice of an arbitrary element, so every enumeration order is covered.
* Times, dates, hashes, regular expressions, the sanitizer, path splitting, the text search and the Unicode case
  tables are function parameters: the results hold for whatever they return.
* Ghost results and ledgers (the cycle behind a report, the present place of every file) exist for the
  proofs only.

## Where the code and its description differ

The models follow the code.

* The format comment promises a blank line between commits (`tools/learn/ingest_git.go:45-51`). `git log` prints
  one only after numstat lines, so behind a commit without files, such as a merge, the parser takes the next
  header for numstat lines and a record is lost (`RecordsAreLost`). `RoundTripIff` says exactly which histories
  come back whole: those in which every commit without files is the last one or is followed by a binary commit
  whose header has a blank line before anything that looks like a numstat line.
* `parseNumstat` is described as returning unique paths (`tools/learn/ingest_git.go:271`), but keeps
  repetitions (`NumstatIsUniqueIff`).
* `parseGitEntries` is described as giving one record per entry, binary ones excepted
  (`tools/learn/ingest_git.go:152-155`); a commit whose date does not parse is skipped too (`RecordsTell`).
* In the spec ingester, the branch that would reopen a task at a breaker line
  (`tools/learn/ingest_spec.go:253-263`) can never be taken: a line that matches there has already been taken
  by the same expression further up (line 221).
* The capturing response writer overrides `Write` only, so bytes sent with the promoted `WriteString` are missing
  from a replay (`ReplayIsFaithful`). No handler of the repository sends that way.
* An update through a second accepted spelling of a user id does not invalidate the value cached under the
  first (`SecondSpellingIsStale`).
* Concurrent user calls can leave an old value in the cache (`LateStoreIsStale`; exactly when: `SettledIff`), and
  can make a deleted user active again (`LateSaveRevives`; exactly when: `StaysInactiveIff`).
* Rollback is described as reversing every move (`tools/learn/cmd_rollback.go:7-9`). A merge target with a line
  break makes it restore more than was moved (`StripUndoesHeader`), a move onto an occupied path replaces the file
  there (`MoveOverwritesIffOccupied`): within one second that happens to a file without an extension and its namesake
  with `.md`, and to no others (`CollisionIff`). A file created where a rollback looks is taken for the decision's own
  (`RollbackTakesCreated`). `RunIsGoodIff` says that in the model nothing else can go wrong.
* A source without a time makes the search for the earliest one start over behind it, so what was seen before it is
  forgotten (`FirstIsEarliest`); with dated sources the bounds are those of the sources (`SpanOfSources`).
* Two lists of tokens can have one signature (`OthersCollide`), and are then counted together
  (`OthersAreMiscounted`): a token such as a bare arrow is enough, it need not contain the separator.
* ToSnakeCase is not idempotent on a capital without a lower case, such as U+1D401 behind an `A`
  (`UnsettledChanges`).
* Removing a comment can leave a new opener (`StrippedReopensIff`).
* The clamp of raw scores at 0 would let the per-index limit show if raw scores could be positive and the minimum
  score were not (`OneIndexPushdownIff`, `MergedPushdownIff`); raw scores of an FTS5 search are never positive.

## Model

| member | source | states |
|---|---|---|
| EditDistance.UpdateRow | tools/learn/similar.go:193-219 | One pass over the row, overwritten in place with a saved diagonal, turns the distances of all prefixes for row i-1 into those for row i |
| EditDistance.LevenshteinDistance | tools/learn/similar.go:171-222 | The early exits, the swap of the arguments and the in-place loop together return the recursive edit distance of the two rune sequences |
| EditDistance.CellIsPrefixDistance | tools/learn/similar.go:187-219 | The recurrence of the table on prefix lengths is the recursive distance of the two prefixes |
| EditDistance.NormalizedLevenshteinDistance | tools/learn/similar.go:228-239 | The fraction lies in [0,1], is 0 exactly for equal texts, and is the distance over the longer length |
| EditDistance.Symmetric | tools/learn/similar.go:170-178 | Distance is symmetric, which is what makes the swap of the arguments legal |
| EditDistance.Bounds | tools/learn/similar.go:171-239 | The distance lies between the length difference and the longer length |
| EditDistance.ZeroIffEqual | tools/learn/similar.go:171-222 | The distance is 0 exactly for equal sequences |
| EditDistance.Triangle | tools/learn/similar.go:171-222 | The triangle inequality |
| EditDistance.NoScriptIsShorter | tools/learn/similar.go:159-170 | Every script of single-rune edits that leads from a to b has at least as many edits as the distance |
| EditDistance.SomeScriptAttains | tools/learn/similar.go:159-170 | Some script has exactly as many edits as the distance |
| EditDistance.DistanceIsShortestScript | tools/learn/similar.go:159-222 | A number is the length of a shortest insert, delete and substitute script exactly if it is the distance |
| CycleCheck.AdjacencyLastWins | tools/validate-spec/validate.go:323-327 | Of several tasks with one id, the last one's dependencies enter the graph |
| CycleCheck.FinishKeepsClear | tools/validate-spec/validate.go:339-354 | If no finished node lies on a cycle and all dependencies of a node are finished, the node lies on no cycle either |
| CycleCheck.BranchClosesCycle | tools/validate-spec/validate.go:341-345 | An edge to a gray node closes a cycle made of the nodes of the current branch |
| CycleCheck.Search.Dfs | tools/validate-spec/validate.go:338-354 | A completed visit leaves the node finished and every cycle-free claim intact; an abandoned one has recorded an edge that closes a real cycle of nodes not finished before; the recursion ends because each call colours a new node |
| CycleCheck.Search.Follow | tools/validate-spec/validate.go:341-351 | One dependency: it is finished afterwards, or the recorded edge closes a cycle through the current branch |
| CycleCheck.Search.Reset | tools/validate-spec/validate.go:366-369 | After a report everything visited counts as finished, so later cycles avoid it |
| CycleCheck.SearchFrom | tools/validate-spec/validate.go:357-372 | One search from an unvisited task reports nothing, or one edge of a cycle that meets no node visited before, reachable from that task |
| CycleCheck.ValidateDependsDAG | tools/validate-spec/validate.go:322-374 | Nothing is reported exactly when the graph has no cycle; each finding names the closing edge of a real cycle; the cycles behind different findings share no node |
| BatchCheck.ValidateDependsExist | tools/validate-spec/validate.go:376-392 | The findings are one per undeclared dependency, in order |
| BatchCheck.MissingDepsSilent | tools/validate-spec/validate.go:376-392 | Silent exactly if every dependency of every task record is declared |
| ScheduleFindings.MissingNamed | tools/validate-spec/validate.go:382-391 | The check of a list is that of its parts; for one task it names exactly its undeclared dependencies, by position, with the task's id and line |
| BatchCheck.CountPlacements | tools/validate-spec/validate.go:395-401 | The loop over batches and ids builds the placement counters |
| BatchCheck.TallyBatchesCounts | tools/validate-spec/validate.go:395-401 | A counter is the number of places of its task over all batches |
| BatchCheck.ValidateBatchMembership | tools/validate-spec/validate.go:394-417 | The findings are one per task record that is not in exactly one place |
| BatchCheck.MisplacedTasksSilent | tools/validate-spec/validate.go:394-417 | Silent exactly if every task has exactly one place |
| ScheduleFindings.MisplacedNamed | tools/validate-spec/validate.go:402-416 | The check of a list is that of its parts; one task is reported as in no batch, or with its number of places, or not at all |
| BatchCheck.ValidateBatchOrder | tools/validate-spec/validate.go:453-481 | The findings are one per dependency that is not in an earlier batch, unplaced ends being skipped |
| BatchCheck.LateDepsSilent | tools/validate-spec/validate.go:453-481 | Silent exactly if every dependency with both ends placed goes to a strictly smaller batch index |
| ScheduleFindings.IndexIsLast | tools/validate-spec/validate.go:454-459 | A task is placed exactly if some batch lists it, with the index of the last batch that does |
| ScheduleFindings.LateNamed | tools/validate-spec/validate.go:460-480 | The check of a list is that of its parts; for one placed task it names exactly the dependencies whose index is not smaller, by position, with both indexes |
| BatchCheck.SilentIffScheduleRespects | tools/validate-spec/validate.go:376-481 | For every execution of the batches by ascending index: the three checks are silent exactly if it runs each declared task once and strictly after all its dependencies |
| BatchCheck.SomeSchedule | tools/validate-spec/validate.go:453-481 | Every list of batches has an execution by ascending index |
| BatchCheck.SilentChecksImplyAcyclic | tools/validate-spec/validate.go:322-481 | If the three checks are silent the graph has no cycle |
| BatchCheck.ValidateSchedule | tools/validate-spec/validate.go:76-111 | All four validators: silence of the three schedule checks holds exactly if all ascending executions respect the tasks, and then the cycle check is silent too |
| OverlapCheck.ValidateBatchFileOverlap | tools/validate-spec/validate.go:419-451 | The findings are those of each batch in turn, on the files of the last task with each id |
| OverlapCheck.OverlapsInBatch | tools/validate-spec/validate.go:427-449 | One batch: a report for every unshared file entry whose file already has an owner |
| OverlapCheck.OwnerIsFirst | tools/validate-spec/validate.go:434-447 | The owner named in a report is the task of the first claim of the file |
| ScheduleFindings.FilesAreLast | tools/validate-spec/validate.go:420-425 | The files of a task are those of the last record with its id |
| ScheduleFindings.ClaimsNamed | tools/validate-spec/validate.go:429-440 | The claims of one task are its files that are not shared, by position, in order |
| ScheduleFindings.OverlapsNamed | tools/validate-spec/validate.go:434-449 | The findings of a batch are, in order, one for each claim of a file claimed before, and name the batch, the first claimant, the task that claims it again and the file |
| OverlapCheck.OverlapCount | tools/validate-spec/validate.go:419-451 | The number of reports is the number of unshared file entries minus the number of distinct such files |
| OverlapCheck.ClaimsAreTouches | tools/validate-spec/validate.go:436-447 | An unshared file has as many claims as the listed tasks have entries for it; a shared one has none |
| OverlapCheck.SilentIffFilesDisjoint | tools/validate-spec/validate.go:419-451 | A batch is silent exactly if its tasks touch pairwise disjoint unshared files without repetition |
| OverlapCheck.CheckSilentIffDisjoint | tools/validate-spec/validate.go:419-451 | The whole check is silent exactly if every batch is |
| Idempotency.StepKeepsExclusive | internal/infrastructure/web/middleware/idempotency.go:75-173 | A step, store errors and panics included, keeps at most one holder per key and its PROCESSING entry with the holder's fingerprint exactly if it is not the expiry of a held entry |
| Idempotency.RunKeepsExclusive | internal/infrastructure/web/middleware/idempotency.go:75-173 | So does every interleaving of any number of requests |
| Idempotency.ExclusiveIffSafe | internal/infrastructure/web/middleware/idempotency.go:75-173 | Over whole runs: exclusion holds at every moment exactly if no held entry expires |
| Idempotency.StepKeepsCompleted | pkg/idempotency/redisstore/store.go:32-86 | No step of any request alters a COMPLETED entry; only its expiry removes it |
| Idempotency.RunKeepsCompleted | internal/infrastructure/web/middleware/idempotency.go:75-173 | From the moment an entry is COMPLETED it stays as it is for the rest of the run, until it expires |
| Idempotency.ExpiryAllowsTwoHolders | pkg/idempotency/redisstore/store.go:32-50 | For any two requests with one key there is a run in which a lock expires under its holder and both hold it |
| Idempotency.StaleHolderOverwrites | pkg/idempotency/redisstore/store.go:72-81 | ... and the first holder then replaces the completed result of the second |
| Idempotency.RunKeepsFaithful | internal/infrastructure/web/middleware/idempotency.go:90-152 | In every run, with arbitrary expiry and failure, every completed entry is what was captured of one lock-holding run for that key and fingerprint |
| Idempotency.RecordedRunsHeldTheLock | internal/infrastructure/web/middleware/idempotency.go:134-152 | A recorded handler run returned while its request held the lock |
| Idempotency.OutputIsTold | internal/infrastructure/web/middleware/idempotency.go:193-202 | In every run: what a request has sent is what its Write and WriteString calls were given, in order; what is captured of a lock holder is what its Write calls were given; an answer carries the returned status and all that was sent |
| Idempotency.ReplayIsFaithful | internal/infrastructure/web/middleware/idempotency.go:108-152 | In every run a replayed response is the status and captured bytes of one earlier lock-holding run for the same key and fingerprint, with a status in 200..499; it is what that run sent exactly if nothing was sent with WriteString |
| IdempotencyAnswers.AnswerToTakenKey | internal/infrastructure/web/middleware/idempotency.go:90-132 | After any run, a request that reads its key is refused as a conflict exactly if the entry is PROCESSING, as a mismatch exactly if it is COMPLETED with another non-empty fingerprint, is replayed the entry if it is COMPLETED otherwise, and runs its handler if there is none |
| IdempotencyAnswers.AnswerToLock | pkg/idempotency/redisstore/store.go:32-50 | After any run, a lock attempt that works holds the key exactly if it was free, and writes the PROCESSING entry only then |
| IdempotencyAnswers.SettledKey | internal/infrastructure/web/middleware/idempotency.go:145-173 | After any run, the holder's last call leaves exactly what it wrote with Write, its status and fingerprint if the status is in 200..499, and otherwise frees the key; the answer is all that it sent |
| IdempotencyAnswers.MismatchIsReal | internal/infrastructure/web/middleware/idempotency.go:117-125 | In every run, a mismatch implies an earlier run under the lock for the same key and another body, with a status in 200..499 |
| IdempotencyAnswers.ConflictIsReal | internal/infrastructure/web/middleware/idempotency.go:108-115 | In every run, a conflict implies another request with the same key whose handler runs or has run |
| AtMostOnce.StepCharge | internal/infrastructure/web/middleware/idempotency.go:75-173 | Kept responses, holders that may still give one, and one more while the key is free: a step adds to their number only as the expiry of the key, and then one |
| AtMostOnce.KeptAtMostExpiries | internal/infrastructure/web/middleware/idempotency.go:75-173 | In every run, whatever store calls fail, the handler runs under the lock with a status in 200..499 are at most one more than the expiries of the key's entry |
| AtMostOnce.BoundIsAttained | pkg/idempotency/redisstore/store.go:32-50 | For any number of requests with one key some run attains this bound |
| AtMostOnce.ReplaysAgree | internal/infrastructure/web/middleware/idempotency.go:108-152 | While a key's entry does not expire, all replays for it are the same response |
| Idempotency.RedisStore.Lock | pkg/idempotency/redisstore/store.go:32-50 | Writes the PROCESSING entry only when the key is free, and says whether it did; errors leave the effect open |
| Idempotency.RedisStore.Get | pkg/idempotency/redisstore/store.go:54-69 | Error, absent and present are three different answers |
| Idempotency.RedisStore.Complete | pkg/idempotency/redisstore/store.go:72-81 | Stores the entry with the status set to COMPLETED, whatever was there |
| Idempotency.RedisStore.Unlock | pkg/idempotency/redisstore/store.go:84-86 | Removes the key and no other |
| Idempotency.ResponseWriter.Write | internal/infrastructure/web/middleware/idempotency.go:193-202 | What is written is sent and captured |
| Idempotency.ResponseWriter.WriteString | internal/infrastructure/web/middleware/idempotency.go:193-202 | The promoted method of the embedded writer sends without capturing |
| Idempotency.RunHandler | internal/infrastructure/web/middleware/idempotency.go:134-143 | The writes of a handler are a run of the step machine: all of them are sent, and for a lock holder those made with Write are captured |
| Idempotency.HandleWithLock | internal/infrastructure/web/middleware/idempotency.go:134-173 | The holder's part is a run of the step machine; the answer is the handler's, and the store keeps its captured response for a status in 200..499, loses the key for others, and stays as it is after a panic |
| Idempotency.Middleware | internal/infrastructure/web/middleware/idempotency.go:75-174 | For every store content, handler and failure, the middleware on a request that is alone is a run of the step machine; over the store before the call: a taken key that can be read gives the conflict, the mismatch or the replay, each exactly in its case, and changes nothing; a free one runs the handler and keeps or frees the key by its status; every failing call runs it without the lock |
| NGrams.JoinNGram | tools/learn/cmd_extract.go:551-573 | The buffer loop gives the tokens joined by the separator |
| NGrams.JoinInjective | tools/learn/pattern.go:21 | If the separator occurs in no token, nor where a token meets the blanks around it, the signature determines the token list |
| NGrams.OthersCollide | tools/learn/pattern.go:21 | Every other token collides: between any two tokens of any list, another list has the same signature |
| NGrams.CountNGrams | tools/learn/pattern.go:80-89 | The counting loops build the tally of all window signatures |
| NGrams.TallyCounts | tools/learn/pattern.go:80-89 | A counter is the number of occurrences of its signature |
| NGrams.CountIsPlaces | tools/learn/pattern.go:80-89 | A count over all sequences is the sum, over the sequences, of the number of positions at which a window with the signature starts |
| NGrams.ExtractNGrams | tools/learn/pattern.go:72-100 | The result lists exactly the signatures that reach the threshold, each with its number of occurrences, strictly ascending, whatever order the counters are enumerated in |
| Miner.AccumulateSources | tools/learn/cmd_extract.go:465-500 | The three nested loops over sizes, sources and positions fill the accumulators with every window once |
| Miner.FrequencyIsSumOfCounts | tools/learn/cmd_extract.go:473-500 | A signature's frequency is the sum of extractNGrams' counts at the window sizes 2, 3 and 4 |
| Miner.ContextsAreSources | tools/learn/cmd_extract.go:473-519 | A signature's contexts are exactly the sources that contain one of its windows |
| Miner.FrequencyIsExact | tools/learn/cmd_extract.go:473-500 | For such tokens, a frequency is the exact number of places where that token list occurs |
| Miner.OthersAreMiscounted | tools/learn/cmd_extract.go:473-500 | Every other token is miscounted between any two tokens: a source without that window gives it a positive frequency |
| Miner.MaxCount | tools/learn/cmd_extract.go:502-508 | For every enumeration the running maximum is the largest qualifying count, or 0 |
| Miner.MakeCandidate | tools/learn/cmd_extract.go:511-536 | A qualifying signature's candidate is fixed by the accumulators: sorted contexts, score against the maximum, seen-times in order |
| Miner.MineKind | tools/learn/cmd_extract.go:459-545 | Emits exactly one candidate per qualifying signature |
| Miner.MinedSameElements | tools/learn/cmd_extract.go:510-544 | Any two enumerations of the accumulators emit the same candidates |
| Miner.MinedAreValid | tools/learn/pattern.go:110-161 | Every emitted candidate passes Validate, and if any is emitted the most frequent one scores 1 |
| Miner.RunExtract | tools/learn/cmd_extract.go:178-191 | Rejects a threshold below 1; otherwise the output is the mined candidates of the three kinds in strictly increasing (kind, signature) order |
| Miner.ExtractIsDetermined | tools/learn/cmd_extract.go:178-191 | Two outputs for the same input are the same sequence, whatever order the maps are enumerated in |
| Miner.ExtractIsValid | tools/learn/pattern.go:110-161 | Every element of the output passes Validate, and each kind that emits anything has a top candidate with score 1 |
| MinedFacts.ExtractTells | tools/learn/cmd_extract.go:178-183 | A signature is listed under a kind exactly if the sources of that kind contain it often enough; each candidate has its frequency, its sorted contexts and its times from the sources of its own kind; no other kind is emitted |
| MinedFacts.KindsInOrder | tools/learn/cmd_extract.go:186-191 | Commit patterns come before file sequences and these before tool sequences; within a kind signatures ascend |
| MinedFacts.ScoreIsShare | tools/learn/pattern.go:110-118 | A candidate's score is its frequency over the largest frequency of its kind in the output |
| MinedFacts.FirstIsEarliest | tools/learn/cmd_extract.go:490-492 | The first-seen time kept is the least of the hits since the last one without a time, unless a time before the zero time was met; zero if there are none |
| MinedFacts.LastIsLatest | tools/learn/cmd_extract.go:493-495 | The last-seen time kept is the greatest of the hits, and never before the zero time |
| MinedFacts.SpanOfSources | tools/learn/cmd_extract.go:490-535 | If all sources that contain the signature are dated, its candidate's times are the earliest first and the latest last time among them |
| MinedFacts.ValidateIff | tools/learn/pattern.go:137-161 | A candidate passes exactly if its signature is not empty, its frequency at least 1, its score in [0,1] and its times in order; otherwise the first flaw is named |
| Lex.LessIff | tools/learn/cmd_extract.go:186-191 | One string comes before another exactly if at the first place where they differ it has the smaller character, or ends |
| Ranking.SortIsStable | tools/learn/recall.go:116-121 | The sort orders by score descending, then path ascending, and keeps ties in input order |
| Ranking.StableOrderUnique | tools/learn/recall.go:116-121 | Ordered and stable determines the list, so every stable sort agrees |
| Ranking.SortedPrefixIff | tools/learn/recall.go:116-121 | Appending matches leaves the sorted list in front exactly if none of them comes before one of its members |
| Ranking.SortFlattenIsMergeAll | tools/learn/recall.go:96-121 | Sorting the concatenation of ranked lists merges them, earlier lists first on ties |
| Ranking.MergeAllAgree | tools/learn/recall.go:91-121 | The first n entries of a merge depend only on the first n entries of each list |
| Recall.QueryFTSIndex | tools/learn/similar.go:64-136 | A usage error for a limit below 1 or an unknown index, nothing for a blank query, a runtime error when the search fails, and otherwise the rows within the limit that reach the minimum score |
| Recall.MatchesByPosition | tools/learn/similar.go:92-124 | The matches of an index are, in order, exactly the rows whose negated BM25, raised to 0, reaches the minimum score, with that score, and without a path for patterns |
| Recall.LimitCommutesWithFilter | tools/learn/similar.go:92-124 | Limiting before the score filter delivers the same first entries as filtering everything, whatever the raw scores |
| Recall.LimitPushdown | tools/learn/recall.go:91-121 | Fetching only the limit per index and merging gives the same first entries as the ranking of everything, if raw scores are at most 0 or the minimum score is positive |
| Recall.OneIndexPushdownIff | tools/learn/similar.go:92-124 | For one index, the limit does not show exactly if the minimum score is positive or no row behind the limit has a smaller path than one within it whose raw score is not negative |
| MergedLimit.SortSettles | tools/learn/recall.go:96-121 | Sorting matches collected index by index orders them by score, path and then the index queried first |
| MergedLimit.MergedPushdownIff | tools/learn/recall.go:91-121 | For several indexes, the merged ranking begins like the full one exactly if no reportable row behind the limit of its index is ahead of the last of the first entries that were fetched |
| Recall.RecallsEverything | tools/learn/recall.go:91-163 | Without the recency filter, a result is the longest fitting prefix of the ranking of everything that matches |
| Recall.CutToBudget | tools/learn/recall.go:150-163 | The loop keeps the longest prefix that fits both the number and the character budget |
| Recall.KeepRecent | tools/learn/recall.go:123-140 | Keeps exactly the recent matches in order, failing if the age of one cannot be told |
| Recall.RecentByPosition | tools/learn/recall.go:123-140 | The recent matches are, by position, those the age check keeps; it fails exactly if the check of one fails |
| Recall.LoadSummaries | tools/learn/recall.go:142-148 | Attaches every match's summary, failing exactly if one cannot be loaded |
| Recall.Finish | tools/learn/recall.go:123-163 | Recency filter, summaries and budget in this order: the error of the first that fails, or the longest fit of what is kept |
| Recall.SelectedIff | tools/learn/recall.go:166-191 | An index is searched exactly if the filter is empty or is the kind its matches are reported under; any other filter is refused |
| Recall.RecallWithQuery | tools/learn/recall.go:70-205 | The usage errors exactly; then, for the indexes of the asked kind, or all three in the order skill, memory, pattern: a runtime error if one fails; otherwise the merged ranking of at most max(topK, 5) rows each goes through the later stages, and without the recency filter the result is the longest fitting prefix of the full ranking; every result is of the asked kind and has at most 120 characters of the text of its own index as its summary |
| MergedLimit.AnswerIsInOrder | tools/learn/recall.go:96-121 | An answer without a kind filter ranges over all three indexes and is ordered by score, then path, then skills before memories before patterns |
| Lifecycle.StripUndoesHeader | tools/learn/cmd_rollback.go:189-203 | Stripping undoes stamping exactly if the merge target has no line break |
| Lifecycle.StampReadsBack | tools/learn/cmd_apply_decision.go:194-208 | The stamp is recoverable from the deprecated name, so different stamps give different names |
| DeprecatedNames.NameReadsBack | tools/learn/cmd_apply_decision.go:194-208 | Directory, stem, stamp and extension, a missing one having become .md, can all be read back from the deprecated path |
| DeprecatedNames.SameTargetIff | tools/learn/cmd_apply_decision.go:194-208 | Two files get the same deprecated path exactly if stamp, directory, stem and extension agree, a missing one counting as .md |
| DeprecatedNames.CollisionIff | tools/learn/cmd_apply_decision.go:194-208 | With one stamp, two different files collide exactly if one has no dot in its name and the other is its namesake with .md in the same directory |
| LifecycleAnswers.StripChangesIff | tools/learn/cmd_rollback.go:189-203 | Stripping changes a text exactly if it starts like a header and has a line break |
| Lifecycle.Workspace.MoveToDeprecated | tools/learn/cmd_apply_decision.go:188-244 | Moves one file to `_deprecated` beside it, under its stem, the stamp and its extension or .md, with the header line and a blank line in front of its bytes; nothing happens when it cannot be read |
| Lifecycle.Workspace.FindAuditByDecisionID | tools/learn/audit.go:125-137 | Finds the latest entry of the decision |
| LifecycleAnswers.FindsLatest | tools/learn/audit.go:125-137 | None exactly if the log has no entry of the decision, and otherwise the last one, by position |
| Lifecycle.Workspace.RunApplyDecision | tools/learn/cmd_apply_decision.go:102-164 | The new files, rows and log, with every refusal and its order |
| Lifecycle.Workspace.RunRefineApply | tools/learn/cmd_refine_apply.go:102-184 | The same for refine-apply, the inserted row being deleted again when the move fails |
| Lifecycle.Workspace.RunRollback | tools/learn/cmd_rollback.go:90-183 | The same for rollback |
| LifecycleAnswers.ApplyRefusals | tools/learn/cmd_apply_decision.go:102-164 | Each refusal of apply exactly in its case; a refused call changes nothing |
| LifecycleAnswers.ApplyEffect | tools/learn/cmd_apply_decision.go:130-164 | A successful apply moves the row's file under its header to its stamped name, marks the row and logs source, target and merge target |
| LifecycleAnswers.RefineEffect | tools/learn/cmd_refine_apply.go:102-184 | Refine is refused exactly for a missing file, leaving no row behind; otherwise it does what an apply of a new row does, with the given merge target or the file's own path |
| LifecycleAnswers.RollbackRefusals | tools/learn/cmd_rollback.go:90-115 | Each refusal of rollback exactly in its case, from the decision's last entry; a refused call changes nothing |
| LifecycleAnswers.RollbackEffect | tools/learn/cmd_rollback.go:117-183 | A successful rollback puts the stripped file back at its source, frees the deprecated path, and adds a row and a log entry |
| LifecycleRuns.StepKeepsGoodIff | tools/learn/cmd_rollback.go:90-203 | An operation, refused or not, keeps held bytes, conservation and audit trails in order exactly if it is safe: it creates nothing where a rollback would look, and moves under a one-line header to a path that neither exists nor is one an applied decision refers to |
| LifecycleRuns.RunIsGoodIff | tools/learn/cmd_apply_decision.go:102-163 | They are in order at every moment of a run of apply, refine-apply, rollback, record and create exactly if each of its operations is safe |
| LifecycleRuns.StartIsGood | tools/learn/audit.go:86-119 | They are in order in every directory with an empty log |
| LifecycleRuns.RollbackTakesCreated | tools/learn/cmd_rollback.go:113-142 | A file created at the vacant deprecated path of an applied decision is what a rollback puts back, whatever it contains |
| LifecycleRuns.SomeStart | tools/learn/audit.go:86-119 | Every directory with an empty log, whatever its files are called, can be followed through such runs, with nothing applied yet |
| StampedRuns.RegularRunIsSafe | tools/learn/cmd_apply_decision.go:194-208 | Runs are safe if stamps increase, merge targets are one line, no created file is given a stamped name in a `_deprecated` directory, and none found there at the start has a later stamp |
| LifecycleRuns.NothingIsLost | tools/learn/cmd_apply_decision.go:188-244 | After a safe run, the files present correspond one to one to the files ever created, each with its original bytes below the headers stamped on it |
| LifecycleRuns.RollbackRestores | tools/learn/cmd_rollback.go:90-142 | After a safe run, a rollback that is not refused restores, byte for byte, what the decision's source held when it was applied |
| LifecycleRuns.AuditTrailIsPrefix | tools/learn/audit.go:59-137 | After a safe run, a decision's audit entries are a prefix of [applied, rolled-back] |
| LifecycleRuns.RollbackUndoesApply | tools/learn/cmd_rollback.go:90-183 | A rollback right after the operation that applied the decision gives back the same files |
| LifecycleRuns.MoveOverwritesIffOccupied | tools/learn/cmd_apply_decision.go:188-244 | A move leaves all other files alone exactly if the deprecated path is free or already holds the same bytes |
| GitLog.SortedDirsAreSorted | tools/learn/ingest_git.go:309-325 | The directory tokens are strictly ascending and are exactly the directories of the files |
| GitLog.ComputeDirTokens | tools/learn/ingest_git.go:309-330 | For every enumeration of the set the result is the same: the first eight, in ascending order, of the files' directories, `.` standing for none |
| GitLog.ComputeNumstat | tools/learn/ingest_git.go:275-292 | Files in order of the lines, none if any line is binary |
| GitLog.NumstatFailsIff | tools/learn/ingest_git.go:275-292 | No files are returned exactly if some line has two dashes in front |
| GitLog.NumstatByPosition | tools/learn/ingest_git.go:275-292 | Otherwise they are, by position, the third fields of exactly the lines that have three |
| GitLog.NumstatRoundTrip | tools/learn/ingest_git.go:275-292 | Rendered numstat lines read back as the file list, or as binary exactly if some file is |
| GitLog.NumstatIsUniqueIff | tools/learn/ingest_git.go:271-292 | The file list is without repetition exactly if no two numstat lines name the same file |
| GitLog.HeaderSplits | tools/learn/ingest_git.go:231-238 | A rendered header splits into the four fields, separators in the body staying in the body |
| GitLog.ParseGitEntries | tools/learn/ingest_git.go:157-218 | The flush-driven loop computes the fold of the line step, flushed at the end, the reading that CommitText.RecordsTell is about |
| GitLog.FlushEntry | tools/learn/ingest_git.go:172-194 | Adds one record for a well-formed, non-binary entry and none otherwise |
| GitLog.LinesOfRender | tools/learn/ingest_git.go:52-52 | The lines of what `git log` prints: header and numstat lines of each commit, and a blank line only behind a commit with files that is not the last |
| GitLog.FeedHeader | tools/learn/ingest_git.go:196-205 | A header is collected up to its separator, whatever line breaks and blank lines it contains |
| GitLog.ReadsCommit | tools/learn/ingest_git.go:196-215 | Reading a printed commit that has files or is the last adds its record and leaves the parser between two commits |
| CommitText.RecordsTell | tools/learn/ingest_git.go:52-291 | If every commit but the last has files, and subjects are one line, parsing the printed history gives, by position, one record for each commit without binary files whose date parses, with its sha, date, type, scope and first directories; the text before sanitizing has the subject up to its first line feed, is the subject alone exactly if the body is blank, and otherwise has the body behind its first blank line |
| CommitText.TextReadsBack | tools/learn/ingest_git.go:256-260 | With a sanitizer that changes nothing, subject and non-blank body can be read back from the record |
| EmptyCommits.FeedWithBlank | tools/learn/ingest_git.go:196-211 | A header read as numstat lines ends the open entry at its first blank line, and the rest of it is collected as another header |
| EmptyCommits.NoFieldsNoRecord | tools/learn/ingest_git.go:224-234 | Text without field separators gives no record |
| EmptyCommits.CleanBound | tools/learn/ingest_git.go:157-218 | No history gives more records than it has non-binary commits |
| EmptyCommits.RecordsAreLost | tools/learn/ingest_git.go:196-215 | Wherever a commit without files is followed by one that is not binary, fewer records come back than there are non-binary commits (in `EmptyCommits` all dates parse) |
| EmptyCommits.InsteadIff | tools/learn/ingest_git.go:206-215 | A commit without files in front of a binary one keeps its record exactly if the binary one's header has a blank line before anything that looks like a numstat line |
| EmptyCommits.RoundTripIff | tools/learn/ingest_git.go:52-291 | For bodies without U+001F: the history comes back whole exactly if every commit without files is the last or stands in front of such a binary commit |
| EmptyCommits.WithoutBinaries | tools/learn/ingest_git.go:52-291 | Among histories without binary commits these are exactly those in which every commit but the last has files |
| EmptyCommits.BlankBodyIsHarmless | tools/learn/ingest_git.go:206-211 | A binary commit without tabs in its first line whose body starts with a blank line is of that kind |
| SpecIngest.Collector.FlushTask | tools/learn/ingest_spec.go:119-145 | Emits the pending task, if any, and clears it |
| SpecIngest.Collector.FlushLog | tools/learn/ingest_spec.go:147-169 | Emits the pending step, if any, and clears it |
| SpecIngest.Collector.EnterSection | tools/learn/ingest_spec.go:183-200 | A section heading flushes what is pending and switches the log flag |
| SpecIngest.Collector.ReadLogLine | tools/learn/ingest_spec.go:202-218 | A line inside the execution log: a header starts a new step, others extend the open one |
| SpecIngest.Collector.ReadTaskLine | tools/learn/ingest_spec.go:220-269 | A line outside the log: starts, extends or ends a task block |
| SpecIngest.ParseSpec | tools/learn/ingest_spec.go:98-300 | The loop over flags and builders emits the expected records, and these tell the document as in SpecRecords.ExpectedTells |
| SpecRecords.ExpectedTells | tools/learn/ingest_spec.go:98-300 | By line positions: the record of the last status line first, if it is one of the three reported; then, ascending, one record for each completed-task line outside the log and each log header in it. A task's tokens are its id and the files of exactly the files lines up to the first line that ends it, each sanitized; its text begins with id and trimmed title and goes on with all lines of the block. A step has its parsed time and its lines |
| SpecIngest.FeedKeepsTotal | tools/learn/ingest_spec.go:173-270 | At every line, the records so far, the completed pending one and those of the lines to come are together always the same |
| SpecRecords.AnchorsAreExact | tools/learn/ingest_spec.go:183-234 | The anchors are exactly the completed-task lines outside the execution log and the headers inside it, each once, ascending |
| SpecRecords.OneRecordPerAnchor | tools/learn/ingest_spec.go:119-284 | The i-th record behind the status is that of the i-th anchor |
| SpecRecords.BlocksAreDisjoint | tools/learn/ingest_spec.go:202-269 | A block ends before the next anchor, so no line is collected twice |
| SpecRecords.BlockIsItsLines | tools/learn/ingest_spec.go:202-269 | The collected text of a block is every one of its lines, in order |
| Comments.StripComments | tools/validate-spec/parser.go:241-263 | The loop on the shrinking remainder ends and computes the stripped line and the carried flag |
| Comments.StripBody | tools/validate-spec/parser.go:132-141 | Carrying the flag over the lines collects the stripped body |
| Comments.LineAgrees | tools/validate-spec/parser.go:241-263 | On one line, from every undecided prefix, the search for markers and the character automaton write the same text and end in the same state |
| Comments.BodyIsRun | tools/validate-spec/parser.go:132-141 | Line by line gives the text and state of the automaton over the joined lines, line feeds kept |
| Comments.ChunkInvariant | tools/validate-spec/parser.go:74-141 | For every document, splitting it into lines and stripping them is the one-pass automaton |
| Comments.StrippedReopensIff | tools/validate-spec/parser.go:241-263 | A line with one comment is stripped to what is around it, and stripping that again changes nothing exactly if its two sides do not join into an opener |
| CaseNames.SplitWords | cmd/cli/scaffold/helpers.go:186-227 | The loop over runes computes the word list |
| WordBreaks.WordsByPosition | cmd/cli/scaffold/helpers.go:186-227 | The words are the stretches of the text that begin, by position, exactly behind a separator, at a capital behind a small letter, and at a capital between a capital and a small letter, and that end at the next beginning, at a separator or with the text |
| CaseNames.WordsAreWhole | cmd/cli/scaffold/helpers.go:186-227 | The words are the non-separator characters, in order, none lost, and none of them is empty |
| CaseNames.SplitUndoesJoin | cmd/cli/scaffold/helpers.go:186-227 | Splitting undoes joining words that contain neither separators nor capitals |
| CaseNames.CapitalizeFirst | cmd/cli/scaffold/helpers.go:230-240 | The in-place update gives the first rune in upper and the rest in lower case |
| CaseNames.ToPascalCase | cmd/cli/scaffold/helpers.go:115-125 | The capitalised words of the name, glued |
| WordBreaks.PascalPieces | cmd/cli/scaffold/helpers.go:115-125 | Each word contributes, in its place, its first character in upper and the others in lower case, and nothing is put between words |
| CaseNames.ToCamelCase | cmd/cli/scaffold/helpers.go:129-137 | The first character of the Pascal name in lower case, and the rest of it as it is |
| CaseNames.ToSnakeCase | cmd/cli/scaffold/helpers.go:141-151 | The lower-case words joined by underscores, the check for empty words never taking effect |
| WordBreaks.SnakePieces | cmd/cli/scaffold/helpers.go:141-151 | Each word contributes, in its place, its characters in lower case, with one underscore between words |
| CaseNames.SnakeIsIdempotent | cmd/cli/scaffold/helpers.go:141-151 | Converting twice is converting once for every string whose characters settle: the lower case is not a separator, not a capital and its own lower case |
| CaseNames.UnsettledChanges | cmd/cli/scaffold/helpers.go:141-151 | Any other character makes a name that changes when it is converted again |
| CaseNames.SnakeIsIdempotentIff | cmd/cli/scaffold/helpers.go:141-151 | For tables that have the letter A, converting twice is converting once for all strings exactly if every character settles |
| CaseNames.BreaksAtJoint | cmd/cli/scaffold/helpers.go:206-218 | Where two capitalised words meet, the splitter breaks exactly if the text before ends in a lower-case letter, or in a capital with a lower-case letter second in the next word |
| CaseNames.SnakeOfPascalAndCamel | cmd/cli/scaffold/helpers.go:115-151 | For words of characters that pair with their upper case, ToSnakeCase of their Pascal or camel name is the words with exactly the unseparated neighbours run together |
| CaseNames.RoundTrip | cmd/cli/scaffold/helpers.go:115-151 | For words of lower-case letters that pair with their upper case, ToSnakeCase undoes ToPascalCase exactly if no two neighbours are both one letter long; for ToCamelCase the first word does not matter |
| CaseNames.PascalIsInjective | cmd/cli/scaffold/helpers.go:115-125 | Names made of different words of such letters have different Pascal names, whether or not they can be read back |
| UserCache.UseCases.ExecuteGet | internal/usecases/user/get.go:53-127 | Answer and cache after a Get, for every failure of the three calls |
| UserCache.UseCases.ExecuteUpdate | internal/usecases/user/update.go:44-102 | Answer, table and cache after an Update |
| UserCache.UseCases.ExecuteDelete | internal/usecases/user/delete.go:42-73 | Answer, table and cache after a Delete |
| UserAnswers.GetRefusals | internal/usecases/user/get.go:53-127 | Each error of a Get exactly in its case |
| UserAnswers.GetAnswers | internal/usecases/user/get.go:63-126 | A cached value is answered as it is; otherwise all six fields of the row, both times printed, and that is what is stored under the text asked for |
| UserAnswers.UpdateRefusals | internal/usecases/user/update.go:44-102 | Each error of an Update exactly in its case, an address of another row among them |
| UserAnswers.UpdateAnswers | internal/usecases/user/update.go:54-82 | A write changes the one row: the given name and checked address, the time of the edit, and nothing else; after an error it has happened only if the answer of the database was lost |
| UserAnswers.UpdateShows | internal/usecases/user/update.go:83-101 | A successful Update answers with the row as it now is, and drops the value cached under this text |
| UserAnswers.DeleteAnswers | internal/usecases/user/delete.go:42-73 | Each outcome of a Delete exactly in its case; the row stays, inactive and with a new time, and nothing else changes |
| UserCache.ExecuteCoherent | internal/usecases/user/update.go:54-93 | With working I/O and one spelling per id, an execution answers and writes as without a cache and leaves only current values in the cache |
| UserCache.SecondSpellingIsStale | internal/usecases/user/get.go:63-73 | Two spellings of one id give a run in which the cache is noticed |
| UserCache.UnnoticeableIffOneSpelling | internal/usecases/user/get.go:63-126 | All uninterrupted runs over a set of id texts are answered as without a cache exactly if no two of the texts name the same row |
| UserCache.CanonicalIsUnnoticed | internal/domain/user/vo/id.go:23-28 | That holds for ids in canonical text form (section 4 of RFC 9562) |
| UserCacheRuns.StepIsSound | internal/usecases/user/get.go:63-126 | Every step of every execution, failing or not, keeps cached, loaded and returned values among the versions of their row, and versions are only added |
| UserCacheRuns.RunIsSound | internal/usecases/user/get.go:63-126 | So does every interleaving, with lagging reads, shared reads, lost cache calls and expiry |
| UserCacheRuns.AnsweredFromThePast | internal/usecases/user/get.go:72-104 | The value a Get returns was held by the row before the step that returned it |
| UserCacheRuns.GetIsRun | internal/usecases/user/get.go:53-127 | The steps of a Get, uninterrupted, answer and do what the sequential model says, for every failure |
| UserCacheRuns.UpdateIsRun | internal/usecases/user/update.go:44-102 | So do the steps of an Update: answer, table and cache |
| UserCacheRuns.DeleteIsRun | internal/usecases/user/delete.go:42-73 | So do the steps of a Delete: answer, table and cache |
| UserCacheCoherence.StoredIsCurrentIff | internal/usecases/user/get.go:104-124 | What a Get stores is current exactly if the version it read shows what the newest version shows |
| UserCacheCoherence.StepSettledIff | internal/usecases/user/update.go:81-93 | A step keeps every cached value current, or about to be dropped by a write under way, exactly if it stores nothing stale, leaves no other spelling of the row behind and does not fail to drop what is stale |
| UserCacheCoherence.SettledIff | internal/usecases/user/get.go:63-126 | So does every interleaving from the start, at every moment, exactly if each of its steps does |
| UserCacheCoherence.SettledAtRest | internal/usecases/user/update.go:81-93 | Then, whenever no write is under way, every cached value is what its row holds |
| UserCacheCoherence.SavedActiveIff | internal/usecases/user/update.go:54-82 | The row an Update saves is active exactly if the version it read was |
| UserCacheCoherence.StaysInactiveIff | internal/usecases/user/delete.go:52-61 | After any run, a deleted user stays deleted through the next steps exactly if none of them saves an Update that read an active version |
| UserCacheCoherence.LateStoreIsStale | internal/usecases/user/get.go:104-124 | For every change that shows there is a run from the start, all of whose calls succeed and end, after which the cache holds the old value and the row the new one |
| UserCacheCoherence.LateSaveRevives | internal/usecases/user/update.go:54-82 | For every accepted change there is a run from the start in which a Delete succeeds and ends and an earlier-read Update then makes the user active again |

## Left out

- Exactly-once execution of handlers: not claimed. The lock-error, read-error and missing-entry branches run the handler without the lock, and the lock can expire.
- Redis time-to-live: expiry is a step that may happen at any time; no durations are modelled.
- The request checks before the lock (method, missing header, unreadable body), the service-name prefix of the key and the SHA-256 of the body: a request is its key and its fingerprint.
- The equivalence of recall with the unlimited ranking under a modification-time filter: the filter runs after the per-index limit, so it does not hold there; the stages themselves are modelled.
- Floating point: scores and normalised distances are exact reals; BM25 itself is a given row order.
- Byte lengths: the summary cut and the character budget count the elements of the model's strings, which stand for bytes.
- The SQL behind recall and the construction of the match expression: search, indexed text and age of a match are functions that may fail.
- The other validators of validate-spec, fences and the section parser: the comment stripper is modelled on its own, and the scheduler checks start from the parsed tasks and batches.
- The regular expressions, the sanitizer, time parsing and `splitFiles` of the ingesters: function parameters.
- Line-length limits of the scanners, cancellation and open errors of the parsers.
- YAML and JSON encoding, the decisions file, and dry-run modes of the learning tool.
- The update branch of record-decision: recorded rows and created files enter the runs, edits of existing learning files do not.
- Partial file writes and the fallback for moves across file systems: a write happens or does not.
- Concurrent processes on one learning directory: the operations of a run follow each other.
- Path aliases: two paths are the same file only if they are equal; row ids of decisions are the positions of the rows.
- `tools/learn/pattern.go` serialisation and the difference between nil and empty slices.
- `ToKebabCase`, `ToPlural` and `ToSingular`.
- Invalid UTF-8: strings are sequences of characters.
- Create and List of users, conversion errors of stored rows, and the duplicate-email error text: a violated uniqueness is an internal error.
- Duration and retry behaviour of the cache client.

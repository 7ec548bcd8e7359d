# Benchmark gating and tuning, modelled in Dafny

The scripts of ace-lite decide which benchmark runs count, which arm wins a case, whether a
dependency audit passes, whether a gate may be promoted, and which parameters a tuning search
keeps. This project models those decisions and proves what they promise.

Code that works by changing things step by step is written as methods with loops, or as classes
whose methods update fields (`Checkout.Session`, `Complexity.Visitor`, `NotesFile.NotesStore`).
Each such method is proved equal to a function of its inputs, and the theorems are about those
functions; the modules named `...Meaning` tie every one of them to the inputs alone. Git, the random number generator, the benchmark itself and the JSON library are
arbitrary functions, so the theorems hold whatever they return; where a law of the library is
needed it is a named predicate (`NotesFile.Lawful`, `Hotspots.RoundedTenth`). Path normalisation is
arbitrary in `Hotspots` and that of POSIX systems in `HotspotPaths`.
Numbers that the scripts keep as floats are reals.

| file | what it holds |
|---|---|
| `Prelude.dfy`, `Sequences.dfy`, `Ordering.dfy`, `Text.dfy` | optional values; sums, groups, counts; stable sorting and string order; trimming, splitting, searching |
| `PackedRefs.dfy`, `Checkout.dfy`, `CheckoutSafety.dfy`, `MatrixRun.dfy`, `SkippedRepos.dfy`, `CheckoutMeaning.dfy` | resolving HEAD, the git checkout protocol, its safety, the repo loop around it, which repos it skips, what a checkout does for its spec |
| `MatrixSummary.dfy`, `MatrixReaggregation.dfy`, `SummaryMeaning.dfy` | weighted latency and SLO summaries, per bucket and overall, and in terms of the reported numbers |
| `ArmSweeper.dfy`, `OracleWinner.dfy`, `OracleMeaning.dfy` | oracle relabelling and the leaderboard |
| `VulnFindings.dfy`, `VulnGate.dfy`, `QualityGate.dfy` | vulnerability findings, their canonical form, the baseline diff, the gate |
| `Complexity.dfy`, `Hotspots.dfy`, `HotspotPaths.dfy` | the complexity visitor, hotspot baselines and ceilings, which paths survive a refresh |
| `NotesFile.dfy` | the notes file and whole scenario runs on it |
| `Statistics.dfy`, `FreezeStability.dfy`, `FreezeMeaning.dfy`, `ValidationRich.dfy`, `Promotion.dfy`, `PromotionMeaning.dfy` | medians and rates, the two stability verdicts, the promotion decision |
| `TuningMoves.dfy`, `TuningRun.dfy`, `TuningMeaning.dfy` | the tuning search: parsers, moves, the kept best, the policy summary |
| `AcademicReport.dfy`, `ReportMeaning.dfy`, `MetricsDrift.dfy` | group-by tables; metric collection and regression checks |

## Where a natural claim is false

Each of these is code behaviour, kept as it is; the lemma named last gives the exact condition.

- A noise of exactly zero sorts as one, so an arm without noise can lose to a noisy one
  (`ZeroNoiseLoses`); exactly for which two rows, is `ZeroNoiseExactly`, for which cases, is
  `CaseDominatedExactly`, and when on the leaderboard, is `RawBestArmExactly`.
- Without repos the SLO summary claims one case that no bucket holds (`CaseCountsAgreeExactly`).
- A matrix can pass although a configured repo never ran (`PassedMayMissRepos`, `PassedCoversAll`).
- A tracked feature slice that never shows up is no failure (`UnobservedSlicePasses`,
  `TrackedFloorExactly`).
- A stability session without runs passes exactly for a failure budget of one or more (`NoRuns`).
- Half of the runs within the retry budget do not put the median within it (`HalfIsNotEnough`);
  how many force it there, whatever the other runs do, is `RetryMajorityExactly`, and which lists
  of runs meet the budget is `RetryMedianExactly`.
- A repo can be skipped although git was launched, when its name or a command planned for it reads
  like git could not be (`MisnamedRepoSkipped`); exactly for which repos no git can bring this
  about, is `SkippedRightlyExactly`.
- A refreshed hotspot baseline can miss a path that a second normalisation changes, such as one
  with a trailing backslash (`UnstablePathMissing`, `PosixNothingMissing`).
- The compounded lower bound on an upward metric ends at a tolerance of one (`DroppedPasses`,
  `UpDriftExactly`).

## Model

| member | source | states |
|---|---|---|
| PackedRefs.ResolveHeadWithoutGit | scripts/run_benchmark_matrix.py:162-200 | the imperative resolution of HEAD, all its early returns included, is the function `ResolveHead` |
| PackedRefs.FindPackedRef | scripts/run_benchmark_matrix.py:187-200 | the scan of packed-refs returns the first non-blank commit listed for the ref |
| PackedRefs.PackedRoundTrip | scripts/run_benchmark_matrix.py:187-200 | for every well-formed file with comments and peeled lines interspersed, reading the printed text back finds the first entry of the ref, or nothing |
| PackedRefs.ResolveRendered | scripts/run_benchmark_matrix.py:162-200 | with a symbolic HEAD, however padded, a non-blank loose ref wins, else the first packed entry, else "" |
| PackedRefs.FirstEntryListed | scripts/run_benchmark_matrix.py:193-200 | whatever is found is listed for that ref, and "" means that no entry names it |
| PackedRefs.FirstEntryFirst | scripts/run_benchmark_matrix.py:193-200 | the entry that is found is the first one of its ref |
| PackedRefs.ScanMeaning | scripts/run_benchmark_matrix.py:193-200 | for any file, well formed or not: the commit of the first line that, trimmed, is no comment and reads commit, space, ref; nothing exactly when no line does |
| PackedRefs.SymbolicMeaning | scripts/run_benchmark_matrix.py:176-200 | a symbolic HEAD over any files: the loose ref if not blank, else what the scan finds, else nothing |
| PackedRefs.DetachedHead | scripts/run_benchmark_matrix.py:162-174 | a HEAD that names no ref gives its text, trimmed, from seven characters on, and nothing otherwise or when missing |
| Checkout.Session.RunCommand | scripts/run_benchmark_matrix.py:112-126 | a command gets the answer of git at this point of the history and is appended to it |
| Checkout.Session.RunWithRetry | scripts/run_benchmark_matrix.py:207-232 | the retry loop, its trace and its result or error, is the function `Retry` |
| Checkout.RetryMeaning | scripts/run_benchmark_matrix.py:207-232 | between one and max(1, attempts) copies of the command are issued, all but the last failed retryably, a failing result is never returned, and the loop gives up early only on a failure that is not retryable |
| Checkout.Session.SyncCheckoutSubmodules | scripts/run_benchmark_matrix.py:296-333 | submodule sync then update, each retried, only when enabled |
| Checkout.Session.RefreshCheckout | scripts/run_benchmark_matrix.py:1250-1286 | fetch, retry and checkout with the `git_unavailable` flag leave the state the protocol function describes |
| Checkout.Session.EnsureCheckout | scripts/run_benchmark_matrix.py:1228-1304 | the whole checkout, trace and outcome, is the protocol function `Ensure` |
| CheckoutSafety.EnsureSafe | scripts/run_benchmark_matrix.py:1228-1304 | over every git: each command issued is the first one of the plan that has not succeeded yet; at most twelve are issued; a refreshed checkout completed the plan and reports what rev-parse printed; a reused one stopped at the command that showed git unavailable; a command error is the last event; invalid specs issue no command |
| CheckoutSafety.CheckoutFollowsFetch | scripts/run_benchmark_matrix.py:1250-1284 | FETCH_HEAD is checked out only directly after a fetch that returned 0 |
| CheckoutSafety.ReusedExactly | scripts/run_benchmark_matrix.py:1250-1297 | the checkout is reused if and only if git could not be launched for the first fetch, or for the checkout directly after a first fetch that worked |
| CheckoutMeaning.CommandsHonourSpec | scripts/run_benchmark_matrix.py:1237-1284 | the first command fetches or clones the ref that the spec gives, `main` when it gives none, to workspace/name; every command works there, and the submodule update lists the distinct non-blank trimmed paths of the spec |
| CheckoutMeaning.ResultHonoursSpec | scripts/run_benchmark_matrix.py:1283-1304 | a successful checkout reports the trimmed name, that ref, whether submodules are on, and those paths |
| CheckoutMeaning.RefreshedRan | scripts/run_benchmark_matrix.py:1241-1296 | the commands that succeeded in a refreshed checkout are exactly: clone, or fetch and checkout; sync and update when submodules are on; rev-parse |
| CheckoutMeaning.CloneAttempts | scripts/run_benchmark_matrix.py:207-232 | a clone is given up after three attempts if its failures are worth a retry, and at once after one that is not |
| CheckoutMeaning.FailuresToldApart | scripts/run_benchmark_matrix.py:145-160 | a failure counts as a missing git, or as worth a retry, if and only if one of its streams shows one of the listed texts in whatever case |
| MatrixRun.MessageKeeps | scripts/run_benchmark_matrix.py:129-142 | a text found in the output of a failed command is found again in the error raised for it, although that quotes the streams separately and stripped |
| MatrixRun.MessageShows | scripts/run_benchmark_matrix.py:129-142 | the raised error shows a text if and only if its headline or the output of the command does |
| SkippedRepos.UnavailableNeverAborts | scripts/run_benchmark_matrix.py:155-160 | an error from a command that could not launch git is always recognised by the repo loop |
| SkippedRepos.CheckoutFailureVerdict | scripts/run_benchmark_matrix.py:129-204 | for every git, a failed checkout either issued no command and aborts the matrix, or is skipped if and only if its last command showed git unavailable or the headline of the error reads like that, and aborts the matrix otherwise |
| SkippedRepos.MisnamedRepoSkipped | scripts/run_benchmark_matrix.py:203-204 | a repo with a misleading name is skipped although git ran and just refused to clone it |
| SkippedRepos.HeadlineShows | scripts/run_benchmark_matrix.py:132-135 | the headline of an error reads like git could not be launched if and only if its step text or its command line does |
| SkippedRepos.WordsName | scripts/run_benchmark_matrix.py:1244-1284 | the words of a command name everything it works on |
| SkippedRepos.EnsureLabel | scripts/run_benchmark_matrix.py:1228-1304 | every error of a checkout is headed by the label of the command that failed |
| SkippedRepos.SkippedRightlyExactly | scripts/run_benchmark_matrix.py:2022-2031 | for a repo that can be checked out: whatever git answers, it is skipped only after a command that showed git unavailable, if and only if neither its name nor any planned command line reads like that |
| MatrixRun.RunRepos | scripts/run_benchmark_matrix.py:2005-2032 | the loop finishes if and only if no configured repo fails in another way than a missing git; then results and skips are exactly those repos in order; otherwise the first such failure escapes |
| MatrixRun.ConfiguredAccounted | scripts/run_benchmark_matrix.py:2072-2078 | repo count plus skipped count is the configured count |
| MatrixRun.ItemFate | scripts/run_benchmark_matrix.py:2005-2032 | which items become results, are skipped, or abort the loop, in terms of their names and outcomes |
| MatrixRun.MatrixPassesExactly | scripts/run_benchmark_matrix.py:2079-2081 | the matrix passes if and only if some named repo completed and all that did passed |
| MatrixRun.PassedCoversAll | scripts/run_benchmark_matrix.py:2079-2081 | a passing matrix covers every configured repo if and only if nothing was skipped |
| MatrixRun.PassedMayMissRepos | scripts/run_benchmark_matrix.py:2079-2081 | one passing and one skipped repo make a passing matrix in which a repo never ran |
| MatrixSummary.BuildStageLatencySummary | scripts/run_benchmark_matrix.py:740-773 | the accumulating loops compute the case-weighted averages of every stage |
| MatrixSummary.BuildSloBudgetSummary | scripts/run_benchmark_matrix.py:776-835 | the single pass computes weighted budgets, downgrade and signal counts and their rates |
| MatrixSummary.BuildLatencySloBucketSummary | scripts/run_benchmark_matrix.py:838-895 | one row per bucket, in report order, summarising exactly the repos filed under it |
| MatrixReaggregation.BucketNamesMeaning | scripts/run_benchmark_matrix.py:869-873 | bucket rows are strictly in report order and every repo has its bucket |
| MatrixReaggregation.BucketsPartitionRepos | scripts/run_benchmark_matrix.py:847-880 | the buckets laid end to end are a permutation of the repos, and each row counts its own, at least one |
| MatrixReaggregation.ColumnsReaggregate | scripts/run_benchmark_matrix.py:740-835 | for every mean, p95, reported median and budget limit, the bucket values weighted by bucket case counts add up to total case count times the overall value |
| MatrixReaggregation.CountsReaggregate | scripts/run_benchmark_matrix.py:787-835 | case, repo, downgrade and signal counts of the buckets add up to the overall ones |
| MatrixReaggregation.CaseCountsAgreeExactly | scripts/run_benchmark_matrix.py:787-789 | the case counts agree if and only if there is a repo |
| MatrixReaggregation.AverageBetween | scripts/run_benchmark_matrix.py:740-773 | every overall average lies between any bounds on the repos' own values |
| SummaryMeaning.LatencyBetween | scripts/run_benchmark_matrix.py:740-773 | mean, p95 and median of a stage lie between any bounds on what the repos report under these names |
| SummaryMeaning.LimitBetween | scripts/run_benchmark_matrix.py:791-822 | so does every budget limit |
| SummaryMeaning.LatencyGrows | scripts/run_benchmark_matrix.py:740-773 | with one more repo each of them is the average of the old value and the reported one, weighted by the cases before and max(1, case count) |
| SummaryMeaning.TwoRepos | scripts/run_benchmark_matrix.py:734-773 | for two repos the weights are their case counts, at least one each |
| SummaryMeaning.LimitGrows | scripts/run_benchmark_matrix.py:791-822 | the same for the budget limits |
| SummaryMeaning.CasesGrow | scripts/run_benchmark_matrix.py:734-789 | the case count grows by the reported one, at least one |
| SummaryMeaning.DowngradesGrow | scripts/run_benchmark_matrix.py:812-827 | downgrades add up, negative ones read as zero, and the rate is the count over the cases |
| SummaryMeaning.SignalsGrow | scripts/run_benchmark_matrix.py:815-834 | the same for every signal |
| SummaryMeaning.BucketRowIs | scripts/run_benchmark_matrix.py:847-893 | a bucket row summarises exactly the repos that name its bucket, a blank name standing for `policy_auto`, and lists their names sorted |
| SummaryMeaning.BucketRowsMeaning | scripts/run_benchmark_matrix.py:869-872 | the four repo sizes come first, in their order, then the other buckets by name |
| ArmSweeper.LoadArmCatalog | scripts/run_arm_sweeper.py:90-114 | a catalog is accepted if and only if it is non-empty with non-blank distinct ids; the error names the first offending entry |
| OracleMeaning.CatalogIds | scripts/run_arm_sweeper.py:97-100 | the ids of a catalog are those of its objects, trimmed, in order |
| ArmSweeper.CollectEntries | scripts/run_arm_sweeper.py:247-266 | the nested loops list every arm's result on every named case, in order |
| ArmSweeper.BuildOracleRelabel | scripts/run_arm_sweeper.py:236-317 | the verdict of every case, in case order, and the exact count of wins of every non-blank arm id |
| ArmSweeper.CaseLeOrder | scripts/run_arm_sweeper.py:224-233 | the seven-component key is a total preorder whose ties share the arm id |
| OracleMeaning.RankedByPriority | scripts/run_arm_sweeper.py:224-271 | the ranking goes by task success, then recall, precision, dependency recall, noise with zero read as one, latency and id, and the winner is no worse than any row |
| OracleMeaning.VerdictRanksReported | scripts/run_arm_sweeper.py:247-266 | a verdict ranks exactly the rows that the arms report for its case |
| OracleMeaning.OneVerdictPerCase | scripts/run_arm_sweeper.py:247-271 | one verdict for every non-blank case that some arm reports, sorted by id |
| Ordering.StringLeMeaning | scripts/run_arm_sweeper.py:269 | names are ordered as Python orders strings: prefixes first, else by the first character that differs |
| OracleWinner.WinnerLeast | scripts/run_arm_sweeper.py:268-271 | the ranking is a sorted permutation of the case's rows and its head is least under the key |
| OracleWinner.WinnerUndominated | scripts/run_arm_sweeper.py:224-271 | no row dominates the winner on quality, effective noise and latency |
| OracleWinner.ZeroNoiseExactly | scripts/run_arm_sweeper.py:230 | the key orders two rows as their measured noise does, except exactly for the stated zero-noise ties |
| OracleWinner.RawDominatedExactly | scripts/run_arm_sweeper.py:230 | the winner is dominated on measured noise if and only if by a zero-noise row that ties with it and is no slower |
| OracleWinner.LeaderWins | scripts/run_arm_sweeper.py:268-271 | the winner is the first row of the case that leads in quality, then measured noise with zero counting as one, then latency and id |
| OracleWinner.CaseDominatedExactly | scripts/run_arm_sweeper.py:224-271 | some row of a case dominates the winner on the measured metrics if and only if a leading row with noise in (0, 1] has a noiseless rival of equal quality that is no slower |
| OracleWinner.ZeroNoiseLoses | scripts/run_arm_sweeper.py:230 | a concrete noiseless arm loses to one that is half noise |
| OracleWinner.NonZeroNoiseUndominated | scripts/run_arm_sweeper.py:224-233 | without zero noises the winner is undominated on the measured metrics |
| OracleWinner.SameWinner | scripts/run_arm_sweeper.py:269-271 | permuting the rows of a case never changes the winning arm id, even if ids repeat |
| OracleWinner.OracleOrderIndependent | scripts/run_arm_sweeper.py:247-303 | permuting the arms changes neither the cases nor any oracle arm |
| OracleWinner.VerdictsOrderIndependent | scripts/run_arm_sweeper.py:247-303 | with distinct arm ids the complete verdicts, rankings included, are independent of the order of the arms, even if an arm reports a case several times: ties share an arm and the sort is stable |
| OracleWinner.CatalogVerdicts | scripts/run_arm_sweeper.py:95-105 | the ids an accepted catalog yields are distinct, so the verdicts of a sweep do not depend on the order of its arms |
| OracleWinner.DistributionTotal | scripts/run_arm_sweeper.py:306-315 | the wins add up to the cases with a non-blank oracle id, and to the case count if and only if all are non-blank |
| OracleWinner.CatalogDistribution | scripts/run_arm_sweeper.py:305-315 | for a sweep over an accepted catalog the distribution lists exactly the winning arms in order, and its values add up to the case count |
| OracleWinner.BestArmLeast | scripts/run_arm_sweeper.py:204-221 | the head of the leaderboard is least under the overall key and undominated |
| OracleWinner.RawBestArmExactly | scripts/run_arm_sweeper.py:204-221 | an arm dominates the best one on measured noise if and only if it has none where the best has some up to one, ties on success rate and precision, and is no slower |
| OracleMeaning.BoardByPriority | scripts/run_arm_sweeper.py:204-221 | the leaderboard goes by success rate, then precision, noise with zero read as one, latency and id |
| OracleWinner.LeaderboardOrderIndependent | scripts/run_arm_sweeper.py:327-362 | with distinct ids the leaderboard does not depend on the order of the results |
| VulnFindings.CollectFindings | scripts/run_quality_gate.py:154-196 | the collecting and merging loops compute the sorted merge of all occurrences |
| VulnFindings.MergeFindings | scripts/run_quality_gate.py:181-195 | the dedup dictionary holds exactly the merged occurrences of every key |
| VulnFindings.NormalizeFixed | scripts/run_quality_gate.py:133-146 | normalising a normal finding changes nothing |
| VulnGate.CollectCanonical | scripts/run_quality_gate.py:154-196 | strictly sorted by package and id, one entry per occurring key, its versions exactly the sorted union of all that were reported |
| VulnGate.CanonicalUnique | scripts/run_quality_gate.py:181-196 | there is only one such form of a set of occurrences |
| VulnGate.CollectDependsOnSet | scripts/run_quality_gate.py:181-196 | only the set of occurrences matters |
| VulnGate.CollectOrderIndependent | scripts/run_quality_gate.py:154-196 | permuting dependencies, and vulnerabilities within each, changes nothing |
| VulnGate.CollectFixedPoint | scripts/run_quality_gate.py:154-196 | the output reported again is collected to itself |
| VulnGate.BaselineRoundTrip | scripts/run_quality_gate.py:199-215 | collected findings written as a baseline are read back unchanged |
| VulnGate.DiffPartition | scripts/run_quality_gate.py:527-546 | the three lists are strictly sorted, pairwise disjoint, and new with known make up the current keys, known with resolved the baseline keys |
| VulnGate.DiffFromInputs | scripts/run_quality_gate.py:542-546 | every listed finding is one of those it was taken from |
| VulnGate.GateDecidesInclusion | scripts/run_quality_gate.py:893-900 | the strict gate passes if and only if every current key is a baseline key |
| VulnGate.GateMonotone | scripts/run_quality_gate.py:893-900 | a passing gate survives fewer findings and a larger baseline |
| VulnGate.AcceptedBaselinePasses | scripts/run_quality_gate.py:893-900 | accepting the current findings as the baseline clears the gate |
| QualityGate.CollectedReported | scripts/run_quality_gate.py:154-196 | the collected findings are exactly the reported vulnerabilities with a name and an id, once each, with exactly the versions that some report names |
| QualityGate.CollectedInOrder | scripts/run_quality_gate.py:196 | sorted by package, then by id, none twice |
| QualityGate.BaselineRead | scripts/run_quality_gate.py:199-215 | a baseline entry is read with its names and versions trimmed and blank ones left out |
| QualityGate.DiffMeaning | scripts/run_quality_gate.py:527-546 | new is reported and not listed, known is both, resolved is only listed |
| QualityGate.DiffInOrder | scripts/run_quality_gate.py:542-546 | all three lists are in the same order |
| QualityGate.RunQualityGate | scripts/run_quality_gate.py:842-900 | the gate passes if and only if every required command returned 0, the audit returned 0 or 1 and was read, and, in strict mode, every vulnerability it reports is in the baseline file |
| Complexity.Visitor.constructor | scripts/run_quality_gate.py:297-299 | a new visitor starts at score one |
| Complexity.Visitor.Bump | scripts/run_quality_gate.py:301-302 | adds the amount, never less than zero |
| Complexity.Visitor.Visit | scripts/run_quality_gate.py:304-346 | visiting adds exactly the weights, and the function nodes, of the whole subtree to the counters |
| Complexity.ComputeComplexity | scripts/run_quality_gate.py:370-376 | a fresh visitor reports the fold over the module |
| Complexity.ScoreIsSum | scripts/run_quality_gate.py:370-376 | the score is one plus the sum of all node weights; the clamp never acts |
| Complexity.ScoreOfConcatenation | scripts/run_quality_gate.py:296-376 | score(A ++ B) = score(A) + score(B) - 1, and function counts add |
| Complexity.SiblingsCommute | scripts/run_quality_gate.py:296-346 | the order of siblings is irrelevant |
| Complexity.ReplaceShifts | scripts/run_quality_gate.py:296-346 | replacing any subtree shifts score and function count by exactly the difference |
| Complexity.ShuffleAnywhere | scripts/run_quality_gate.py:296-346 | reordering children at any depth changes neither counter |
| Complexity.ConstructCost | scripts/run_quality_gate.py:301-346 | an empty module scores one; what each construct adds to the score and the function count of its body |
| Hotspots.CeilingRoom | scripts/run_quality_gate.py:381-384 | a ceiling is at least score + 2 and at least 1.1 times the score, and grows strictly with the score |
| Hotspots.SlackAtTens | scripts/run_quality_gate.py:384 | an upward float error raises the ceiling by one exactly for multiples of ten from twenty on |
| Hotspots.CeilingLeast | scripts/run_quality_gate.py:384 | with the exact tenth the ceiling is the least number that leaves two points and a tenth |
| Hotspots.EntryHolds | scripts/run_quality_gate.py:399-425 | a written entry holds what was measured, and a ceiling if and only if there is a score |
| Hotspots.BuildBaselinePayload | scripts/run_quality_gate.py:387-430 | the written entries are those measured for the normalised paths, in order |
| Hotspots.LoadBaseline | scripts/run_quality_gate.py:235-252 | loading keeps the last entry of every normalised path, in first-seen order |
| Hotspots.LoadedMeaning | scripts/run_quality_gate.py:235-252 | the loaded baseline holds the last entry filed under every non-blank normalised path, and nothing else |
| Hotspots.BuildHotspotSummary | scripts/run_quality_gate.py:433-524 | the rows and missing baselines of requested and additional baseline paths |
| Hotspots.PathsGrow | scripts/run_quality_gate.py:444-446 | the requested paths are normalised in order, blank ones left out |
| Hotspots.SummaryListed | scripts/run_quality_gate.py:444-449 | the rows are those of the requested paths, then of the stored ones that were not requested, in order |
| Hotspots.RowCompares | scripts/run_quality_gate.py:453-510 | a row holds what is measured now, the stored ceiling, and, where both sides have a number, what is measured now less what was stored |
| Hotspots.RefreshIsNeutral | scripts/run_quality_gate.py:235-524 | refresh, reload, summarise: exactly the requested paths, none missing, zero deltas wherever measured, every score below its ceiling |
| Hotspots.NothingMissingExactly | scripts/run_quality_gate.py:218-252 | after a refresh nothing is missing if and only if every normalised path is the normalisation of a normalised path |
| HotspotPaths.PathTextFixed | scripts/run_quality_gate.py:218-219 | the text of a path is normalised once and for all |
| HotspotPaths.StableExactly | scripts/run_quality_gate.py:218-219 | a path survives a second normalisation if and only if the first one leaves no space at its ends and no empty or dot piece behind its root |
| HotspotPaths.StableWithoutBackslash | scripts/run_quality_gate.py:218-219 | without backslashes only the spaces at the ends matter |
| HotspotPaths.PosixNothingMissing | scripts/run_quality_gate.py:218-252 | on POSIX, after a refresh nothing is missing if and only if every requested path survives a second normalisation |
| HotspotPaths.PosixRefresh | scripts/run_quality_gate.py:235-524 | on POSIX, refresh, reload and summarise is neutral whenever every requested path survives a second normalisation |
| HotspotPaths.UnstablePathMissing | scripts/run_quality_gate.py:218-219 | a path with a trailing backslash is reported missing right after a refresh |
| NotesFile.NotesStore.ReadRows | scripts/run_scenario_validation.py:119-130 | reading yields the objects of all well-formed lines, in order |
| NotesFile.NotesStore.WriteRows | scripts/run_scenario_validation.py:141-143 | writing replaces the file by the printed rows |
| NotesFile.NotesStore.AppendNote | scripts/run_scenario_validation.py:109-144 | the file holds the rows read plus the new one, and their number is returned |
| NotesFile.NotesStore.WipeNotes | scripts/run_scenario_validation.py:147-178 | the file holds exactly the surviving rows, the removed ones are counted, and a missing file stays missing |
| NotesFile.NotesStore.RunStep | scripts/run_scenario_validation.py:572-631 | store, refused store, wipe and other actions, with what each reports |
| NotesFile.NotesStore.RunSteps | scripts/run_scenario_validation.py:681-723 | over every run: the rows are those of the abstract run, and initial + stored = final + removed |
| NotesFile.RoundTrip | scripts/run_scenario_validation.py:119-143 | printing rows and reading them back is the identity |
| NotesFile.RunRefines | scripts/run_scenario_validation.py:109-178 | every run on the file refines the same run on a sequence of records |
| NotesFile.StepConserves | scripts/run_scenario_validation.py:119-178 | a step adds what it stores and loses what it reports removed |
| NotesFile.RewriteIsPristine | scripts/run_scenario_validation.py:141-143 | after any writing step no malformed or blank line is left, and no step brings one back |
| NotesFile.RunIsPristine | scripts/run_scenario_validation.py:109-178 | the same for a whole run that writes to an existing file |
| NotesFile.WipeKeepsOthers | scripts/run_scenario_validation.py:163-174 | wiping a namespace empties it and keeps every other namespace's rows in order |
| NotesFile.WipeAll | scripts/run_scenario_validation.py:170-172 | wiping without a namespace empties the store |
| NotesFile.StoreThenWipe | scripts/run_scenario_validation.py:109-178 | storing and wiping the namespace is the same as the wipe alone |
| NotesFile.WipesCommute | scripts/run_scenario_validation.py:147-178 | wipes commute |
| NotesFile.LinesRead | scripts/run_scenario_validation.py:119-130 | a line that is blank or not read as an object is passed over, any other adds the object |
| NotesFile.StoreAppends | scripts/run_scenario_validation.py:131-140 | a store with text appends one row with the trimmed text and namespace, the repo and the time; one without text changes nothing |
| NotesFile.TagsKept | scripts/run_scenario_validation.py:137 | the stored tags are the trimmed ones without blanks, in order |
| NotesFile.WipeRow | scripts/run_scenario_validation.py:162-173 | a wipe keeps a row if and only if a namespace is named and the row has another, and counts the rest |
| NotesFile.FileAfterStep | scripts/run_scenario_validation.py:147-178 | which steps leave the file as it is, and what the others make of it |
| Statistics.MedianBoundsHalf | scripts/run_freeze_stability.py:191-192 | a median within a bound puts at least half of the samples within it |
| Statistics.MajorityBoundsMedian | scripts/run_freeze_stability.py:191-192 | more than half of the samples within a bound put the median within it |
| Statistics.HalfIsNotEnough | scripts/run_freeze_stability.py:191-192 | two samples show that exactly half is not enough |
| Statistics.MedianExactly | scripts/run_freeze_stability.py:191-192 | the median is within a bound if and only if a majority of the samples is, or exactly half of them are and the two in the middle average within it |
| Statistics.MajorityExactly | scripts/run_freeze_stability.py:191-192 | c of n samples within the bound force the median within it if and only if they are a majority |
| FreezeStability.ParseCsvNames | scripts/run_freeze_stability.py:111-120 | trimmed names without blanks and repetitions, at their first occurrence |
| FreezeMeaning.CsvNamesMeaning | scripts/run_freeze_stability.py:111-120 | the names are the distinct non-blank trimmed items, in the order of first occurrence |
| FreezeStability.EvaluateStability | scripts/run_freeze_stability.py:178-272 | the loops compute the report, per-slice rows, slice failures and failed runs included |
| FreezeStability.PassMeans | scripts/run_freeze_stability.py:207-268 | a pass bounds the failed runs by their share, puts half of the runs within the retry budget, and has every observed tracked slice at its floor |
| FreezeStability.PassFollows | scripts/run_freeze_stability.py:207-268 | conversely, with a majority of runs within the retry budget |
| FreezeStability.PassExactly | scripts/run_freeze_stability.py:207-268 | a verdict passes if and only if failed runs, retries and observed tracked slices all keep their budgets, the retries as the exact median condition |
| FreezeStability.RetryMedianExactly | scripts/run_freeze_stability.py:191-208 | the retry median keeps its budget if and only if a majority of the runs does, or exactly half do and the two in the middle average within it |
| FreezeStability.RetryMajorityExactly | scripts/run_freeze_stability.py:191-208 | how many runs within the budget force the retry condition: exactly a majority |
| FreezeStability.SliceFailuresExactly | scripts/run_freeze_stability.py:210-248 | no slice failure is reported if and only if all observed tracked slices meet the floor |
| FreezeStability.SliceRowMeaning | scripts/run_freeze_stability.py:216-239 | a slice is stable if and only if it passed in every run, and its counts, class and latest result say so; an unobserved one never passed |
| FreezeMeaning.PassesExactly | scripts/run_freeze_stability.py:186-268 | the verdict passes if and only if the runs that did not pass are within their share, the retry attempts keep their budget, and every watched slice that was seen passes its share of the runs |
| FreezeMeaning.SliceRowsReported | scripts/run_freeze_stability.py:210-239 | a row counts the runs whose last result filed under its name is a pass, and says whether it is watched and whether the last run passed it |
| FreezeMeaning.EverySeenHasRow | scripts/run_freeze_stability.py:210-239 | every slice that some run mentions has a row |
| FreezeStability.ClassificationMeaning | scripts/run_freeze_stability.py:99-108 | each classification in terms of passed and failed runs |
| FreezeStability.TrackedFloorExactly | scripts/run_freeze_stability.py:210-248 | with a pass, all tracked slices meet the floor if and only if it is not positive or all were observed |
| FreezeStability.UnobservedSlicePasses | scripts/run_freeze_stability.py:210-248 | a run without the tracked slice passes |
| FreezeStability.NoRuns | scripts/run_freeze_stability.py:186-207 | without runs the verdict passes if and only if the failure budget is at least one |
| ValidationRich.EvaluateThresholds | scripts/evaluate_validation_rich_gate_promotion.py:47-67 | the loop lists exactly the violated thresholds that are switched on |
| ValidationRich.ViolationsExactly | scripts/evaluate_validation_rich_gate_promotion.py:47-67 | nothing is listed if and only if no threshold is violated |
| PromotionMeaning.ThresholdsMeaning | scripts/evaluate_validation_rich_gate_promotion.py:47-67 | success, precision and tests have minima, the other four metrics maxima; absent metrics are zero, absent or negative thresholds are off |
| ValidationRich.EvaluateSummary | scripts/run_validation_rich_stability.py:137-215 | the failures of a summary, and a pass if and only if there is none |
| PromotionMeaning.FailuresExactly | scripts/run_validation_rich_stability.py:149-215 | every failure is listed if and only if its own condition holds |
| ValidationRich.PassedIsClean | scripts/run_validation_rich_stability.py:262-273 | a run is recorded as passed if and only if it exited 0, had cases, was not regressed and met every threshold |
| ValidationRich.RunAll | scripts/run_validation_rich_stability.py:854-878 | the session's payload is the evaluation of all its runs |
| ValidationRich.StablePassExactly | scripts/run_validation_rich_stability.py:71-80 | the classification is stable_pass if and only if there is a run and all are clean |
| ValidationRich.StablePassPasses | scripts/run_validation_rich_stability.py:307-404 | a stable pass keeps every failure budget, so `passed` follows from it |
| PromotionMeaning.SessionPassesExactly | scripts/run_validation_rich_stability.py:302-404 | a session passes if and only if its runs that were not clean are within their share, and without runs for a budget of one or more |
| PromotionMeaning.SessionClass | scripts/run_validation_rich_stability.py:71-80 | each classification in clean and unclean runs |
| PromotionMeaning.FailedRunsListed | scripts/run_validation_rich_stability.py:317-329 | the failed runs are those that were not clean, in order |
| Promotion.EvaluatePromotion | scripts/evaluate_validation_rich_gate_promotion.py:78-351 | eligible if and only if all conditions hold, if and only if no reason is recorded, if and only if all eight gates passed |
| PromotionMeaning.EligibleExactly | scripts/evaluate_validation_rich_gate_promotion.py:90-341 | the conditions of a promotion in terms of the reported numbers |
| PromotionMeaning.ReasonsExactly | scripts/evaluate_validation_rich_gate_promotion.py:129-331 | every reason is recorded if and only if its own condition fails |
| Promotion.EligibleMonotone | scripts/evaluate_validation_rich_gate_promotion.py:78-351 | loosening thresholds or history, or improving the trend, never turns eligible into ineligible |
| Promotion.EligibleMeansCleanRuns | scripts/evaluate_validation_rich_gate_promotion.py:282-341 | an eligible decision on a session's payload means at least one run and only clean runs |
| PromotionMeaning.EligibleSession | scripts/evaluate_validation_rich_gate_promotion.py:282-341 | the same with cleanliness spelled out in the reported numbers |
| Promotion.StabilityOkExactly | scripts/evaluate_validation_rich_gate_promotion.py:282-283 | on such payloads the stability condition is exactly that, whatever the failure budget |
| Promotion.NormalizedReasonsEmpty | src/ace_lite/benchmark/report_warning_support.py:6-17 | normalising the printed reasons is empty if and only if there is none |
| TuningMoves.ParseNames | scripts/ralph_wiggum_iterate.py:55-78 | the parsing loop keeps the allowed items at their first occurrence, or the defaults |
| TuningMoves.ParsedNamesMeaning | scripts/ralph_wiggum_iterate.py:55-109 | a parsed list is non-empty, free of repetitions and within the allowed values |
| TuningMeaning.ParsedNamesExactly | scripts/ralph_wiggum_iterate.py:55-109 | the parsed list holds the allowed items, trimmed and in lower case, once each in the order of first occurrence, or the defaults when there is none |
| TuningMoves.ScriptListsParse | scripts/ralph_wiggum_iterate.py:55-109 | the same for the script's rankers, fusion modes and policies |
| TuningMoves.ParseRrfKs | scripts/ralph_wiggum_iterate.py:81-96 | the loop keeps every readable item, raised to at least one, at its first occurrence, or the defaults |
| TuningMoves.ParsedKsMeaning | scripts/ralph_wiggum_iterate.py:81-96 | the parsed integers are distinct, at least one, never none, and exactly those of the readable items when there is one |
| TuningMeaning.ParsedKsExactly | scripts/ralph_wiggum_iterate.py:81-96 | the same for the integers |
| TuningMoves.ChoiceNearExactly | scripts/ralph_wiggum_iterate.py:161-165 | a near choice lands within the radius of the current value's index, or of index 0, and every value there is reached by some draw |
| TuningMeaning.RandomReachesExactly | scripts/ralph_wiggum_iterate.py:204-226 | the parameters some draw makes at random are exactly those of the search space |
| TuningMeaning.NearReachesExactly | scripts/ralph_wiggum_iterate.py:231-303 | the parameters some draw makes near the best ones are exactly those within the radii |
| TuningMoves.PickLegal | scripts/ralph_wiggum_iterate.py:168-303 | for all random numbers: the mode is the one the iteration, the coin and the last recall prescribe, every parameter after the first step is one of its choices, and exploit and relax stay within radius 1 and 2 of the best as coded per parameter |
| TuningRun.RunTuning | scripts/ralph_wiggum_iterate.py:594-644 | the loop's results, best result and best parameters are those of the run function |
| TuningRun.RunKeepsBest | scripts/ralph_wiggum_iterate.py:642-644 | at every point of every run the kept best is the earliest iteration of maximal objective and the kept parameters are its parameters |
| TuningRun.BestNeverDecreases | scripts/ralph_wiggum_iterate.py:642-644 | the best objective never decreases |
| TuningRun.RunLegal | scripts/ralph_wiggum_iterate.py:599-644 | every iteration of every run makes a legal step from the best kept so far and stays in the search space |
| TuningMeaning.RunIterates | scripts/ralph_wiggum_iterate.py:168-644 | every iteration measures the parameters it uses, weighs missing recall five times, and moves as its number, the coin and the last recall say, from the parameters of the earliest best iteration so far, within the choice lists |
| TuningRun.ObjectiveMeaning | scripts/ralph_wiggum_iterate.py:154-158 | the objective is at most the precision, with equality if and only if the recall floor is met |
| TuningRun.ObjectiveSlope | scripts/ralph_wiggum_iterate.py:154-158 | below the floor a point of recall is worth five points of precision |
| TuningRun.BuildPolicySummary | scripts/ralph_wiggum_iterate.py:368-393 | one row per policy over exactly its iterations |
| TuningRun.PolicyRowsPartition | scripts/ralph_wiggum_iterate.py:368-393 | the rows partition the runs: counts add up, and runs times mean objective add up to the total |
| TuningRun.PolicyBestIsKeptBest | scripts/ralph_wiggum_iterate.py:368-393 | the greatest per-policy best is the objective of the kept best, in the row of its policy |
| TuningMeaning.PolicyRowMeaning | scripts/ralph_wiggum_iterate.py:368-393 | a row counts the iterations that used its policy, averages their objective, recall, precision and noise, each under its name, and gives the highest objective |
| TuningMeaning.PoliciesListed | scripts/ralph_wiggum_iterate.py:368-375 | one row for every policy that was used, sorted |
| AcademicReport.AggregateRows | scripts/build_academic_optimization_report.py:136-156 | the grouping loop computes the by-surface and by-bucket tables |
| AcademicReport.AggregateMatrix | scripts/build_academic_optimization_report.py:159-189 | the same for the surface-by-bucket matrix |
| ReportMeaning.GroupRowMeaning | scripts/build_academic_optimization_report.py:110-156 | a row of a table summarises exactly the rows whose case the catalog files under its name: their number, sorted case ids, and the mean of every metric with missing ones as zero |
| ReportMeaning.CellRowMeaning | scripts/build_academic_optimization_report.py:110-189 | the same for the cells of the matrix |
| AcademicReport.CellsRefineGroups | scripts/build_academic_optimization_report.py:110-189 | every row of either table is the sum of its cells, in case count, in how often it lists any case id, and in case count times mean of every metric |
| AcademicReport.CellsRefineOverall | scripts/build_academic_optimization_report.py:275-307 | over all cells all three add up to the overall group |
| AcademicReport.GroupRowsOrdered | scripts/build_academic_optimization_report.py:151-156 | one row per group, larger first and ties by name |
| ReportMeaning.GroupsInOrder | scripts/build_academic_optimization_report.py:151-156 | larger groups stand first and those of one size by name, none twice |
| ReportMeaning.CellsInOrder | scripts/build_academic_optimization_report.py:183-188 | cells stand by surface, and those of one surface by bucket |
| AcademicReport.NameDominants | scripts/build_academic_optimization_report.py:218-234 | the dominant provider and mode are the heads of the tallies |
| AcademicReport.DominantMeaning | scripts/build_academic_optimization_report.py:218-234 | the dominant name occurs most often and is the least of those that occur as often |
| ReportMeaning.DominantsExactly | scripts/build_academic_optimization_report.py:216-233 | no provider or mode occurs more often than the dominant one, which is the least of those that occur as often; blank ones count under names of their own |
| MetricsDrift.CollectMetrics | scripts/metrics_collector.py:95-140 | the collecting pass computes clamped means, the repo count and the memory coverage |
| MetricsDrift.CollectMeaning | scripts/metrics_collector.py:95-140 | each collected value is the mean of its own number over the readable repos, negative ones read as zero |
| MetricsDrift.GivenGrows | scripts/metrics_collector.py:108-110 | entries that are no objects are passed over |
| MetricsDrift.CoverageIs | scripts/metrics_collector.py:119-139 | the coverage is the share of all listed repos that show a memory signal |
| MetricsDrift.CollectedNonNegative | scripts/metrics_collector.py:95-140 | collected values are never negative |
| MetricsDrift.MemoryActiveExactly | scripts/metrics_collector.py:200-215 | memory metrics are compared if and only if enforced or some repo on either side showed a signal |
| MetricsDrift.CheckRegressions | scripts/metrics_collector.py:218-266 | the loop reports exactly the tracked metrics beyond their floor or ceiling |
| MetricsDrift.RegressionsExactly | scripts/metrics_collector.py:218-266 | a regression is reported if and only if the metric is tracked and compared and fell below its previous value times 1 - r, or rose above it times 1 + r, by its trend |
| MetricsDrift.DefaultTracked | scripts/metrics_collector.py:20-35 | which metrics are tracked by default, and which way they should go |
| MetricsDrift.UpDrift | scripts/metrics_collector.py:218-266 | n passed checks keep an upward metric at or above v0 (1 - r)^n |
| MetricsDrift.DownDrift | scripts/metrics_collector.py:218-266 | n passed checks keep a downward metric at or below v0 (1 + r)^n |
| MetricsDrift.UpDriftAttained | scripts/metrics_collector.py:218-266 | the upward bound is attained |
| MetricsDrift.UpDriftExactly | scripts/metrics_collector.py:228-248 | for every metric, the upward bound holds on all chains if and only if the tolerance is at most one |
| MetricsDrift.DroppedPasses | scripts/metrics_collector.py:228-248 | above one, a drop to zero passes every check |
| MetricsDrift.VoidAboveOne | scripts/metrics_collector.py:228-248 | from one on, the upward check never reports anything on non-negative values |

## Left out

- Floats are reals: rounding, NaN and infinities are not modelled, except for the upward error of `score * 0.1`.
- `Text.Lower` folds ASCII letters only; other letters keep their case.
- Subprocesses, file-system calls, path resolution, clocks, `argparse` and the JSON and YAML libraries are arbitrary functions or already-read values.
- Markdown renderers and progress output are string formatting only.
- The AST is a tree of node kinds with the child counts the visitor reads; that these counts match the children is not required, so the theorems cover more trees than Python's.
- Notes are read from text whose line ends are already translated to newlines; the `plan` and profile actions are taken to leave the notes file alone.
- `_resolve_workload_bucket`, retrieval-policy and plugin-policy summaries: field copying and small branches.
- `_parse_repomap_signal_weight_sets` filters already-read JSON; its result is an arbitrary list here.
- Iteration reports, config packs and gate details that do not affect a decision (ranges of metrics, latest summaries, friction events) are not modelled.
- `build_academic_optimization_comparison` subtracts two summaries name by name: plain subtraction.
- TuningRun.RunTuning: the benchmark is an arbitrary function of iteration and parameters; which cases were missed is not modelled.
- CheckoutSafety.EnsureSafe: the delay between retries and what the commands do to the file system are not modelled.
- MatrixSummary.BuildLatencySloBucketSummary: the file count statistics and retrieval policies of a row are not modelled; they are copied or listed from the repos.
- ArmSweeper.BuildOracleRelabel: query, expected keys, task-success mode and comparison lane of a verdict are copied from the case and not modelled.
- Hotspots.BuildHotspotSummary: existence and line counts of a row come from the file system and are not modelled.
- NotesFile.NotesStore.RunStep: a `plan` step that captures notes writes to the file outside these scripts, so it is not one of the modelled actions.
- NotesFile.NotesStore.RunSteps: runs with such steps are outside the count equation.
- ValidationRich.RunAll: the ranges of metrics and the latest summaries of the payload do not affect a decision and are not modelled.

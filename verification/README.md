# A verified model of gbrain's small algorithmic cores

Dafny models of eleven pieces of the repository's own tooling, and proofs of
what their comments, headers and callers rely on. `dafny verify dfyconfig.toml`
checks everything.

| files | what they model |
|---|---|
| `Sorting`, `Text`, `MapFold` | stable sorting and why sorted output is unique; splitting, joining, trimming, decimal numbers, string order; commutative folds into maps |
| `Lpt`, `Sharding`, `ShardingLaws`, `ShardWeights` | packing test files onto shards by weight, the 4/3 bound, and mining the weights from a log |
| `Lcov`, `LcovVerdict`, `LcovMerge`, `LcovTotals`, `LcovEmit`, `LcovLayout`, `LcovRoundTrip`, `LcovArtifact`, `LcovLaws` | parsing, merging and regenerating line coverage |
| `DiffParse`, `DiffVerdict`, `CoverageGate`, `CoverageVerdict` | reading a zero-context diff and gating its changed lines on merged coverage |
| `OpArgs`, `OpArgsLaws`, `OpArgsRender`, `OpArgsVerdict` | the argument parser of an operation and the validator that shadows it |
| `Glob`, `SelectTests`, `SelectVerdict` | compiling a glob to a regular expression, and selecting end-to-end tests with it |
| `SnapshotLock`, `SnapshotAlone` | builders of the database snapshot over one lock, one tar and one version file |
| `AgentLogs`, `AgentLogsVerdict` | following two append-only sources with a cursor |
| `Scorer`, `ScorerVerdict` | scoring predicted takes and what graduating guarantees |
| `Stager` | slug allocation and the accounts of the Dropbox stager |
| `Mentioned`, `MentionedLaws`, `MentionedVerdict` | collapsing duplicate sections of a page |

Code that works step by step is a method with the source's loops, proved equal
to a specification function; the laws are lemmas about those functions. The
modules named `Verdict`, `Layout` and `Totals` say what each of those functions
answers without referring to how: an if-and-only-if on the lines, paths, rows
or pairs of the input, with the source's constants written out.
`SnapshotLock` is a state machine whose steps interleave freely; `After` runs
it, and the laws speak about every run.

## Where the code and its comments differ

The model follows the code.

- The sharder's header and option comment say that a file without a weight
  gets the median; the code takes the 75th percentile (`scripts/sharding.ts:165`).
- The test selector's header says that an unmapped source change selects
  everything; it does so only if no other changed path is mapped
  (`SelectTests.UnmappedRunsAllIff`). The map's comment says `**` may stand for
  no segments; between slashes it may not (`Glob.NoSegmentsNotMatched`).
- The snapshot builder's comment says a crash between its two writes never
  leaves a fresh-looking torn snapshot. That holds exactly when the tar was
  opened over a stale version file (`SnapshotLock.FreshButNotWholeIff`). The
  comment on takeovers says the age check keeps waiters from stealing a live
  lock; two waiters can, and `SnapshotLock.TakeoverSharesIff` says when.
- The page collapser's comment says that the sections it counts are those the
  server strips; the server ignores case (`MentionedLaws.StripsWhatItSawIff`).
- The same script's header and the comment on its choice prefer the block with
  the sentinel; the code prefers the block with the most bullets and lets the
  sentinel break ties only (`MentionedLaws.RichestChosen`).
- The log follower's comment says it dumps events at or after the cursor; the
  code skips those at the cursor, so an event of the same millisecond that
  arrives late is lost (`AgentLogs.LateEventLost`).
- The flag validator's comment says it mirrors the parser; the spellings on
  which the two differ are listed in `OpArgsLaws.ReadDifferently`, and
  `OpArgsLaws.Lockstep` shows there are no others.

## Model

| member | source | states |
|---|---|---|
| Sharding.QuantileRank | scripts/sharding.ts:103-108 | nearest rank: the answer is one of the values, at least a share q of them is at or below it, and less than a share q strictly below |
| Sharding.QuantileOrderIndependent | scripts/sharding.ts:103-108 | the quantile depends on the multiset of values only |
| Sharding.FallbackIff | scripts/sharding.ts:156-175 | a file without a weight weighs the given fallback, else a known weight that fewer than three in four stay below and at least three in four do not exceed, or 1 where that is 0 or nothing is known |
| Sharding.Partition | scripts/sharding.ts:135-199 | the whole of `partition`, with its two range errors, its p75 fallback and its cold-start guard, computes `Partitioned` |
| Sharding.LowestTotal | scripts/sharding.ts:191-194 | the inner scan finds the first of the least totals |
| Sharding.Pack | scripts/sharding.ts:189-198 | the nested packing loops over mutable totals and shards place every job where `Greedy` says |
| Sharding.PackedStep | scripts/sharding.ts:190-197 | one more job changes one total and one shard, by that job |
| ShardingLaws.TruePartition | scripts/sharding.ts:127-131 | n shards which together hold each file exactly as often as the input does |
| ShardingLaws.FileOrderIrrelevant | scripts/sharding.ts:125-127 | every permutation of the file list gives the identical shards |
| ShardingLaws.HeaviestFirst | scripts/sharding.ts:122-127 | each shard lists its files heaviest first, ties by path |
| ShardingLaws.EarlierIsHeavier | scripts/sharding.ts:177-187 | of two files in a shard the earlier has the larger weight in the map (the fallback where the map has none), or the same and the smaller path |
| ShardingLaws.WithinFourThirds | scripts/sharding.ts:9-11 | the largest shard total is at most 4/3 - 1/(3n) of the largest total of any way to spread the same files over n shards |
| ShardingLaws.TotalsClose | scripts/sharding.ts:189-198 | two shard totals differ by no more than the heaviest file |
| ShardingLaws.ImbalanceBound | scripts/sharding.ts:201-217 | the imbalance ratio is infinite only beside a weightless shard, and otherwise above 1 by at most heaviest file over lightest shard |
| ShardingLaws.ImbalanceMeans | scripts/sharding.ts:207-217 | the ratio times the lightest total is the heaviest; 1 when no shard has weight or there is none, infinite exactly when only some have |
| ShardingLaws.EqualWeightsDealt | scripts/sharding.ts:177-198 | with one positive effective weight for all, the files are dealt out in path order, the k-th to shard k mod n |
| ShardingLaws.ColdStart | scripts/sharding.ts:167-175 | an empty weight map deals the files in turn instead of piling them on shard 0 |
| Lpt.GreedyBound | scripts/sharding.ts:189-198 | on descending weights no greedy load exceeds 4/3 - 1/(3n) times the height of any assignment |
| Lpt.RoomRemains | scripts/sharding.ts:189-198 | when every job is over a third of a height that some assignment keeps, the next greedy placement keeps it too |
| Lpt.PackedHoldsTwo | scripts/sharding.ts:189-198 | the counting step of the large-job case: where a job alone on its machine leaves no room for the next one, no machine of a packing of all of them carries more than two tokens |
| Lpt.BoundKept | scripts/sharding.ts:191-196 | the bound is an invariant of one placement |
| Lpt.GreedyGap | scripts/sharding.ts:189-198 | greedy loads differ by at most the heaviest job |
| Lpt.GreedyBoundTight | scripts/sharding.ts:9-11 | the bound is attained on weights 3, 3, 2, 2, 2 over two shards, so it cannot be improved |
| Lpt.EqualWeightsRoundRobin | scripts/sharding.ts:191-196 | equal positive weights go round the shards in turn |
| ShardWeights.ByJob | scripts/mine-shard-weights.ts:158-168 | the buckets hold exactly each job's events in stream order |
| ShardWeights.ComputeWeights | scripts/mine-shard-weights.ts:158-186 | exactly the files observed have a weight, and it is their longest observation |
| ShardWeights.InterleavingIrrelevant | scripts/mine-shard-weights.ts:158-186 | any interleaving that keeps each job's own order gives the same weights |
| ShardWeights.Telescopes | scripts/mine-shard-weights.ts:171-186 | over one time-ordered job the weights, one for every file but the last, add up to last minus first timestamp |
| ShardWeights.MinedWeightsPackWell | scripts/mine-shard-weights.ts:158-186 | weights mined from any log keep the sharder within its bound |
| Lcov.ParseLcovText | scripts/merge-lcov.ts:96-169 | the record loop, with its open record, its warnings and its immediate faults, is the line-by-line parser `Parse` |
| Lcov.RunConcat | scripts/merge-lcov.ts:107-166 | parsing lines in two parts, carrying the state over, is parsing them at once |
| Lcov.FailedStays | scripts/merge-lcov.ts:102-105 | after a fault no later line changes the result |
| Lcov.OpenStaysOpen | scripts/merge-lcov.ts:113-127 | an open record is only ever closed by the end marker |
| Lcov.ParsedIsSafe | scripts/merge-lcov.ts:125-160 | for every text, parsed paths are trimmed and not empty and no path or name spans lines |
| Lcov.WarnsOncePerType | scripts/merge-lcov.ts:161-165 | a well-formed text is warned about at most once per unknown type |
| LcovVerdict.MalformedIff | scripts/merge-lcov.ts:96-169 | for every text: malformed if and only if some line is wrong where it stands (end marker or SF, DA, FN, FNDA out of place, no colon, blank path, a field that is no number) or a record is open at the end; the first wrong line is the one reported, and nothing is kept |
| LcovVerdict.RecordsAreTheBlocks | scripts/merge-lcov.ts:107-166 | a well-formed text yields one record for every block from SF to end marker, in order, holding in order exactly what the DA, FN and FNDA lines of the block say |
| LcovVerdict.WarnedIff | scripts/merge-lcov.ts:161-165 | a well-formed text is warned about a type if and only if it uses it and it is none of the nine known ones |
| LcovVerdict.ReadDaIff | scripts/merge-lcov.ts:133-139 | a DA line has its two numbers exactly when it has a comma and numbers up to it and from it to the next |
| LcovVerdict.NumberIff | scripts/merge-lcov.ts:134-157 | what counts as a number, and which: decimal digits with a sign or none between white space, and white space alone, which is 0 |
| SfPath.NormalizeSf | scripts/merge-lcov.ts:181-196 | the path normaliser computes `NormalizedSf` |
| SfPath.StripDots | scripts/merge-lcov.ts:194 | the trailing loop drops every leading `./` |
| SfPath.NormalizedTwice | scripts/merge-lcov.ts:175-196 | normalising again changes nothing if and only if the raw path is the root, or what follows its root prefix is empty or does not start with another |
| SfPath.RelativeIsStable | scripts/merge-lcov.ts:175-196 | a relative result is final |
| SfPath.DoubledRootNeedsTwoPasses | scripts/merge-lcov.ts:181-196 | a doubled root shows the normaliser is not idempotent |
| SfPath.OwnCheckout | scripts/merge-lcov.ts:181-185 | a path inside the checkout named is what follows the root |
| SfPath.OtherCheckout | scripts/merge-lcov.ts:175-192 | so is a path inside any other checkout of a directory of that name, unless such a directory comes again below |
| SfPath.RelativeKept | scripts/merge-lcov.ts:186-196 | a relative path is left alone |
| SfPath.SpellingIrrelevant | scripts/merge-lcov.ts:181-182 | slashes and backslashes are the same |
| SfPath.TrailingSlashes | scripts/merge-lcov.ts:182 | slashes at the end of the root make no difference |
| SfPath.DotSlashIrrelevant | scripts/merge-lcov.ts:194 | neither does `./` in front of a relative path |
| LcovMerge.Merger.MergeRecord | scripts/merge-lcov.ts:213-225 | merging a record in place adds hits per line and per name, keeps the lowest line of a name, and touches no other file |
| LcovMerge.Lines | scripts/merge-lcov.ts:220-223 | the function loop keeps the lowest line seen per name |
| LcovMerge.Hits | scripts/merge-lcov.ts:224 | the hit loop adds up the hits per name |
| LcovMerge.MergeLane | scripts/merge-lcov.ts:464-468 | one lane's records are normalised, dropped when their path is empty, and merged |
| LcovMerge.MergeTexts | scripts/merge-lcov.ts:447-470 | the lane loop: malformed lanes are skipped whole, the result is degraded exactly when one was |
| LcovMerge.MergeConcat | scripts/merge-lcov.ts:213-225 | merging two runs of records is the sum of their maps |
| LcovMerge.RecordOrderIrrelevant | scripts/merge-lcov.ts:213-225 | every permutation of the records merges to the same map |
| LcovMerge.LanesGroup | scripts/merge-lcov.ts:464-468 | any grouping of the lanes gives the sum of the groups |
| LcovMerge.LaneOrderIrrelevant | scripts/merge-lcov.ts:447-470 | every permutation of the lanes merges to the same map |
| LcovTotals.MergedMeans | scripts/merge-lcov.ts:213-225 | merging any list of records: a file, line or function is there if and only if some record lists it; hits and calls are the sums over those records, a function's line the lowest they give |
| LcovTotals.MergedKeys | scripts/merge-lcov.ts:447-470 | the merged coverage of lanes has exactly the files, lines and functions that records of well-formed lanes list under that normalised path |
| LcovTotals.MergedNumbers | scripts/merge-lcov.ts:447-470 | every hit count is the sum over all lanes and records of that file, every function's line the lowest any of them gives |
| LcovEmit.EmitLcov | scripts/merge-lcov.ts:228-248 | the printer, its sorts and loops included, writes `Emit`, whose lines `LcovLayout.EmitPrintsFiles` describes |
| LcovEmit.EmitFile | scripts/merge-lcov.ts:232-245 | one file becomes its block of lines |
| LcovLayout.BlockCounts | scripts/merge-lcov.ts:232-245 | in every block the lines stand in order TN, SF, FN, FNDA, FNF, FNH, DA, LF, LH, end; FNF and LF are the numbers of its FN and DA lines, FNH and LH the numbers of its FNDA and DA lines with hits above 0 |
| LcovLayout.BlockInOrder | scripts/merge-lcov.ts:235-242 | FN lines strictly by line and then by name, FNDA lines by name, DA lines by number |
| LcovLayout.EmitPrintsFiles | scripts/merge-lcov.ts:228-248 | for every map the text is one such block for each file of the map, the paths strictly ascending |
| LcovRoundTrip.EmitParses | scripts/merge-lcov.ts:96-169 | regenerated text is never malformed and never warned about, and reads back as one record per file |
| LcovRoundTrip.RecordsReread | scripts/merge-lcov.ts:213-248 | merging what was read back gives the map, up to carriage returns ending a name |
| LcovRoundTrip.MergedIsSafe | scripts/merge-lcov.ts:96-169 | everything parsed merges to a map the printer can write safely |
| LcovRoundTrip.RoundTripIff | scripts/merge-lcov.ts:96-248 | print, parse and merge gives back exactly the map if and only if its paths are trimmed and not empty and its names free of newlines and of a final carriage return |
| LcovLaws.TruncationSafe | scripts/merge-lcov.ts:102-105 | every character prefix of a regenerated text is malformed and empty, or yields an unaltered prefix of the records |
| LcovArtifact.ArtifactIsItsMap | scripts/merge-lcov.ts:228-248 | a regenerated artifact is a lane worth exactly its map if and only if the map survives printing and every path is its own normal form |
| LcovLaws.ArtifactStandsIn | scripts/merge-lcov.ts:213-248 | an intermediate artifact can replace the lanes it was made from, whatever other lanes there are, under exactly that condition |
| LcovLaws.SelfMergeDoubles | scripts/merge-lcov.ts:330-339 | merging an artifact with its own inputs doubles every hit |
| LcovLaws.OutputOrderIrrelevant | scripts/merge-lcov.ts:228-248 | lanes in any order give byte-identical output |
| MapFold.ConcatIsUnion | scripts/merge-lcov.ts:219-224 | folding entries into a map is a homomorphism from concatenation to the union of maps |
| MapFold.BumpOrderIrrelevant | scripts/merge-lcov.ts:219-224 | a commutative fold into a map forgets the order of the entries |
| DiffParse.ParseUnifiedDiff | scripts/coverage-diff-gate.ts:67-87 | the line loop with its current file computes `Parse` |
| DiffParse.ReadsHunkHeader | scripts/coverage-diff-gate.ts:76-80 | a rendered hunk header is read as the start and number of its added lines, an omitted count as 1 |
| DiffParse.ParsesEdits | scripts/coverage-diff-gate.ts:62-87 | for every list of edit scripts rendered as a zero-context diff, the parser gives per file exactly the new-file positions of the inserted lines and leaves deletion-only files out |
| DiffParse.ParsesFileIff | scripts/coverage-diff-gate.ts:71-84 | the diff of one file is read right if and only if, before every hunk that adds lines, the last line starting with `+++ ` names the file |
| DiffParse.NoLookalikeIsSteady | scripts/coverage-diff-gate.ts:71-75 | without an added line starting with `++ ` that condition holds |
| DiffParse.LookalikeMisleads | scripts/coverage-diff-gate.ts:71-75 | an added line starting with `++ ` credits the next hunk to another file |
| DiffParse.InsertedExactly | scripts/coverage-diff-gate.ts:62-66 | the expected positions are those of the inserted lines, strictly increasing |
| DiffVerdict.HunkHeaderIff | scripts/coverage-diff-gate.ts:76-80 | a line is a hunk header with start and count if and only if it spells `@@ -range +d,n @@` with digits, a count left out being 1 |
| DiffVerdict.ParsesAnyText | scripts/coverage-diff-gate.ts:67-87 | for every text, diff or not: a file has exactly the spans, in order, of the hunk headers before which the last `+++ ` line names it |
| CoverageGate.ParseExemptions | scripts/coverage-diff-gate.ts:98-108 | the exemption loop splits lines into exact paths and prefixes |
| CoverageGate.ExemptIff | scripts/coverage-diff-gate.ts:98-113 | a path is exempt exactly when some line names it or a directory prefix of it |
| CoverageGate.CountLines | scripts/coverage-diff-gate.ts:327-334 | added lines are counted as covered, as uncovered, or not at all when not executable |
| CoverageGate.TallyLoop | scripts/coverage-diff-gate.ts:301-345 | the per-file loop with its three counters, its exemptions and its infrastructure fault |
| CoverageGate.RunGate | scripts/coverage-diff-gate.ts:286-400 | the gate from the diff text to the exit code |
| CoverageVerdict.ExitIff | scripts/coverage-diff-gate.ts:286-400 | for every diff, summary and mode: exit 2 if and only if the change is a source change and some gated file has coverage but the summary no hits per line; exit 1 if and only if it is a source change, not 2, enforcing, not exempted, not degraded, with a gated line, and a gated file was never loaded or the covered are fewer than 0.8 - 1e-9 of covered and uncovered; else 0 |
| CoverageVerdict.CountedByLine | scripts/coverage-diff-gate.ts:327-344 | covered and uncovered are as many as the changed (file, line) pairs with hits, and with none, where no file lists a line twice |
| CoverageGate.MergingKeepsVerdict | scripts/merge-lcov.ts:473-494 | a verdict that lets a branch through survives merging another lane, provided the lane runs every changed line it newly makes executable |
| OpArgs.ParseOpArgs | src/cli.ts:1129-1218 | the argument loop with its two indices and its early continues fills exactly the parameters of `Parse` |
| OpArgs.FindUnknownOpFlag | src/cli.ts:1445-1493 | the shadow loop finds the first unknown flag of `UnknownFrom` |
| OpArgsLaws.RegularAgrees | src/cli.ts:1127-1218 | on one regular flag the two readers agree about the next token unless it is one of the listed spellings |
| OpArgsLaws.Lockstep | src/cli.ts:1445-1493 | on an accepted list both loops look at the same tokens and treat the same tokens as values if and only if no head is a listed divergent spelling |
| OpArgsLaws.WritesExpected | src/cli.ts:1129-1218 | then the parser writes only declared and positional keys, `json`, `dry_run` and `source` if and only if no flag it reads spells an undeclared inherited object name, and otherwise nothing beyond such names |
| OpArgsLaws.InheritedKeyAccepted | src/cli.ts:1475-1490 | whatever is declared, `--constructor v` is accepted and written |
| OpArgsLaws.DoubleDashDiverges | src/cli.ts:1445-1448 | after a bare `--` the validator stops looking and the parser goes on |
| OpArgsVerdict.MatchFlagIff | src/cli.ts:1449-1450 | the flag pattern matches exactly `--name` and `--name=value`, with the name and the value |
| OpArgsVerdict.RefusedIff | src/cli.ts:1445-1493 | a list is refused if and only if some token the validator looks at spells a flag with a capital or of no known name, and such a flag is the one named |
| OpArgsRender.TakesItem | src/cli.ts:1133-1215 | the parser reads back one written item, wherever it stands in the line |
| OpArgsRender.RoundTrip | src/cli.ts:1129-1218 | any line of positionals, `--key=value`, `--key value`, bare `--key` (true) and `--no-key` (false), declared or not, in any order, parses to exactly the keys written, each with the value last written |
| OpArgsRender.AssignmentRoundTrip | src/cli.ts:1129-1218 | writing an assignment in any such spelling and parsing the line gives it back |
| OpArgsRender.DanglingDropped | src/cli.ts:1189-1210 | a flag that wants a value and has none left changes nothing |
| OpArgsRender.SurplusIgnored | src/cli.ts:1211-1215 | positionals beyond the declared ones change nothing |
| OpArgsRender.RenderedAccepted | src/cli.ts:1445-1493 | the validator accepts every line so written of flags it knows, in lockstep with the parser |
| Glob.BuildRegex | scripts/select-e2e.ts:105-123 | the compile loop builds exactly `Compile` |
| Glob.CompiledPieces | scripts/select-e2e.ts:105-123 | a regular-expression reader takes the compiled text apart into one piece per glob token: every metacharacter is escaped, no star is stray |
| Glob.CompileKeepsMeaning | scripts/select-e2e.ts:97-125 | for every supported glob and every path the compiled expression matches exactly what the glob means |
| Glob.OneStar | scripts/select-e2e.ts:97-98 | a one-star entry selects the paths between its literal ends, `*` within one directory and `**` across them |
| Glob.NoSegmentsNotMatched | scripts/e2e-test-map.ts:11-15 | `**` between slashes never stands for zero segments, contrary to the map's comment |
| SelectTests.MatchGlob | scripts/select-e2e.ts:99-125 | globs with `?`, `[` or `{` are refused, all others answer by their meaning |
| SelectTests.Classify | scripts/select-e2e.ts:146-152 | empty, documents only, or source |
| SelectTests.MatchEntries | scripts/select-e2e.ts:178-182 | the map loop adds the tests of every matching entry, or throws on a refused glob |
| SelectTests.SelectTests | scripts/select-e2e.ts:154-190 | the selector, branch by branch, computes `Selected` |
| SelectTests.SelectsNothingIff | scripts/select-e2e.ts:8-12 | nothing is selected exactly for a documents-only change, or with nothing on disk to fall back to |
| SelectTests.UnmappedRunsAllIff | scripts/select-e2e.ts:8-25 | with an unmapped path every test is selected if and only if an escape hatch changed, no other path is mapped, or the mapped tests are all tests |
| SelectTests.UnmappedIsNarrowed | scripts/select-e2e.ts:8-10 | beside a mapped path an unmapped one selects the one mapped test, which is not all tests unless it is the only one |
| SelectTests.UnmappedSkipsTests | scripts/select-e2e.ts:8-10 | with two tests on disk the promise that an unmapped change runs all of them fails |
| SelectTests.SelectionOrderIrrelevant | scripts/select-e2e.ts:154-190 | neither the order of changed paths nor of tests on disk matters |
| SelectTests.MoreChangesKeepTests | scripts/select-e2e.ts:169-190 | another changed path drops no selected test, unless the selection had fallen back to all |
| SelectVerdict.SelectedIff | scripts/select-e2e.ts:146-190 | for every change set: everything, nothing, an error, or exactly the tests some changed path asks for, each once and in order, and when which |
| SnapshotLock.StepKeepsFiles | scripts/build-pglite-snapshot.ts:91-158 | every step of every builder, be it a crash, an exception, a takeover or unlocked work, keeps the file invariant unless it opens the tar beside an unfinished write |
| SnapshotLock.FreshButNotWholeIff | scripts/build-pglite-snapshot.ts:137-151 | in every run without such an opening, a tar that is not whole looks fresh if and only if its write began over a version file already naming that hash and never replaced it |
| SnapshotLock.StaleRebuildsNeverMislead | scripts/build-pglite-snapshot.ts:137-140 | if moreover no tar is opened while the version file names a hash, looking fresh for it means whole, wherever builders crash |
| SnapshotLock.OpeningMisleadsIff | scripts/build-pglite-snapshot.ts:124-150 | opening the tar can end in a fresh-looking tar that is not whole, without another opening, if and only if another builder is still between its tar and its version file: the exact condition for the unlocked last resort |
| SnapshotLock.StepKeepsOneLive | scripts/build-pglite-snapshot.ts:91-125 | every step that takes no lock from a live owner, crashes, exceptions and takeovers included, keeps one live owner at most, who has the lock |
| SnapshotLock.TakeoverSharesIff | scripts/build-pglite-snapshot.ts:107-124 | removing a lock can lead to two live owners if and only if a live builder owned it, and then the next step of the remover does |
| SnapshotLock.RecoveryIsSafe | scripts/build-pglite-snapshot.ts:105-158 | with any number of crashes and takeovers of abandoned locks: one live owner at most, and the exact condition for a torn tar to look fresh |
| SnapshotLock.RecoversAbandonedLock | scripts/build-pglite-snapshot.ts:105-124 | a builder that finds an abandoned lock waits it out, takes it over and leaves a whole snapshot and no lock |
| SnapshotLock.OneOwnerHolds | scripts/build-pglite-snapshot.ts:91-95 | without takeovers one builder at most owns the lock, crashed ones counted, and the lock is there exactly while one does |
| SnapshotLock.UnlockedMeansWhole | scripts/build-pglite-snapshot.ts:91-158 | without crash, exception or takeover: one owner at most, and while nobody owns the lock a version file means a tar wholly written for it |
| SnapshotLock.AloneIsSafe | scripts/build-pglite-snapshot.ts:137-151 | one builder that may crash or throw anywhere, from a stale version file: a version file for its hash means a whole tar |
| SnapshotAlone.BuilderAloneEnds | scripts/build-pglite-snapshot.ts:72-158 | from any state a builder left to itself ends within 13 steps: a fresh snapshot stays untouched, else a whole tar and its version are left, and the lock only where it was held and did not look old |
| SnapshotLock.CrashAfterTheFastPath | scripts/build-pglite-snapshot.ts:91-95 | not looking again after taking the lock lets a second builder leave a torn tar that looks fresh |
| SnapshotLock.TakenOverTwice | scripts/build-pglite-snapshot.ts:116-124 | two waiters that both found the abandoned lock old enough end as two live owners |
| SnapshotLock.UnlockedLastResort | scripts/build-pglite-snapshot.ts:102-125 | a builder that gives up waiting and one still writing both finish, nobody crashes, and the torn tar they leave looks fresh |
| AgentLogs.DumpSince | src/commands/agent-logs.ts:65-108 | one poll writes the new events of both sources as one sorted timeline and answers the greatest timestamp |
| AgentLogs.RunAgentLogs | src/commands/agent-logs.ts:33-58 | the seeded render and the follow loop write exactly the run `After` |
| AgentLogs.TimelineMeans | src/commands/agent-logs.ts:75-89 | a poll shows, in order and once each, the events held above its cursor |
| AgentLogs.FollowsFaithfully | src/commands/agent-logs.ts:42-58 | over any run on growing sources the output is in time order, repeats nothing, and holds an event if and only if the first poll to see it had its cursor below it |
| AgentLogs.LateEventLost | src/commands/agent-logs.ts:78-85 | an event that first appears at or below the cursor is never shown |
| AgentLogs.SameInstantLost | src/commands/agent-logs.ts:78-85 | the second of two events of one instant, arriving a poll later, is never shown |
| AgentLogs.TranscriptOnce | src/commands/agent-logs.ts:95-105 | the transcript is written at most once, exactly when the first poll to see anything finds a finished job and no starting point was given |
| AgentLogsVerdict.RunEndsIff | src/commands/agent-logs.ts:47-58 | the run ends exactly at the first round that is aborted or finds one of the four closing statuses, and no closing line is written before |
| AgentLogsVerdict.EndsHow | src/commands/agent-logs.ts:48-57 | an aborted round writes nothing; one that finds the job over writes what is new and one closing line with its status |
| AgentLogsVerdict.CursorIsLatest | src/commands/agent-logs.ts:89-93 | the cursor is the latest instant of what was asked for and what was shown |
| AgentLogsVerdict.InstantOrder | src/commands/agent-logs.ts:75-87 | of one instant a poll shows the audit events and then the messages, each in the order its reader gave them |
| AgentLogs.FinishedBetweenLooks | src/commands/agent-logs.ts:42-56 | a job that finishes between the two looks at its status ends the run without its transcript |
| Scorer.ScoreCorpus | evals/takes-bootstrap/scorer.ts:59-145 | the tally loops, the ratios and the verdict compute `Score` |
| Scorer.TallyExpected | evals/takes-bootstrap/scorer.ts:86-95 | the recall loop counts owed and matched entries per kind |
| Scorer.TallyClaims | evals/takes-bootstrap/scorer.ts:97-109 | the precision loop counts predictions and right ones per kind |
| Scorer.TallyBounds | evals/takes-bootstrap/scorer.ts:86-109 | matched never exceeds expected and precise never exceeds predicted |
| Scorer.NothingSkipped | evals/takes-bootstrap/scorer.ts:5-8 | what is expected does not depend on the predictions: malformed output never shrinks a denominator |
| Scorer.OffRangeIsAMiss | evals/takes-bootstrap/scorer.ts:101-107 | a right claim with an off-range weight is a recall miss and not a hallucination: precision ignores weights, recall does not |
| Scorer.NoLeaksIff | evals/takes-bootstrap/scorer.ts:77-84 | no violation is reported exactly when no claim matches a pattern its case forbids |
| Scorer.GraduationBound | evals/takes-bootstrap/scorer.ts:125-142 | graduating means precision at least 0.8, recall at least 0.7 and f1 at least 56/75 over all kinds together, every case scored and no forbidden claim |
| ScorerVerdict.ClaimsForIff | evals/takes-bootstrap/scorer.ts:60 | the last prediction of an id is the one that counts |
| ScorerVerdict.CountsOfKind | evals/takes-bootstrap/scorer.ts:86-109 | the four counts of a kind are the numbers of (case, entry) and (case, claim) pairs that are owed, matched, made and right |
| ScorerVerdict.GraduatesIff | evals/takes-bootstrap/scorer.ts:125-142 | for all inputs: a corpus graduates if and only if every case has claims, no claim matches what its case forbids, and for every kind ten times the right is at least eight times the made and ten times the matched at least seven times the owed |
| ScorerVerdict.OverallScore | evals/takes-bootstrap/scorer.ts:113-125 | precision and recall are exact shares over all kinds, 1 of nothing; f1 times their sum is twice their product, and 0 where both are |
| ScorerVerdict.Reported | evals/takes-bootstrap/scorer.ts:70-84 | the report lists exactly the cases without claims and the claims that match what their case forbids |
| Stager.Staging.UniqueSlug | scripts/dent/ingest-dropbox.ts:96-104 | the search terminates with the first candidate not yet seen, and records it |
| Stager.Staging.StageRow | scripts/dent/ingest-dropbox.ts:161-216 | one row goes to exactly one of the four counters, the bytes read are added, a staged row gets its slug |
| Stager.Staging.Stage | scripts/dent/ingest-dropbox.ts:158-216 | the loop stops at the limit, or exactly where the next row would exceed the ceiling |
| Stager.NeverRepeats | scripts/dent/ingest-dropbox.ts:96-104 | no slug is returned twice over any sequence of calls |
| Stager.AllocationUnique | scripts/dent/ingest-dropbox.ts:96-104 | the slugs are a function of the rows staged |
| Stager.CountsAddUp | scripts/dent/ingest-dropbox.ts:158-216 | staged, pointers, review and failed add up to the rows processed |
| Stager.CeilingKept | scripts/dent/ingest-dropbox.ts:166-169 | the bytes read never exceed the ceiling |
| Stager.RouteIff | scripts/dent/ingest-dropbox.ts:171-203 | which rows become pointers, failures, reviews and staged pages, by type, at least 50 characters besides white space, markup and 800 000 characters at most |
| Stager.CountersMean | scripts/dent/ingest-dropbox.ts:158-216 | each counter is the number of rows that belong in it |
| Stager.DumpIff | scripts/dent/ingest-dropbox.ts:68-69 | text is a markup dump exactly if `{\rtf` follows its leading white space or it holds more than 300 control words |
| Stager.BytesMean | scripts/dent/ingest-dropbox.ts:178 | the bytes add up over exactly the rows that were opened and could be read |
| Stager.SlugIff | scripts/dent/ingest-dropbox.ts:99-104 | a page keeps its own name while that is free, then takes its type as well, then the first free counter from 2 |
| Mentioned.ExtractMentionedBlocks | scripts/dent/collapse-duplicate-mentioned.ts:55-72 | the scan with its stepped-back index yields exactly `Blocks` |
| Mentioned.SpliceReplace | src/dent/db-writer/append.ts:87-107 | the replacing splice strips every section and writes one at the end |
| MentionedLaws.RichestChosen | scripts/dent/collapse-duplicate-mentioned.ts:77-89 | the chosen block has the most bullets, and the sentinel only breaks ties |
| MentionedVerdict.ChosenIsFirst | scripts/dent/collapse-duplicate-mentioned.ts:82-86 | among equals the first block is kept |
| MentionedLaws.CollapsesToOne | scripts/dent/collapse-duplicate-mentioned.ts:124-132 | the rewritten page holds one section, with the sentinel and the richest block's bullets, and is no longer affected |
| MentionedLaws.CollapseIdempotent | scripts/dent/collapse-duplicate-mentioned.ts:77-94 | collapsing a collapsed page writes the same text |
| MentionedLaws.StripsWhatItSawIff | scripts/dent/collapse-duplicate-mentioned.ts:31-34 | the server strips exactly what the script looked at if and only if no heading differs from it by capitals only |
| MentionedLaws.CaseVariantDropped | scripts/dent/collapse-duplicate-mentioned.ts:31-34 | a bullet under `## mentioned` is lost by the write |
| MentionedVerdict.HeadingIff | scripts/dent/collapse-duplicate-mentioned.ts:33 | the script takes for a heading exactly `##`, white space, `Mentioned`, white space |
| MentionedVerdict.ServerHeadingIff | src/dent/db-writer/append.ts:85 | the server takes the same in any mix of capitals |
| MentionedVerdict.BoundaryIff | scripts/dent/collapse-duplicate-mentioned.ts:62 | a section ends before one or two `#` and white space |
| MentionedVerdict.BulletIff | scripts/dent/collapse-duplicate-mentioned.ts:79 | a bullet is exactly white space, a dash, a gap and `[[` |
| MentionedVerdict.BlocksIff | scripts/dent/collapse-duplicate-mentioned.ts:55-72 | one block for every heading line, in order, up to the next boundary or the end, marked exactly if a line of it holds the mark |
| MentionedVerdict.KeptIff | src/dent/db-writer/append.ts:92-104 | the server keeps exactly the lines in no section, in order |
| MentionedVerdict.PageWritten | scripts/dent/collapse-duplicate-mentioned.ts:77-94 | the page written, line by line: the kept lines without their blank end, then one section with the chosen block's bullets, else its prose, else the placeholder, and the mark |
| Text.StringLeIff | scripts/sharding.ts:183-186 | a string comes before another if it is its prefix or has the smaller character where they first differ |
| Sorting.SortedUnique | scripts/sharding.ts:183-186 | a multiset has one sorted arrangement, so every output sorted by a total order is determined by its contents |

## Left out

- ShardingLaws.WithinFourThirds: weights are exact reals, not floating-point numbers; the rounding of sums and quotients is not modelled.
- Sharding.Partition: the shard count is an integer by type, so the rejection of fractional counts is not modelled; weights and fallback are finite.
- ShardWeights.ComputeWeights: takes the parsed events with whole-millisecond timestamps; reading the log lines and writing the JSON file are not modelled.
- Lcov.ParseLcovText: numbers are decimal integers, trimmed, the empty text being 0; the other spellings JavaScript's `Number` accepts (exponents, hexadecimal, fractions) count as malformed here.
- LcovLaws.SelfMergeDoubles: the two conditions are sufficient only, because an entry whose hits are all zero may be lost without any hit failing to double; the directory check that keeps artifacts out of the inputs is not modelled.
- LcovMerge.MergeTexts: lane manifests, directory walking and the report's per-directory totals and never-loaded list are not modelled.
- DiffParse.ParsesEdits: one direction for several files, because two files whose hunks are each credited to the other can cancel out; `ParsesFileIff` gives both directions for one file. Names git would quote, and names ending in white space, are excluded.
- CoverageGate.MergingKeepsVerdict: the condition on the lane is sufficient, not necessary.
- CoverageVerdict.CountedByLine: assumes no file lists a line twice, as `DiffParse.InsertedExactly` shows for the diff of any edit; `CoverageVerdict.ExitIff` counts places in the lists and assumes nothing.
- CoverageGate.RunGate: the classification of the change, the commit trailer and the mode are inputs; tables and messages are not modelled, and the 1e-9 slack is part of an exact threshold.
- OpArgs.ParseOpArgs: a number parameter keeps its spelling instead of being converted, the overwrite warning is not modelled, and writing `__proto__` is an ordinary write.
- OpArgsLaws.Lockstep: schemas with `=` in a key or a boolean `source` are excluded.
- OpArgsRender.RoundTrip: a flag's key holds no `-` or `=`, and `--no-x` is not used for a key `no_x` beside a boolean `x`; no switch stands right before a positional `true` or `false`. Each is a spelling the parser reads as something else.
- OpArgsRender.RenderedAccepted: flags are of lower-case letters, digits and `_`; the validator takes `explain` and `help` for switches and `source` for a flag with a value, so they are written so.
- Glob.CompileKeepsMeaning: the reader covers the expressions the compiler can emit, literals, escapes, the dot, the one negated class and stars; strings are sequences of characters, without surrogate pairs.
- SelectTests.SelectTests: listing tests on disk and reading changed paths from git are inputs.
- SnapshotLock.TakeoverSharesIff: whether a lock looks old, and when a wait ends, are free choices, so the clock and the lock's modification time are not modelled.
- SnapshotLock.FreshButNotWholeIff: the short version file is taken to be written by one system call, so two overlapping writes of it do not mix; the dimension and model lines are part of the hash.
- AgentLogs.FollowsFaithfully: assumes that the readers return at least every event above the cursor, once each, and that timestamps compare as numbers; formatting lines and parsing `--since` are not modelled.
- AgentLogs.RunAgentLogs: describes the run over any finite number of polls; sleeping is not modelled.
- Scorer.ScoreCorpus: regular expressions are a given test, and ratios are exact; the wording of the failure list is not modelled.
- Stager.Staging.Stage: the slug of a path, the text extracted and the text recovered are inputs; the ceiling is a whole number of bytes; file and log writes are not modelled.
- Mentioned.SpliceReplace: the appending branches of the splice, page versions and the client protocol are not modelled.
- Command dispatch, help text, engine connection and formatting in `src/cli.ts`, and reading parameters from standard input: plumbing.
- The autopilot policies, version comparison, catalog reports, MIME tables and the baseline gate: they would only add easy members.

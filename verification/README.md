# Verified model of the receiver's hard cores

A Dafny project that models ten pieces of the repository's logic and proves what they promise. Each piece that
works by changing things in place is a method (or a class) with the same loops, branches, constants and error
cases, proved equal to a specification function or relation; what the code is for is then proved of that
specification, for every input, every run or every reachable state. `dafny verify dfyconfig.toml` checks all of it.

- **Airband planner** (`AirbandPlanner`, `AirbandPlannerProofs`, `AirbandPlannerFewest`, `AirbandPlannerCases`).
  Channels are sorted by frequency, cut greedily into blocks one radio capture can hold, and each block's centre is
  kept off the capture's DC spike, channels being given back when it cannot be. Proved: conservation, clearance and
  fit after rounding, how good the chosen centre is in spite of the tie tolerance, how far the fixed list of
  candidate centres is enough and exactly when a block overlaps the spike though it need not, and that the greedy
  cut uses the fewest blocks.
- **Failure-count codec** (`HealthCodec`, `HealthCodecProofs`, `HealthVocabulary`, `HealthWords`, `HealthReport`).
  The Worker's strict parser of `token=count` pairs. Proved: its output is a fixed point of it, is never longer than
  its input, holds saturated sums, keeps the first met of one family and the worst of two others, and exactly when
  it depends on the order of the input; and the Worker's real vocabulary meets what the theorems ask of a
  vocabulary.
- **Colour bleed** (`ColourBleed`). The in-place breadth-first fill of an icon: every transparent pixel ends with
  the colour of the visible pixel at the least Manhattan distance, of several the first row by row; so an image has
  exactly one fill, and filling again changes nothing.
- **Fault path** (`FaultPath`, `FaultPathSteps`, `FaultPathProofs`). The crash handlers' ownership word, on Windows
  and Linux, as a state machine over any number of threads, nested faults, naps, timeouts and exits. Proved over all
  runs: exact ownership, unmixed reports, the once-only cannot-run line, which code the process ends with, and that
  it does end.
- **Report names and heads** (`ReportName`, `ReportHead`). The fixed-buffer name builder against the reader of
  names; the header writer against the reader that judges a possibly cut report.
- **Translation keys** (`I18nLexer`, `I18nLexerProofs`, `I18nCharacters`). The Python lexer of C++ sources. Proved:
  whatever tokens are written, with any blanks and comments between them, are read back, and a call adds the key a
  compiler would join.
- **Airband table** (`AirbandTable`, `AirbandTableProofs`). The Python printer against the C++ parser.
- **Band plans** (`BandPlans`). The chain of bases of a selected plan, merged and committed only on success.
- **Damaged files** (`DamagedFiles`). Setting a damaged file aside and pruning old copies, over a folder.

`Sorting`, `Decimals`, `Texts`, `Sequences` and `Wrappers` hold what these share. Sorting is a stable insertion sort
with its promise proved; it stands for the libraries' sorts.

## Where code and comments disagree

The model follows the code.

- `src/core/airband_monitor.hpp:114-117` calls `lo` the lowest lower edge; line 221 takes the lower edge of the
  lowest-*frequency* member. The two differ when a later channel is wide: `LowerEdgeCanFallOutside` gives three
  channels of which one then lies 17.5 kHz outside the capture, `BlocksClearTheSpike` bounds how far outside any can
  lie, `RangeIsAllowedExactly` says exactly whose lower edge the range of centres holds, and `BlocksFitTheCapture`
  proves that none lies outside in a block whose first lower edge is its lowest.
- `src/core/airband_monitor.hpp:182-187` says a block gives a channel back when it cannot clear the spike. The tie
  tolerance of lines 154-156 makes it also give one back for a near miss, an overlap of a microhertz or less, at any
  candidate that is nearer its middle than the clear ones: the middle itself (`NearMissLosesAClearCentre`, two
  channels) or a gap (`NearerMissGivesBack`, four channels whose middle is hopeless). `ClearsWithoutRival` gives the
  condition: the block is clear exactly when the candidate nearest the middle, of those clear or nearly, is clear.
  It needs that this one, if a near miss, has no rival: no candidate worse than nearly clear, but within a tolerance of
  it, that is as near. With a rival the fixed order of trying (middle, ends, then gaps and points beside members from
  low to high) decides: `OrderDecidesAmongRivals` gives a block that gives channels back and whose mirror image does
  not.
- `src/core/airband_monitor.hpp:190-192` has a channel too wide for the capture centred off itself. One not quite so
  wide, between half the capture less the guard and the whole of it, is left overlapping the spike:
  `LoneChannelIsClear`. And an allowed centre clear by less than a hertz can be missed, no candidate being
  within it, so that a channel is given back needlessly: `SubHertzGapIsMissed`. `PointsDecide` says exactly when some
  allowed centre is clear, and `LeavesAClearCentre` exactly when a block overlaps the spike in spite of one.
- `src/core/damaged_file.hpp:11-14` promises that a damaged file is kept aside. With the clock set back the copy just
  made sorts as the oldest, which lines 89-92 of the `.cpp` set out to avoid for copies of one second, and the
  pruning takes it: `ClockSetBackLosesTheBytes` loses the file. A correct clock does not prevent it either: any 15
  characters pass for a stamp, so that names with letters there outrank every real copy
  (`LetteredNamesLoseTheBytes`), and one that sorts low is itself pruned as if it were a copy (`LowNameIsPruned`).
  `BytesSurviveExactly` says exactly when the bytes survive.
- `tools/i18n_keys.py:73-74` ends a literal left open at its line's end, but line 112 then also takes a quote that
  starts the next line: `OpenLiteralEndsWithItsLine`.

## Model

| member | source | states |
|---|---|---|
| AirbandPlanner.PlanAirbandBlocks | src/core/airband_monitor.hpp:193-248 | the planner's loops compute exactly the plan the theorems below are about; nothing for a rate not above zero |
| AirbandPlanner.BestCentre | src/core/airband_monitor.hpp:118-165 | the candidate loop returns the pick of all candidates in order, and its clearance |
| AirbandPlanner.Collect | src/core/airband_monitor.hpp:121-144 | the candidates tried, and their order: middle, ends, gaps, points beside each member; one point off a channel too wide |
| AirbandPlanner.LeastClearance | src/core/airband_monitor.hpp:151-152 | the least clearance of the members at a centre |
| AirbandPlanner.Grow | src/core/airband_monitor.hpp:219-230 | growing stops at the first channel that passes the room or the limit |
| AirbandPlanner.GiveBack | src/core/airband_monitor.hpp:231-243 | the last channel is given back until the centre is clear or one channel is left; the centre is rounded |
| AirbandPlanner.NextBlock | src/core/airband_monitor.hpp:218-246 | one round of the outer loop makes the greedy block of its starting place |
| AirbandPlanner.OrderIsFrequencyOrder | src/core/airband_monitor.hpp:200-206 | the order holds exactly the finite positive channels, each once, by frequency and then by position |
| AirbandPlannerProofs.PlanConserves | src/core/airband_monitor.hpp:217-247 | the blocks' members, concatenated, are exactly the frequency order; each block holds at least one, at most the caller's limit and at most 64; one when the limit is 0 |
| AirbandPlannerProofs.BlocksAreMaximal | src/core/airband_monitor.hpp:199-243 | a block is no longer only because it has the caller's limit (clamped to 1 to 64), or the order ends, or the next channel would leave no room for two guards of 2000 Hz, or with it no centre would clear the spike |
| AirbandPlannerProofs.BlockCentreIsWhole | src/core/airband_monitor.hpp:236-240 | a block's centre is a whole number of hertz, the nearest to the centre chosen, of two as near the one farther from zero |
| AirbandPlannerProofs.ClearanceIsLeast | src/core/airband_monitor.hpp:151-152 | the clearance is a lower bound of every member's and is attained (or is the start value) |
| AirbandPlannerProofs.HighIsHighest | src/core/airband_monitor.hpp:224-233 | the upper edge is an upper bound of every member's and is attained |
| AirbandPlannerProofs.CandidatesWithin | src/core/airband_monitor.hpp:121-139 | every candidate lies where the edges lo and hi are both within half the span of it |
| AirbandPlannerProofs.RangeIsAllowedExactly | src/core/airband_monitor.hpp:121-123 | the range the candidates are taken from is one a member allows exactly when its lower edge is not below lo |
| AirbandPlannerProofs.CentreIsNearlyBest | src/core/airband_monitor.hpp:145-165 | the chosen centre is a candidate, no candidate passes the score it was chosen with by more than a tolerance for each, and score and clearance are its own unless every candidate overlaps by 1e300 |
| AirbandPlannerProofs.PickPrevails | src/core/airband_monitor.hpp:150-162 | a candidate within a tolerance of clear that is the first nearest of all no more than a tolerance worse than itself is the one chosen, whatever the others |
| AirbandPlannerProofs.CentreIsNearest | src/core/airband_monitor.hpp:175-177 | the clear candidate nearest the middle is chosen when no near miss is nearer, and, unless the nearest near miss has a rival, only then |
| AirbandPlannerProofs.MiddleIsKept | src/core/airband_monitor.hpp:153-161 | a middle that is clear, or within a tolerance of it, is never left, so that the block is clear exactly when its middle is |
| AirbandPlannerProofs.ClearsExactlyWhen | src/core/airband_monitor.hpp:145-164 | when a block is clear: never with no candidate within a tolerance of clear; else exactly when the first nearest of those is clear, if it is clear or no worse candidate within a tolerance of it is as near |
| AirbandPlannerProofs.ClearsWithoutRival | src/core/airband_monitor.hpp:145-164 | unless the first nearest nearly clear candidate is a near miss with a rival, a block is clear exactly when there is one and it is clear |
| AirbandPlannerProofs.ClearsWithoutNearMiss | src/core/airband_monitor.hpp:145-164 | with no near miss, a block is clear exactly when some candidate is |
| AirbandPlannerProofs.NearMissAtTheMiddle | src/core/airband_monitor.hpp:153-161 | a middle overlapping by a tolerance or less is chosen and called not clear, whatever the other candidates are |
| AirbandPlannerCases.NearMissLosesAClearCentre | src/core/airband_monitor.hpp:231-243 | two channels, a candidate clear of both, and a plan that gives one of them back |
| AirbandPlannerCases.NearerMissGivesBack | src/core/airband_monitor.hpp:231-243 | four channels with a hopeless middle, a candidate clear of all four, and a plan that gives one back for a nearer near miss |
| AirbandPlannerCases.OrderDecidesAmongRivals | src/core/airband_monitor.hpp:150-162 | with a near miss and a nearer rival the order of trying decides: six channels of which the plan gives some back, a candidate being clear of all, and their mirror image, which it keeps whole |
| AirbandPlannerProofs.CandidatesSuffice | src/core/airband_monitor.hpp:178-180 | if any centre at all keeps every member a hertz clear, some candidate is clear and no farther from the middle |
| AirbandPlannerProofs.GiveBackIsForced | src/core/airband_monitor.hpp:182-187 | a channel is given back only when every allowed centre comes within a hertz of somebody's guard, or a near miss is no farther from the middle than it |
| AirbandPlannerProofs.PointsDecide | src/core/airband_monitor.hpp:121-123 | some allowed centre, of all of them, is clear exactly when the range's lower end is, or a point a guard past a member inside the range |
| AirbandPlannerProofs.LeavesAClearCentre | src/core/airband_monitor.hpp:182-187 | a block overlaps the spike although an allowed centre would clear it exactly when one of those points is clear and no first nearest nearly clear candidate is (unless that is a near miss with a rival) |
| AirbandPlannerProofs.KeptExactly | src/core/airband_monitor.hpp:231-243 | what a block keeps is the most it can of those it grew to with a clear centre, or one channel alone |
| AirbandPlannerCases.SubHertzGapIsMissed | src/core/airband_monitor.hpp:134-138 | two channels that grow together, an allowed centre clear of both by a quarter of a hertz, every candidate hopeless, and a plan that gives one back |
| AirbandPlannerProofs.WideChannelIsCleared | src/core/airband_monitor.hpp:140-144 | a channel wider than the capture is centred off by exactly the guard |
| AirbandPlannerProofs.LoneChannelIsClear | src/core/airband_monitor.hpp:126-139 | a channel the capture can hold, alone in its block, is clear exactly when no wider than half the capture less the guard; a wider one overlaps the spike |
| AirbandPlannerProofs.BlocksClearTheSpike | src/core/airband_monitor.hpp:231-243 | in a block of two or more each edge is at least the guard less 0.5 Hz from the rounded centre, and inside the capture as far as no lower edge is below the first channel's |
| AirbandPlannerProofs.BlocksFitTheCapture | src/core/airband_monitor.hpp:221-243 | in a block of two or more with no lower edge below the first channel's, every channel is inside the capture to 0.5 Hz |
| AirbandPlannerProofs.AscendingFirstIsLowest | src/core/airband_monitor.hpp:208-230 | lower edges ascending with frequency make every block such a one |
| AirbandPlannerProofs.LowerEdgeCanFallOutside | src/core/airband_monitor.hpp:221-227 | three channels, one of which lies 17.5 kHz outside its block's capture |
| AirbandPlannerFewest.StaysAhead | src/core/airband_monitor.hpp:223-230 | a block started later never stops earlier |
| AirbandPlannerFewest.GreedyIsFewest | src/core/airband_monitor.hpp:218-230 | no split of the order into consecutive blocks that may stand has fewer blocks than greedy growth |
| AirbandPlannerFewest.PlanIsMinimal | src/core/airband_monitor.hpp:193-248 | with lower edges ascending and nothing given back, no such split, of blocks up to the caller's limit clamped to 1 to 64, has fewer blocks than the plan |
| AirbandPlannerFewest.GreedyIsFewestOfAll | src/core/airband_monitor.hpp:218-230 | with both edges ascending, no way at all of putting the channels into blocks that may stand, neighbours or not, has fewer than greedy growth |
| AirbandPlannerFewest.PlanIsMinimalOfAll | src/core/airband_monitor.hpp:193-248 | with equal bandwidths and nothing given back, no such way, of blocks up to that limit, has fewer blocks than the plan |
| AirbandPlannerFewest.EqualWidthsAscend | src/core/airband_monitor.hpp:208-210 | equal bandwidths make lower edges ascend |
| HealthCodec.HealthParse | telemetry-worker/worker.js:196-241 | the parser as it runs returns exactly the parse the theorems below are about; anything but a string is not reported |
| HealthCodec.Ledgers | telemetry-worker/worker.js:199-221 | the piece loop builds the folded ledgers and the radio-failure count |
| HealthCodec.KeepWorst | telemetry-worker/worker.js:223-233 | whatever order a map hands out its keys in, the same worst tokens are kept |
| HealthCodec.Keep | telemetry-worker/worker.js:222-235 | the tokens kept, in the vocabulary's order |
| HealthCodec.Publish | telemetry-worker/worker.js:234-239 | the counts and printed pairs of the tokens kept, looked up through the three ledgers |
| HealthCodec.FoldIsOk | telemetry-worker/worker.js:199-221 | after any pieces the ledgers hold legal tokens of their own family with counts 1 to 999, and the caps hold |
| HealthCodec.SortIsCanonical | telemetry-worker/worker.js:222-235 | sorting by any of the three orders does not depend on the order the keys came in |
| HealthCodec.FinalParts | telemetry-worker/worker.js:234-237 | the stored counts are the base ledger and the kept parts of the other two, which never meet |
| HealthCodecProofs.PieceReadsBack | telemetry-worker/worker.js:204-210 | a printed pair is read back as its token and count |
| HealthCodecProofs.ParseNeverLengthens | telemetry-worker/worker.js:197-240 | the stored text is never longer than what was sent |
| HealthCodecProofs.EncodeParsesBack | telemetry-worker/worker.js:196-241 | canonical counts, printed, parse back to themselves |
| HealthCodecProofs.FinalIsCanonical | telemetry-worker/worker.js:214-238 | what is stored is canonical: legal tokens, counts 1 to 999, every cap met |
| HealthCodecProofs.ParseIsIdempotent | telemetry-worker/worker.js:196-241 | parsing a stored text gives the same text and counts |
| HealthCodecProofs.CountsAreSaturatedSums | telemetry-worker/worker.js:209-220 | each count is min(999, sum of the clamped pieces); a legal token is missing only when a full cap refused it |
| HealthCodecProofs.FirstMetIsKept | telemetry-worker/worker.js:213-219 | a token of the failure families is in for good from the first piece of it that the caps let in |
| HealthCodecProofs.LedgersIgnoreOrder | telemetry-worker/worker.js:203-221 | permuting the pieces leaves the slow and recovered ledgers unchanged |
| HealthCodecProofs.ParseIgnoresOrder | telemetry-worker/worker.js:196-241 | permuting the pieces leaves the stored slow and recovered counts, and whether anything is reported, unchanged |
| HealthCodecProofs.RecordIgnoresOrder | telemetry-worker/worker.js:196-241 | when the distinct failure tokens sent pass no cap, permuting the pieces leaves the whole record unchanged |
| HealthCodecProofs.OrderMatters | telemetry-worker/worker.js:213-219 | when the distinct failure tokens sent pass a cap, a token left out is stored once its piece is sent first |
| HealthCodecProofs.OrderMattersExactly | telemetry-worker/worker.js:196-241 | a text short enough to be read gives one record in every order of its pieces exactly when its distinct failure tokens pass no cap |
| HealthCodecProofs.WorstAreKept | telemetry-worker/worker.js:223-233 | as many tokens as the cap allows are kept, each ranking above every dropped one |
| HealthCodecProofs.StoredAreTheWorst | telemetry-worker/worker.js:223-233 | so the stored slow and recovered tokens are the worst eight, by tier, count and rank, and by count and rank |
| HealthVocabulary.RankTable | telemetry-worker/worker.js:163-172 | the rank table gives each token its place in the written order |
| HealthVocabulary.WrittenIsWellFormed | telemetry-worker/worker.js:129-172 | expanding distinct event names by distinct words gives distinct tokens without separators |
| HealthVocabulary.VocabularyIsWellFormed | telemetry-worker/worker.js:129-146 | the Worker's own vocabulary is such a one |
| HealthVocabulary.WorkerParse | telemetry-worker/worker.js:129-241 | so the Worker's parser, over its own vocabulary, is idempotent and never lengthens |
| HealthVocabulary.WorkerOrderMatters | telemetry-worker/worker.js:196-241 | two orders of one text in the Worker's own vocabulary, short enough to be read, that give two records |
| HealthReport.PieceIsRead | telemetry-worker/worker.js:204-210 | a piece is read exactly when it is a legal token, "=", and one to four digits worth at least 1; its count is theirs, at most 999 |
| HealthReport.ReportedExactly | telemetry-worker/worker.js:196-241 | a text is reported exactly when it is no longer than 832 and is empty or holds a legal pair |
| HealthReport.StoredSlowAreTheWorst | telemetry-worker/worker.js:193-227 | over the Worker's vocabulary all slow tokens sent are stored, or eight, with their saturated sums; none left out ends in .5s while a stored one does not, or in .1s while a stored one ends in .250ms; on one ending none left out has a higher count, or the same and an earlier place |
| HealthReport.StoredRecoveredAreTheWorst | telemetry-worker/worker.js:229-233 | the same of the recovered tokens, by count and then by place |
| HealthReport.StoredFailures | telemetry-worker/worker.js:213-220 | at most 24 failures are stored, at most 8 of them radio failures, with their saturated sums; one sent is missing only with 24 stored, or as a radio failure with 8 of those |
| ColourBleed.Bleed | tools/make-aircraft-icons.py:75-92 | alpha kept, visible pixels unchanged, each transparent pixel with the colour of the visible one at the least Manhattan distance, the first of several row by row; nothing changes when none is visible; the loop ends |
| ColourBleed.FindVisible | tools/make-aircraft-icons.py:79-80 | what is known, and the first frontier, are exactly the visible pixels, the frontier row by row |
| ColourBleed.Pass | tools/make-aircraft-icons.py:81-91 | a pass at distance d settles exactly the pixels at distance d + 1, which are the next frontier, in the order their sources are scanned in |
| ColourBleed.SourcePasses | tools/make-aircraft-icons.py:83-90 | the first frontier pixel to reach a pixel has the same nearest visible pixel, the first scanned of equals |
| ColourBleed.Spread | tools/make-aircraft-icons.py:83-90 | one frontier pixel gives its colour to its unknown neighbours inside the image, and changes nothing else |
| ColourBleed.LayersAreConsecutive | tools/make-aircraft-icons.py:81-91 | an empty frontier means nothing lies farther out |
| ColourBleed.FilledIsBled | tools/make-aircraft-icons.py:81-92 | when the frontier is empty everything is coloured |
| ColourBleed.BleedAgain | tools/make-aircraft-icons.py:75-92 | filling a filled image is still a fill of the first one |
| ColourBleed.BledIsOne | tools/make-aircraft-icons.py:75-92 | an image has exactly one fill |
| ColourBleed.BledIsFixed | tools/make-aircraft-icons.py:75-92 | filling a filled image changes nothing |
| FaultPathSteps.RunIsOk | src/core/crash_handler.cpp:162-185 | every step of every run keeps the protocol's invariant |
| FaultPathSteps.AcquireKeeps | src/core/crash_handler.cpp:176-178 | taking the path keeps it |
| FaultPathSteps.RefuseKeeps | src/core/crash_handler.cpp:179-180 | re-entering or giving up keeps it |
| FaultPathSteps.ReleaseKeeps | src/core/crash_handler.cpp:185 | letting the path go keeps it |
| FaultPathSteps.FinishKeeps | src/core/crash_handler.cpp:887-893 | ending the process after a report, or not, keeps it |
| FaultPathSteps.CannotRunKeeps | src/core/crash_handler.cpp:944-980 | the once-only counter keeps it |
| FaultPathProofs.OwnershipIsExact | src/core/crash_handler.cpp:173-185 | a handler between taking and letting go is named by the word, and is the only one |
| FaultPathProofs.WordNamesAHolder | src/core/crash_handler_posix.cpp:151-165 | a word that is not 0 names a thread with exactly such a handler |
| FaultPathProofs.ReportsAreWhole | src/core/crash_handler.cpp:1356-1380 | nobody who re-entered or timed out ever wrote the shared buffers, and no completed report mixes two writers |
| FaultPathProofs.CannotRunLineOnce | src/core/crash_handler.cpp:944-965 | the cannot-run line is built by at most one handler |
| FaultPathProofs.ExitIsFirstFault | src/core/crash_handler.cpp:887-1029 | with exitAfterReport the process ends with the code written out for the kind of the first fault to take the path, once its report is complete, or with 0xE0000002 (0xE2 on Linux) after a re-entry or timeout |
| FaultPathProofs.UndisturbedExit | src/core/crash_handler.cpp:984-1029 | with no re-entry and no timeout it is always the first fault's: on Windows its own code, or 0xE0000001 for 0, or 0xE0000003 to 0xE0000006; on Linux its signal's number, or 1, 2, 3 or 6 |
| FaultPathProofs.CannotRunIsApart | src/core/crash_handler.cpp:978-1022 | the cannot-run code is none of the others, but for a Windows exception of that very code; a signal of 1 to 64 is its own status |
| FaultPathProofs.FramesAreAsEntered | src/core/crash_handler.cpp:984-1004 | every handler of a run, and the first fault, is one that entered, on its thread, for its fault, at its time |
| FaultPathProofs.LoneFaultExit | src/core/crash_handler.cpp:984-1029 | a process with exitAfterReport and a single fault, a fatal one, ends with that fault's own code |
| FaultPathProofs.EndWithoutExit | src/core/crash_handler.cpp:1018-1070 | without exitAfterReport the handlers end the process only when one cannot run, or with 3 after an abort on Windows |
| FaultPathProofs.FirstFaultEndsTheProcess | src/core/crash_handler.cpp:984-1029 | with exitAfterReport, once a fatal fault has the path its thread alone ends the process, with one of the two codes, in at most four steps more than it has handlers stacked |
| FaultPathProofs.FirstFaultKeepsThePath | src/core/crash_handler.cpp:1018-1027 | with exitAfterReport the path is never released once a fatal fault has it |
| FaultPathProofs.WaitIsBounded | src/core/crash_handler.cpp:173-183 | a waiter on Linux naps at most 2000 times; on either platform its first pass after its time is up is its last |
| FaultPathProofs.WaitsItsTime | src/core/crash_handler.cpp:173-183 | a waiter gives up exactly when ten seconds have passed since it entered (Windows) or it has napped 2000 times (Linux); else it naps once more |
| ReportName.NameBuffer.constructor | src/core/crash_handler.cpp:416-417 | an empty name in a buffer of the given size |
| ReportName.NameBuffer.Put | src/core/crash_handler.cpp:419 | one character appended, if it fits before the terminator |
| ReportName.NameBuffer.Str | src/core/crash_handler.cpp:418-420 | a text appended as far as it fits |
| ReportName.NameBuffer.Pair | src/core/crash_handler.cpp:388-392 | two digits appended, or neither |
| ReportName.NameBuffer.Dec | src/core/crash_handler.cpp:395-407 | every decimal digit of a number appended, as far as it fits |
| ReportName.Gather | src/core/crash_handler.cpp:396-405 | the digits gathered backwards are the number's decimal text reversed |
| ReportName.BuildReportPathWindows | src/core/crash_handler.cpp:416-442 | terminated inside the buffer, holding exactly the path as far as it fits |
| ReportName.WindowsPathIsWhole | src/core/crash_handler.cpp:416-442 | a path that fits is whole; any other starts with as much of its folder and prefix as fits |
| ReportName.StampReadsBack | src/core/crash_handler.cpp:416-430 | the stamp reads back as year, month, day, a dash, hour, minute and second |
| ReportName.BuildReportPathPosix | src/core/crash_handler_posix.cpp:271-290 | terminated inside the buffer, holding the path cut to what fits |
| ReportName.ThirtyTwoBits | src/core/crash_handler.cpp:396 | 32-bit numbers fit the 16 digits kept for them |
| ReportName.SixtyFourBits | src/core/crash_handler_posix.cpp:250 | 64-bit numbers fit the 24 digits kept for them |
| ReportName.ReportNamePid | src/core/crash_handler.cpp:1256-1274 | a process id is found exactly in names of a report's shape, and it is the field before the sequence number, saturated as strtoull does |
| ReportName.PartsAreUnique | src/core/crash_handler.cpp:1263-1272 | a name has one reading |
| ReportName.NameNamesItsProcess | src/core/crash_handler.cpp:1252-1274 | the name a process built reads as its own id and sequence number, whatever the stamp |
| ReportName.NamesAreUnique | src/core/crash_handler.cpp:409-415 | two reports share a name only with equal id, sequence number and stamp |
| ReportName.ReadBack | src/core/crash_handler.cpp:1256-1274 | the reader recovers the id from a name the writer built |
| ReportHead.CopyPrintable | src/core/crash_handler.cpp:121-128 | printable ASCII, cut to what fits, terminated |
| ReportHead.PrintableIs | src/core/crash_handler.cpp:121-128 | the codes 32 to 126 stay, any other becomes a question mark |
| ReportHead.HexReadsBack | src/core/crash_handler.cpp:341-353 | a number's hexadecimal digits, upper-case and as many as asked for, are worth it |
| ReportHead.CodeReadsBack | src/core/crash_handler.cpp:786 | the eight digits of a 32-bit code are the whole of it |
| ReportHead.WriteHeader | src/core/crash_handler.cpp:779-794 | the calls write the five header lines and the thread line |
| ReportHead.IsWholeFatalReportHead | src/core/crash_handler.cpp:1280-1314 | the line loop computes exactly the scan the theorem below is about |
| ReportHead.HexSignature | src/core/crash_handler.cpp:1303-1310 | 16 hexadecimal digits and nothing else |
| ReportHead.HeaderNoted | src/core/crash_handler.cpp:1291-1311 | a whole header is noted as kind, signature, and whether its reason is a survived fault's |
| ReportHead.CutBeforeSignature | src/core/crash_handler.cpp:1301 | a header cut before its last newline shows no signature |
| ReportHead.RestIsIgnored | src/core/crash_handler.cpp:1290 | nothing after the signature line changes the answer |
| ReportHead.PrefixIsJudgedRightly | src/core/crash_handler.cpp:1276-1314 | any prefix of a report is accepted exactly when it includes the newline ending the signature line and the reason starts with none of the three texts of a survived fault |
| ReportHead.AnySuffixIsJudgedRightly | src/core/crash_handler.cpp:121-128 | whatever text the suffix is made from, the header has its five lines and every prefix is judged as above |
| I18nLexer.ReadQuoted | tools/i18n_keys.py:65-114 | the body loop reads a literal's bytes and stops past its end |
| I18nLexer.ReadEscape | tools/i18n_keys.py:78-111 | every escape sequence: simple, splice, hexadecimal, universal, octal, and any other character |
| I18nLexer.Lex | tools/i18n_keys.py:117-180 | the lexer's loop computes the tokens the theorems are about, and ends |
| I18nLexer.ReadToken | tools/i18n_keys.py:121-179 | one round: comments, literals, numbers, words, whitespace, punctuation |
| I18nLexer.ReadWord | tools/i18n_keys.py:156-174 | a word, or the raw or prefixed literal it begins |
| I18nLexer.ReadRaw | tools/i18n_keys.py:158-168 | a raw literal up to its own delimiter, or to the end; none without a parenthesis |
| I18nLexer.SkipLine | tools/i18n_keys.py:123-128 | a line comment ends before a newline no backslash splices |
| I18nLexer.SkipNumber | tools/i18n_keys.py:141-151 | a number goes on over digits, letters, dots, separators and an exponent's sign |
| I18nLexer.ExtractKeys | tools/i18n_keys.py:183-208 | the call loop computes the keys the theorems are about, in order |
| I18nLexer.ReadLiterals | tools/i18n_keys.py:193-199 | adjacent literals are joined |
| I18nLexerProofs.UnitsReadBack | tools/i18n_keys.py:65-114 | a literal written with any characters, escapes of every kind (the eleven simple ones each with its byte) and splices is read back as its bytes, up to its end |
| I18nLexerProofs.OctalsAreAnyBytes | tools/i18n_keys.py:102-109 | every byte string can be written so |
| I18nCharacters.BytesAreCharacters | tools/i18n_keys.py:65-114 | the bytes of a literal decode, by an independent UTF-8 decoder, to the characters written in it, as they stand, by escape, by number or by name |
| I18nCharacters.LiteralSpells | tools/i18n_keys.py:65-114 | so a literal of characters is read back as them |
| I18nCharacters.RawSpells | tools/i18n_keys.py:158-168 | so is a raw literal's text |
| I18nCharacters.StrayIs | tools/i18n_keys.py:76 | a stray byte stands for itself |
| I18nCharacters.NamedIs | tools/i18n_keys.py:54-58 | a universal name of no character gives a question mark |
| I18nCharacters.ClassesAre | tools/i18n_keys.py:42-47 | which characters are digits, letters of a word, exponents and signs |
| I18nCharacters.DigitsAre | tools/i18n_keys.py:50-51 | a hexadecimal digit is worth its place among the sixteen |
| I18nLexerProofs.OpenLiteralEndsWithItsLine | tools/i18n_keys.py:73-74 | a literal left open ends at its line's end, exactly unless the next line starts with its quote |
| I18nLexerProofs.PartReads | tools/i18n_keys.py:121-179 | each part of a source, followed by something it does not run into, is read as its token |
| I18nLexerProofs.SourceReadsBack | tools/i18n_keys.py:117-180 | whatever tokens, blanks and comments a source is made of, the lexer reads back exactly the tokens |
| I18nLexerProofs.SpacedReadsBack | tools/i18n_keys.py:117-180 | so for any tokens each followed by whitespace, and any comments after it |
| I18nLexerProofs.KeysAreTheCalls | tools/i18n_keys.py:187-206 | a key is found just where a name, a parenthesis, one or more literals and a parenthesis stand, and the key has any text |
| I18nLexerProofs.IdIsCutOff | tools/i18n_keys.py:202-205 | for anything but tr the key is the text before "##" |
| I18nLexerProofs.KeysSplit | tools/i18n_keys.py:187-201 | what stands before an identifier does not look past it |
| I18nLexerProofs.CallReadsBack | tools/i18n_keys.py:183-208 | a call written in any way adds one key where it stands: its literals joined; the keys before and after it are unchanged |
| I18nLexerProofs.CallIsApart | tools/i18n_keys.py:183-208 | a call's pieces never run into each other, with or without whitespace |
| AirbandTable.WriteTable | tools/make-airband-data.py:185-207 | the writing loops print the comments and each airport with its frequencies |
| AirbandTable.ParseAirbandTable | src/core/airband_data.cpp:94-149 | the line loop computes the read of the text, frequencies sorted, and the count of skipped lines |
| AirbandTable.ReadOne | src/core/airband_data.cpp:104-139 | one line: an airport, a frequency, or a skip |
| AirbandTable.SplitTabs | src/core/airband_data.cpp:43-53 | a line split on tabs, empty fields kept |
| AirbandTable.TrimText | src/core/airband_data.cpp:18-26 | spaces, tabs and carriage returns taken off both ends |
| AirbandTableProofs.CleanIsNeat | tools/make-airband-data.py:71-74 | cleaned text has single spaces only, and none at either end |
| AirbandTableProofs.CleanWord | tools/make-airband-data.py:71-74 | cleaning leaves a word as it is |
| AirbandTableProofs.CleanBlanks | tools/make-airband-data.py:71-74 | cleaning leaves nothing of whitespace |
| AirbandTableProofs.CleanParts | tools/make-airband-data.py:71-74 | whitespace between two texts becomes one space between what is left of them |
| AirbandTableProofs.TrimTakes | src/core/airband_data.cpp:18-26 | trimming takes every space, tab and carriage return off both ends and nothing else |
| AirbandTableProofs.DescriptionLosesAtMostASpace | tools/make-airband-data.py:206 | the 160-character cut and the parser's trim lose at most one space at the cut |
| AirbandTableProofs.CutIsPrefix | tools/make-airband-data.py:206 | the cut keeps the first 160 characters |
| AirbandTableProofs.ChannelReadsBack | src/core/airband_data.cpp:63-71 | a printed channel is parsed as itself |
| AirbandTableProofs.FixedReadsBack | tools/make-airband-data.py:200 | a coordinate printed to four places, -0.0000 among them, is read as exactly what was printed |
| AirbandTableProofs.DecimalReads | src/core/airband_data.cpp:55-61 | digits with a point and perhaps a sign are read as the digits over ten for each after the point |
| AirbandTableProofs.WholeNumberReads | src/core/airband_data.cpp:63-71 | a field is a whole number exactly when it is digits with at most one sign, blanks aside; it is held as the platform's long and then an int hold it |
| AirbandTableProofs.FieldsReadBack | src/core/airband_data.cpp:104-139 | a line of tab-separated fields is split back into its fields and read by its letter |
| AirbandTableProofs.AirportLineReads | src/core/airband_data.cpp:107-126 | a printed airport line adds that airport, or is skipped with an empty ident or coordinates out of range |
| AirbandTableProofs.FreqLineReads | src/core/airband_data.cpp:127-136 | a printed frequency line adds that frequency, tuned as its channel's name says, or is skipped with its airport |
| AirbandTableProofs.ThirdsOfASlot | src/core/airband_data.cpp:80-92 | the channels named 5, 10 and 15 in a slot are 25/3 kHz apart, the first on the slot's own frequency |
| AirbandTableProofs.WhateverIsRead | src/core/airband_data.cpp:94-149 | of any text at all: every airport returned has an ident and coordinates in range, its channels ascend, and each frequency is the one its channel's name stands for |
| AirbandTableProofs.TableReadsBack | src/core/airband_data.cpp:94-149 | parsing the printed table gives the good airports in order with their frequencies, and skips exactly the others' lines |
| AirbandTableProofs.NothingIsSkipped | tools/make-airband-data.py:193-207 | with idents and coordinates in order every airport comes back and nothing is skipped |
| BandPlans.ContainingComesFirst | src/core/band_plan.cpp:39-49 | sorted entries are a permutation in which a strictly containing band precedes what it contains |
| BandPlans.StartsAscend | src/core/band_plan.cpp:42-48 | sorted entries ascend by start, and descend by end on equal starts |
| BandPlans.PickerOrder | src/core/band_plan.cpp:292-296 | the plans offered are exactly those that parse, by name and then by id |
| BandPlans.PathsAscend | src/core/band_plan.cpp:238 | a directory's files are taken in path order |
| BandPlans.FollowBase | src/core/band_plan.cpp:317-346 | the walk computes the chain or the failure; it ends because the unvisited plans shrink |
| BandPlans.ChainIsDistinct | src/core/band_plan.cpp:336-343 | a chain that reaches an empty base never repeats an id |
| BandPlans.WalkIsExact | src/core/band_plan.cpp:317-346 | the walk succeeds exactly when following base reaches an empty one, and returns that one chain |
| BandPlans.BandPlan.Merge | src/core/band_plan.cpp:351-370 | all of a chain, baseline first, sorted and named, or nothing and the first file that does not parse |
| BandPlans.BandPlan.LoadDirectory | src/core/band_plan.cpp:211-257 | every file in path order, or nothing and the first that does not parse |
| BandPlans.BandPlan.LoadSelection | src/core/band_plan.cpp:300-370 | loads exactly when the chain of bases ends and every file of it parses, then holding that chain's bands sorted; unchanged on failure |
| BandPlans.AtFrequency | src/core/band_plan.cpp:388-408 | the narrowest band at a frequency, the first of equals, never one that strictly contains another there |
| DamagedFiles.Folder.SetAside | src/core/damaged_file.cpp:50-132 | nothing to keep, could not keep (exactly when, and nothing changed), or kept: the whole new folder, under a name that was free, and that name unless an exception kept it from the result |
| DamagedFiles.Folder.Prune | src/core/damaged_file.cpp:117-125 | all but the newest copies go, as far as they can be removed |
| DamagedFiles.ParseKey | src/core/damaged_file.cpp:32-46 | a copy's stamp and number, refused past 100000 |
| DamagedFiles.CopiesIn | src/core/damaged_file.cpp:76-87 | the copies among the names listed |
| DamagedFiles.KeyOrder | src/core/damaged_file.cpp:20-30 | the key order is a strict weak order that ties equal keys only |
| DamagedFiles.NumberIsNew | src/core/damaged_file.cpp:89-96 | the new number is past every copy's of the same stamp |
| DamagedFiles.NewestAreKept | src/core/damaged_file.cpp:112-125 | as many as may be kept are kept, and none removed is newer than one kept |
| DamagedFiles.SurvivesExactly | src/core/damaged_file.cpp:113-125 | the copy just made is removed exactly when at least keep others are newer |
| DamagedFiles.GoneExactly | src/core/damaged_file.cpp:113-125 | any copy with a key of its own is pruned exactly when at least keep of the copies are newer |
| DamagedFiles.BytesSurviveExactly | src/core/damaged_file.cpp:103-125 | exactly when the damaged bytes are still there afterwards, under the new name |
| DamagedFiles.BytesSurvive | src/core/damaged_file.cpp:89-92 | with keep at least 1 and a stamp no earlier than any copy's they always are |
| DamagedFiles.OthersUntouched | src/core/damaged_file.cpp:50-132 | no file that is neither the damaged one nor a copy of it changes, and no other name appears |
| DamagedFiles.CopiesLeft | src/core/damaged_file.cpp:112-125 | the copies left are exactly the newest, as many as may be kept |
| DamagedFiles.OldCopyGoesExactly | src/core/damaged_file.cpp:103-125 | a copy there before is gone after a set-aside exactly when at least keep of the copies, the new one among them, are newer |
| DamagedFiles.MadeReadsBack | src/core/damaged_file.cpp:32-46 | the name made is read back by a later run as the key it was made with |
| DamagedFiles.ClockSetBackLosesTheBytes | src/core/damaged_file.cpp:113-125 | a folder in which the copy just made is the one pruned |
| DamagedFiles.LetteredNamesLoseTheBytes | src/core/damaged_file.cpp:32-46 | as many names with letters for a stamp as copies may be kept push the copy just made out, whatever the clock says |
| DamagedFiles.LowNameIsPruned | src/core/damaged_file.cpp:32-46 | with enough copies, a file no run made is removed when the 15 characters after the prefix sort below a digit |

## Left out

- AirbandPlannerProofs.ClearsExactlyWhen: silent when the first nearest nearly clear candidate is a near miss with a rival as near; there the order the candidates are tried in decides (`OrderDecidesAmongRivals`), and the only condition is the loop itself. The same holds of `ClearsWithoutRival` and `LeavesAClearCentre`.
- AirbandPlannerProofs.GiveBackIsForced: one direction, and for centres a whole hertz clear; `LeavesAClearCentre` has both directions and every allowed centre.
- AirbandPlannerProofs.BlocksFitTheCapture: one direction; a rounded centre can happen to hold a lower edge that is below the first channel's.
- AirbandTable.ParseAirbandTable: a decimal is read as its exact value, not the nearest double; what `strtod` makes of exponents, hexadecimal and names is a parameter.
- AirbandTable.ReadOne: the same, for one line.
- BandPlans.BandPlan.LoadSelection: JSON parsing is whether and to what a file parses, when listed and again when loaded; a directory that fails in the middle of its listing fails as a whole.
- Doubles are reals throughout: rounding error of single operations, NaN bandwidths and infinities are not modelled; a channel's frequency carries what `std::isfinite` says of it.
- The airband monitor's set building, mixing and DSP: library objects the model has no state for.
- The Worker's HTTP handling, stall counts and exit splits: plumbing and single-step checks.
- Stack unwinding, module tables, minidumps, the text of the fault lines, and the bytes a cannot-run handler appends to another thread's open report.
- What a prior filter, terminate handler or re-raised signal does once a handler has let the path go: the model only lets it return or end the process.
- The invalid-parameter entry on Linux is a hook for tests that aborts when it cannot take the path; it is modelled like the other entries.
- How the address, signature hash and addresses' module names are computed: they are any one-line texts, the signature any 16 hexadecimal digits.
- Decoding keys with replacement, walking the source tree and the catalogues: library calls and I/O.
- Reading the CSV files, choosing the airports and joining their descriptions: the table starts from the gathered rows.
- UTF-8 between the table's printer and parser: both sides work on the same characters, and the parser looks at ASCII ones only.
- `std::sort` is modelled as stable: it differs only in the order of plans with equal name and id, and of copies with equal keys.
- Files of a folder are not linked or aliased.

# Verification of the workers and backfills

A Dafny model of the long-running scripts of this repository: the auto-executors that trade on
logged opportunities, the arb runner, the credential writer and its loader, the resumable
backfills and the mirror, the PnL attribution, the factory process manager, the wallet scanners
and the mid-window backtest. Each script is modelled with its own state and steps, including
crashes, restarts, failed calls and interleavings, and what it promises over whole runs is proved.
Where a promise does not hold of the code, runs that break it are given and the condition under which
it does is proved for all inputs or all reachable states. For the duplicate late-scalp orders, the consensus
cap, the lost verdicts, the doubled workers and the pruned rows that condition is told before the deciding
step, from the state at that point or from the input alone.

Loops and objects that update state are methods and classes, proved equal to a specification
function; the theorems are lemmas about those functions and about runs of them.

    dafny verify dfyconfig.toml

## Layout

- `ExecLog`, `ExecMachine`: the event log and one step machine for the late-scalp, markov and
  consensus executors; a `Policy` selects their differences. Workers are suspended only at
  `await router.submit`; `router.submit` returns any verdict, throws, or never returns because the
  process dies. `Kelly` is the sizing of the markov orders. `DailyCap`, `CapReached`, `AtMostOnce`,
  `SubmitAccounts`, `LateScalpDates`, `LateScalpOnce`, `ConsensusCap` and `ConsensusMidnight` hold the run
  theorems, `LateScalpFleet` and `ConsensusFleet` the runs of n workers that reach their bounds, `ExecPolls` and
  `ExecCounts` what one poll does and counts, `ExecDrive` and `ExecWorkers` the three `pollOnce` methods and their
  refinement of the machine.
- `ArbRunner`, `ArbLaunches`: evaluations as tasks interleaving at their awaits, and what each event launches.
- `EnvText`, `EnvFile`, `EnvLines`: text operations, the `.env.local` writer and loader, and what a line
  reads as. `EnvReplace` holds the replacement patterns of `String.replace`, `EnvMatch` where the writer's
  expression matches, `EnvRoundTrip`, `EnvPatch` and `EnvClean` the round trips of one write, of `patchEnv`
  and for files with ordinary line ends, `EnvFailures` the files for which they fail.
- `CandleTable`, `CoindeskBackfill`, `CoindeskPages`, `CoindeskResume`, `CandleWindows`, `CandleTiling`,
  `CandleStops`, `CandleOverflow`: the two candle backfills.
- `Mirror`, `MirrorRuns`: the archive mirror.
- `SettledPaging`, `SettledStops`, `SettledResume`, `TitleRange`, `TitlePattern`: the settled-market backfill, its
  stops and resumes, and the durations in its titles.
- `PnlHistory`, `PnlBackfill`, `PnlShares`, `PnlRerun`, `PnlOrder`: the PnL attribution.
- `FactoryCtl`, `FactoryRuns`, `FactoryGuards`, `FactoryWants`: the process manager.
- `WalletStream`, `WalletRing`, `WalletFlags`, `ObserveWallet`, `ObservePolls`, `OpportunityNotes`: the scanners
  and the note emitter.
- `Midwindow`, `MidwindowTicks`, `MidwindowRows`: the mid-window backtest.

## Assumptions

- Money and prices are exact reals; timestamps, ids and counts are unbounded integers.
- The clock does not run backwards and process ids are not reused.
- A server answers a page request from one fixed ordered list of rows; retried errors are answered in the end
  or the run is cut short.
- `router.submit`, the trajectory detector and the arb finder are arbitrary: their results are
  chosen by the environment.
- `executeSingleMarketArb` and the insert that follows `attempts++` in the arb runner return; a throw of
  either ends that task, and by default the process, with fewer executions launched than attempts counted.
- A worker process dies at an await: kill points inside a synchronous stretch of an executor, between
  two log rows it appends in a row, are not separate states.
- A settled market ends when its event does.

## What does not hold

- The late-scalp executor does not always execute an opportunity once. Without a lost outcome one worker can
  submit it twice if and only if it is still worth an order, with the whole cap, at the first midnight (UTC)
  after it is offered (`LateScalpOnce.TwiceExactly`); its five-minute window must then span that midnight
  (`LateScalpDates.OnceWithinADate`), and polls on both sides do execute it on both dates
  (`LateScalpDates.TwiceAcrossMidnight`). A throw of `router.submit` leaves no row, so the same opportunity is
  submitted again (`LateScalpDates.ThrowsRepeat`).
- The daily USD cap is per process, not per log: n pollers can spend n caps (`CapReached.BoundIsReached`).
- The consensus cap does not bind a poll that straddles midnight. Suspended past it, the poll can put more rows
  on the new date than the cap if and only if the rows already there, the order in flight and the signals
  still queued that are not done and parse come to more than the cap (`ConsensusMidnight.SuspendedExactly`).
  An idle worker can still do so on a later date if and only if the cap is positive and the date before that one
  lies ahead or has room (`ConsensusMidnight.IdleExactly`). Several workers exceed the cap without any midnight,
  by one row for each worker but one (`ConsensusFleet.WorkersReachCap`).
- The arb runner can exit without the verdict of an execution another task launched. While it is live no
  verdict can be lost, short of the timeout, if and only if the attempts are used up, one execution is in
  flight and no evaluation is refetching (`ArbRunner.VerdictsSafeExactly`): below the cap one always can.
- `patchEnv` writes a value the loader does not read when an earlier line gives the key another value
  (`EnvRoundTrip.RoundTrip`), for instance an indented one (`EnvFailures.IndentedLineWins`). A replaced line
  keeps the value exactly when no `$` in it is followed by `$`, `&`, a backtick or `'`
  (`EnvRoundTrip.LineWrittenExactly`); an appended one always does. Next to a line terminator other than LF
  or CRLF the writer can replace what is only a part of a line to the loader: what is then read is given for
  a terminator in front of it (`EnvFailures.HiddenStart`) and behind it (`EnvFailures.HiddenEnd`).
- The loader says it leaves quoted values alone; one with a comment behind it keeps its quotes, unless the comment
  ends in the same quote (`EnvLines.QuotesKept`).
- A rejected late-scalp order is not charged to the poll that placed it, but every later poll of the date starts with
  its USD gone (`ExecPolls.RejectedCostsNextPoll`).
- The PnL backfill says re-running is safe; a later run overwrites the row of its cutoff's day with
  a partial sum (`PnlRerun.PartialDayOverwrites`).
- The candle windows hold 351 candle starts, one more than an answer carries, in one of every g
  windows and in every first window of a resumed run (`CandleOverflow.OneOverflowInEvery`,
  `CandleOverflow.ResumeOverflows`). Once a run has written the meta row no later series of runs fetches a
  candle above it (`CandleOverflow.NeverRefetched`); before that a killed run starts over from the clock
  (`CandleOverflow.KilledRunStartsOver`).
- The mirror is meant to allow aggressive pruning; a row that no pass has reached can still be archived after
  a prune exactly when the prune leaves it in the source (`MirrorRuns.PruneDecides`). Of its default tables
  `poly_binaries` has no `id` column and is always skipped.
- The settled-market backfill skips events that end within a second of a page boundary
  (`SettledPaging.CompleteExactly`, `SettledPaging.TiesAreSkipped`). A resume loses nothing more exactly when the
  next event does not end above the stored second it resumes at (`SettledResume.ResumeCoversExactly`), and a chain
  of resumes exactly when each of them does so (`SettledResume.ChainCoversExactly`).
- Minutes above 59 in a title are accepted and can give a LONG or a negative span
  (`TitleRange.MalformedMinutes`), exactly when the two times lie more than a day apart
  (`TitleRange.SpanExactly`).
- The process manager does not always keep one worker for each factory. The next command keeps it so if and
  only if it is harmless (`FactoryGuards.HarmlessExactly`): a stop whose kills end every recorded worker they are
  sent to, another command that is not interrupted, an interrupted one none of whose handled targets needs a
  process, a worker's crash, or a lost file while no recorded worker is alive. After a failed kill or an
  interrupted start the next start doubles the worker (`FactoryGuards.FailedKillDoubles`,
  `FactoryGuards.InterruptedStartDoubles`).
- The default flag interval of the wallet scanner is not a number (`WalletRing.DefaultIsNaN`), and such an
  interval is exactly what keeps it from ever raising a flag (`WalletRing.SilentExactly`).
- The backtest's "close of the minute that ends at T+120s" is the close of the minute that starts
  then (`MidwindowTicks.SnapshotLooksAhead`), and a candle yields 31 ticks, not 30.
- The note emitter never recognises its own earlier notes (`OpportunityNotes.RerunRepeats`).

## Model

| member | source | states |
|---|---|---|
| `ExecLog.RowsForPositive` | scripts/worker-markov-persistence-exec.ts:89-98 | an id is in the all-time dedup set exactly when the log holds a row for it |
| `ExecMachine.RecentSound` | scripts/worker-late-window-scalp-exec.ts:75-82 | the look-back query keeps id order and exactly the opportunities not older than the window |
| `ExecMachine.RunConcat` | scripts/worker-late-window-scalp-exec.ts:51-211 | a run of one step list after another is the run of both together |
| `ExecMachine.AdvanceSound` | scripts/worker-late-window-scalp-exec.ts:101-170 | a synchronous stretch of the loop logs only skips and stops at the first opportunity that is not done, within budget and worth exactly the order in flight |
| `ExecMachine.ScalpSizing` | scripts/worker-late-window-scalp-exec.ts:132-147 | an order is the smallest of the three limits, at least $0.50, with 15 s left; a pass means one of these fails |
| `ExecMachine.DecideFits` | scripts/worker-markov-persistence-exec.ts:120-131 | an order lies between 0 and the remaining budget |
| `ExecPolls.ScalpExactly` | scripts/worker-late-window-scalp-exec.ts:101-147 | late-scalp orders if and only if 15 s are left and the smallest limit is at least $0.50, and then that much |
| `ExecPolls.MarkovExactly` | scripts/worker-markov-persistence-exec.ts:108-145 | markov submits what is due, notes a readable opportunity with nothing due and passes over any other |
| `ExecPolls.ConsensusExactly` | scripts/worker-consensus-executor.ts:106-140 | consensus orders the per-signal size if and only if the signal can be read |
| `ExecPolls.StretchExactly` | scripts/worker-markov-persistence-exec.ts:101-150 | between two submits the loop goes over the entries that are done or not worth an order, notes just those markov notes, and stops at the end, at the first other one when nothing may be submitted any more, or with its order |
| `ExecPolls.OpenExactly` | scripts/worker-late-window-scalp-exec.ts:51-101 | a poll starts from the cap less every row of the date, looks back 5, 120 or 30 minutes, takes for done what its policy says, and changes nothing when it has nothing to spend |
| `ExecPolls.AnswerExactly` | scripts/worker-consensus-executor.ts:140-170 | an answer leaves the row of its order with the verdict and the loop goes on with what the policy charges taken off its budget |
| `ExecPolls.RejectedCostsNextPoll` | scripts/worker-late-window-scalp-exec.ts:56-67 | a rejected late-scalp order costs the running poll nothing and the next poll of the date its full USD |
| `ExecCounts.PollCounts` | scripts/worker-late-window-scalp-exec.ts:96-211 | a poll reports as executed just the orders whose rows it appends, without the rejected ones in late-scalp, and as skipped every other entry it goes over: all of them unless its budget ran out |
| `ExecCounts.NothingToSpend` | scripts/worker-late-window-scalp-exec.ts:67-71 | a poll that starts with nothing to spend logs nothing and reports zeros |
| `ExecMachine.RunWellFormed` | scripts/worker-late-window-scalp-exec.ts:51-211 | every step of every worker keeps the rows out of the future and each suspended poll consistent with the budget and queue it opened with |
| `ExecMachine.RunDated` | scripts/worker-late-window-scalp-exec.ts:51-211 | in every run of any number of workers the rows are dated in the order in which they were appended |
| `Kelly.KellyClosedForm` | src/lib/quant/formulas.ts:142-150 | the odds form of the Kelly fraction is edge over the probability not yet priced in |
| `Kelly.KellyStake` | src/lib/quant/formulas.ts:108-140 | with an edge the stake is the clamped fractional-Kelly share of the bankroll, on the YES side |
| `Kelly.DecideOrderSound` | src/lib/strategies/markov-persistence-executor.ts:73-134 | an order is placed only with a positive edge, is at least $1, and equals the clamped Kelly share of the per-signal cap or the remaining budget, whichever is less |
| `Kelly.OrderExactly` | src/lib/strategies/markov-persistence-executor.ts:73-134 | an order of a size is placed if and only if the market price is inside (0, 1), the recommended side is underpriced, budget is left, and the clamped share (pt - pm) / (1 - pm) * scale of the per-signal cap, or what remains, is that size and at least $1 |
| `Kelly.MirrorSides` | src/lib/strategies/markov-persistence-executor.ts:82-117 | a NO opportunity at (c, m) is decided as a YES one at (1 - c, 1 - m) |
| `DailyCap.DailyCapHolds` | scripts/worker-late-window-scalp-exec.ts:56-71 | in every run of n workers, with any verdicts, throws, crashes and midnight crossings, the USD of one date is at most n caps (accepted USD for late-scalp, all returned USD for markov) |
| `DailyCap.SingleWorkerCap` | scripts/worker-markov-persistence-exec.ts:60-75 | one worker never exceeds its cap on any date |
| `CapReached.BoundIsReached` | scripts/worker-late-window-scalp-exec.ts:142-201 | for every n and every cap that k orders between the minimum and the per-signal size add up to, there is a run of n workers that accepts exactly n caps on one date |
| `AtMostOnce.WorkerAtMostOnce` | scripts/worker-markov-persistence-exec.ts:147-189 | in every run of n workers each of them submits an id at most once plus once per submit whose outcome it lost, and logs it at most once; for late-scalp per date |
| `AtMostOnce.AtMostOnceHolds` | scripts/worker-markov-persistence-exec.ts:147-189 | together n workers submit an id at most n times plus the lost outcomes and log it at most n times |
| `AtMostOnce.DoneCovers` | scripts/worker-consensus-executor.ts:78-97 | a worker has no row the policy looks at for an id outside the dedup set |
| `SubmitAccounts.EverySubmitAccounted` | scripts/worker-consensus-executor.ts:140-170 | in every run of any number of workers submits of an id = rows that answer one + lost outcomes + submits in flight |
| `LateScalpDates.OneDateExactly` | scripts/worker-late-window-scalp-exec.ts:75-82 | the window lies on one date exactly when all polls that see the opportunity are on one date |
| `LateScalpDates.OncePerDate` | scripts/worker-late-window-scalp-exec.ts:75-94 | in every run each worker submits an opportunity once when its window lies on one date, at most twice when it spans midnight, and never an id that was not offered, plus the lost outcomes |
| `LateScalpDates.OnceWithinADate` | scripts/worker-late-window-scalp-exec.ts:75-94 | one worker submits an opportunity whose window does not span midnight once, plus once per lost outcome |
| `LateScalpDates.TwiceAcrossMidnight` | scripts/worker-late-window-scalp-exec.ts:86-105 | every opportunity worth an order at two polls on different dates is submitted and logged on both, whatever the verdicts |
| `LateScalpOnce.TwiceExactly` | scripts/worker-late-window-scalp-exec.ts:75-147 | some run of one worker submits an opportunity twice without a lost outcome if and only if it is still worth an order, with the whole cap, at the first midnight after it is offered |
| `LateScalpDates.ThrowsRepeat` | scripts/worker-late-window-scalp-exec.ts:177-201 | for every opportunity worth an order, m throws make m submits of it on one date and no row |
| `LateScalpFleet.OneDateReached` | scripts/worker-late-window-scalp-exec.ts:75-105 | for every opportunity worth an order some run of n workers submits it n times and logs it n times on one date, with no outcome lost |
| `LateScalpFleet.TwoDatesReached` | scripts/worker-late-window-scalp-exec.ts:75-105 | when it is worth an order on two dates, some run of n workers submits it 2 n times with no outcome lost |
| `ConsensusCap.CountCap` | scripts/worker-consensus-executor.ts:93-106 | with one worker the rows of a date exceed the cap exactly when the rows of straddling polls alone exceed it |
| `ConsensusCap.CountCapOfWorkers` | scripts/worker-consensus-executor.ts:93-106 | n workers put at most the cap, n - 1 rows more and the straddling rows on a date |
| `ConsensusMidnight.SuspendedExactly` | scripts/worker-consensus-executor.ts:93-106 | in every reachable state with a poll suspended past midnight some continuation exceeds the cap on the new date if and only if its rows so far, the order in flight and the queued signals that are not done and parse are more than the cap |
| `ConsensusMidnight.IdleExactly` | scripts/worker-consensus-executor.ts:54-65 | in every reachable state with an idle worker some continuation exceeds the cap on a later date if and only if the cap is positive and a poll can still be opened on the date before it |
| `ConsensusFleet.WorkersReachCap` | scripts/worker-consensus-executor.ts:93-106 | for every cap and n a run of n workers puts cap + n - 1 rows on one date, none of them straddling |
| `ExecDrive.PollIsRun` | scripts/worker-markov-persistence-exec.ts:55-192 | a complete poll is a run of the step machine: same log, same session |
| `ExecWorkers.CollectIdsOn` | scripts/worker-late-window-scalp-exec.ts:86-94 | the loop over one date's rows collects exactly that date's ids |
| `ExecWorkers.CollectIds` | scripts/worker-markov-persistence-exec.ts:92-98 | the loop over all rows collects exactly the logged ids |
| `ExecWorkers.LateScalpWorker.SizeOrder` | scripts/worker-late-window-scalp-exec.ts:132-147 | the tests between the budget and the order decide as the machine does: an order of the smallest limit, or a pass |
| `ExecWorkers.LateScalpWorker.PollOnce` | scripts/worker-late-window-scalp-exec.ts:51-211 | the poll leaves the log, and reports the counters, of the specified poll; a throw aborts it |
| `ExecWorkers.MarkovWorker.PollOnce` | scripts/worker-markov-persistence-exec.ts:55-192 | the same for markov, whose throws are logged and skipped |
| `ExecWorkers.ConsensusWorker.PollOnce` | scripts/worker-consensus-executor.ts:52-173 | the same for consensus, which re-reads its cap before each submit |
| `ArbRunner.RunKeeps` | scripts/arb-runner.ts:54-104 | every handler and every resumption keeps the inductive invariant of the shared counters |
| `ArbRunner.AttemptsBounded` | scripts/arb-runner.ts:79-80 | under every interleaving executions launched = attempts <= MAX_ATTEMPTS, and each is answered or in flight |
| `ArbRunner.ThrottleHolds` | scripts/arb-runner.ts:55-58 | every websocket evaluation starts at least 750 ms after the evaluation before it, of either kind |
| `ArbRunner.WsRateOfRuns` | scripts/arb-runner.ts:57 | k websocket evaluations span at least (k-1) * 750 ms |
| `ArbRunner.CapLeadsToExit` | scripts/arb-runner.ts:94-99 | at the cap something is in flight and its verdict ends the process |
| `ArbRunner.CapDecides` | scripts/arb-runner.ts:78-99 | in every reachable state at the cap: no continuation short of the timeout exits with a verdict missing if and only if one execution is in flight and no evaluation is refetching |
| `ArbRunner.FateAtCap` | scripts/arb-runner.ts:94-99 | with two or more executions in flight at the cap every continuation that exits has lost a verdict |
| `ArbRunner.LostFromCap` | scripts/arb-runner.ts:78-99 | an exit from the cap loses all executions in flight or all but one |
| `ArbRunner.VerdictsSafeExactly` | scripts/arb-runner.ts:54-99 | in every live reachable state no continuation short of the timeout exits with a verdict missing if and only if the attempts are used up, one execution is in flight and no evaluation is refetching |
| `ArbLaunches.MessageExactly` | scripts/arb-runner.ts:54-94 | in every live reachable state a message evaluates if and only if attempts are left and 750 ms have passed; with n > 0 arbs it launches one and keeps n - 1 for later, with none it launches nothing, and otherwise it changes nothing |
| `ArbLaunches.FillExactly` | scripts/arb-runner.ts:138-146 | a fill evaluates if and only if its token is watched and attempts are left, and launches nothing before its refetch |
| `ArbLaunches.RefetchedExactly` | scripts/arb-runner.ts:62-99 | after the refetch the first arb is launched, or the process exits when others have used up the attempts |
| `ArbLaunches.VerdictExactly` | scripts/arb-runner.ts:78-99 | a verdict is counted and the next arb launched while there are arbs and attempts left; else the evaluation ends, and the process at the cap |
| `ArbLaunches.MessageLaunches` | scripts/arb-runner.ts:78-99 | with only its own verdicts coming back a websocket evaluation that finds n arbs launches the smaller of n and the attempts left |
| `ArbLaunches.FillLaunches` | scripts/arb-runner.ts:62-99 | and so does one that a fill triggers |
| `ArbRunner.Runner.TryEvaluate` | scripts/arb-runner.ts:54-58 | an evaluation starts exactly when the runner is live, below its cap and, for a websocket trigger, not throttled |
| `ArbRunner.Runner.Continue` | scripts/arb-runner.ts:78-99 | the loop from one await to the next launches one execution or leaves, and exits at the cap |
| `ArbRunner.Runner.OnMessage` | scripts/arb-runner.ts:116-132 | a websocket message moves the runner as the specified step does |
| `ArbRunner.Runner.OnFill` | scripts/arb-runner.ts:138-146 | the same for an on-chain fill |
| `ArbRunner.Runner.OnVerdict` | scripts/arb-runner.ts:90-99 | the same for the return of an execution |
| `ArbRunner.Runner.OnTick` | scripts/arb-runner.ts:57 | the same for time that passes between two handlers |
| `EnvFile.Load` | scripts/_env.ts:28-39 | the loader keeps what is set and otherwise takes the first non-empty line of each key |
| `EnvFile.ReadIgnoresCr` | scripts/_env.ts:30 | splitting at CRLF or LF reads the same values |
| `EnvFile.ParseWritten` | scripts/_env.ts:16-37 | a written plain assignment parses to its key and value, also before a carriage return |
| `EnvLines.BlankExactly` | scripts/_env.ts:31-34 | a line assigns nothing if and only if it is blank, a comment, or without '=' |
| `EnvLines.QuotedReads` | scripts/_env.ts:16-20 | a value in quotes of one kind reads as the text between them, trimmed |
| `EnvLines.CommentCut` | scripts/_env.ts:21-25 | a comment behind blanks is cut off a value that does not count as quoted |
| `EnvLines.QuotesKept` | scripts/_env.ts:16-25 | a quoted value with a comment behind it keeps its quotes unless the comment ends in one |
| `EnvReplace.CopiedExactly` | scripts/derive-clob-creds.ts:52 | String.replace inserts a one-line text as it is exactly when no `$` in it is followed by `$`, `&`, a backtick or `'`, for every matched line and whatever lines surround it |
| `EnvReplace.HalvedExactly` | scripts/derive-clob-creds.ts:52 | a text whose only special pairs are `$$` gets shorter exactly when it has one |
| `EnvReplace.PairExpands` | scripts/derive-clob-creds.ts:52 | `$$`, `$&`, `` $` `` and `$'` stand for a dollar, the match and the text before and after it |
| `EnvMatch.OtherFirst` | scripts/derive-clob-creds.ts:51 | which line of another key the expression finds, and where, depends only on the lines before and after an assignment |
| `EnvMatch.OtherAligned` | scripts/derive-clob-creds.ts:51-52 | and so does whether that line is a whole line to the loader |
| `EnvRoundTrip.ReadWritten` | scripts/derive-clob-creds.ts:50-53 | the loader reads the value of an earlier line of the key that the writer does not see, or else what the line got: the value when appended, with `$$` halved when replaced |
| `EnvRoundTrip.RoundTrip` | scripts/derive-clob-creds.ts:50-53 | the written value is read back exactly when no earlier line gives another non-empty value and no `$$` of it replaces a line |
| `EnvRoundTrip.LineWrittenExactly` | scripts/derive-clob-creds.ts:52 | a replaced line becomes the very text KEY=value exactly when the value has no special pair, for every plain value |
| `EnvRoundTrip.OthersKept` | scripts/derive-clob-creds.ts:50-53 | every other plain key reads as before |
| `EnvRoundTrip.GuardsKept` | scripts/derive-clob-creds.ts:50-53 | a write leaves every other key found or not found as before, and its line a whole line if it was one |
| `EnvPatch.PatchRoundTrip` | scripts/derive-clob-creds.ts:47-58 | each of the three writes is read back exactly under its own condition on the file before the run, and every other key reads as before |
| `EnvPatch.File.PatchEnv` | scripts/derive-clob-creds.ts:47-58 | the file becomes the three writes in a row, and what is read back is what the round trip says |
| `EnvClean.CleanAligned` | scripts/derive-clob-creds.ts:51 | when all lines end in LF or CRLF every line the writer finds is a whole line to the loader |
| `EnvClean.WriteKeepsClean` | scripts/derive-clob-creds.ts:50-53 | a write leaves no lone line terminator |
| `EnvRoundTrip.OwnShadowKept` | scripts/derive-clob-creds.ts:50-53 | a write never hides the next write of the same key |
| `EnvRoundTrip.LastWriteWins` | scripts/derive-clob-creds.ts:50-53 | after two writes of one key the second reads as if alone exactly when it has no `$$`, the line was there before, or an earlier line decides |
| `EnvFailures.IndentedLineWins` | scripts/derive-clob-creds.ts:50-53 | for any key, value and rest of file an indented first line keeps its value |
| `EnvFailures.HiddenStart` | scripts/_env.ts:28-39 | when the replaced line begins behind a terminator the loader does not split at: an earlier value is read if there is one, else the written one exactly when only blanks precede it, else what follows |
| `EnvFailures.HiddenEnd` | scripts/_env.ts:16-37 | when it ends at such a terminator, and no earlier line decides, the written value is read exactly when the rest of the loader's line is blank or a comment |
| `CandleTable.Table.InsertBatch` | scripts/coindesk-backfill.ts:42-55 | one transaction adds exactly its rows and counts the new ones |
| `CandleTable.OldestRow` | scripts/coindesk-backfill.ts:57-63 | the minimum of the stored starts, or none for an empty table |
| `CoindeskBackfill.BackfillInstrument` | scripts/coindesk-backfill.ts:65-109 | the loop leaves the table, calls, stop reason and reported ends of the specified sweep, and `inserted` counts the new rows; it terminates |
| `CoindeskBackfill.EndsAreBlock` | scripts/coindesk-backfill.ts:96-99 | the reported oldest and newest are the ends of the block the sweep stores |
| `CoindeskBackfill.NextTs` | scripts/coindesk-backfill.ts:96-104 | the cursor strictly falls and leaves exactly the candles before the page |
| `CoindeskBackfill.SweepIsWalk` | scripts/coindesk-backfill.ts:82-106 | a sweep stores one contiguous block of candles that ends at its starting cursor |
| `CoindeskPages.PageExactly` | scripts/coindesk-backfill.ts:86-91 | a page holds a candle exactly when it starts at or before the cursor and the 2000th after it does not |
| `CoindeskPages.StartExactly` | scripts/coindesk-backfill.ts:75-80 | a run starts at the clock or 60 s below the oldest stored row, whichever is earlier |
| `CoindeskPages.SweepExactly` | scripts/coindesk-backfill.ts:82-106 | a run stores k steps of 2000 candles below its start and stops at the bound, after the k pages its error leaves it, or at an empty page with nothing older left; the calls are counted |
| `CoindeskPages.EndsExactly` | scripts/coindesk-backfill.ts:96-99 | the reported ends are the oldest and newest candle of the block, unless the clock or zero reach further |
| `CoindeskResume.Resumed` | scripts/coindesk-backfill.ts:75-80 | a resumed run extends the stored block downwards and leaves its newest end alone |
| `CoindeskResume.CutAndContinue` | scripts/coindesk-backfill.ts:75-106 | stopping a walk at any page and walking on from there ends where the unbroken walk ends |
| `CoindeskResume.ResumeEqualsOneRun` | scripts/coindesk-backfill.ts:65-109 | any runs cut short anywhere and resumed, the last one complete, leave exactly the table of one uninterrupted run started when the first productive one was |
| `CoindeskResume.OneRunContents` | scripts/coindesk-backfill.ts:66-106 | one uninterrupted run stores every candle above the bound up to its clock, nothing newer, and at most a page below the bound |
| `CoindeskResume.DaysCampaign` | scripts/coindesk-backfill.ts:67-80 | with a bound per run, everything above the last run's bound up to the first productive start is stored, and nothing newer ever is |
| `CandleWindows.CandleDb.BackfillAsset` | scripts/backfill-historical-candles.ts:100-155 | the loop asks for the windows and stores the rows of the specified walk; the meta row becomes the oldest candle when the walk ends by itself and stays otherwise |
| `CandleTiling.WalkTiles` | scripts/backfill-historical-candles.ts:115-148 | whatever fails or comes back empty, the windows answered are a tiling down from the start, and a walk that ends at `since` has gone past it |
| `CandleStops.WindowsExactly` | scripts/backfill-historical-candles.ts:105-148 | window k is the k-th stretch of 350 g seconds down from the start, one second apart and clamped at `since`, and asked for only above `since` |
| `CandleStops.RunExactly` | scripts/backfill-historical-candles.ts:115-153 | a run ends at the third empty answer in a row, past `since`, or where it is killed, and no earlier; it stores the rows of just those answers, and moves the meta row to the oldest candle stored unless it is killed |
| `CandleTiling.Disjoint` | scripts/backfill-historical-candles.ts:146-147 | no second is asked for twice |
| `CandleTiling.Covered` | scripts/backfill-historical-candles.ts:115-148 | every second after `since` up to the start is asked for |
| `CandleTiling.SinceMissed` | scripts/backfill-historical-candles.ts:107-147 | `since` itself is missed exactly when start - since is a multiple of 350 g + 1 |
| `CandleTiling.FullWindowStarts` | scripts/backfill-historical-candles.ts:105-107 | an unclamped window holds 350 candle starts, 351 exactly when it ends on one |
| `CandleOverflow.OverflowAt` | scripts/backfill-historical-candles.ts:105-147 | unclamped window k overflows exactly when start - k is a multiple of g |
| `CandleOverflow.OneOverflowInEvery` | scripts/backfill-historical-candles.ts:62-147 | exactly one of every g consecutive unclamped windows overflows |
| `CandleOverflow.ResumeOverflows` | scripts/backfill-historical-candles.ts:103-107 | the first full window of a resumed walk overflows |
| `CandleOverflow.OverflowMisses` | scripts/backfill-historical-candles.ts:75-81 | an answer of at most 350 rows leaves out a candle start of an overflowing window |
| `CandleOverflow.NeverRefetched` | scripts/backfill-historical-candles.ts:103-151 | once the meta row names a stored candle, no series of runs, killed or not, changes anything above it: a candle missing there stays missing |
| `CandleOverflow.NextRunDelivers` | scripts/backfill-historical-candles.ts:103-148 | the next run can store a missing candle exactly when it starts at or above it |
| `CandleOverflow.KilledRunStartsOver` | scripts/backfill-historical-candles.ts:103-152 | a killed first run leaves no meta row, and the next run stores a candle above the oldest one |
| `Mirror.Archive.CopyTable` | scripts/mirror-cache-to-passport.ts:76-104 | a pass inserts exactly the rows above the largest archived id, counts them, and terminates for every positive batch size; without an id column it does nothing |
| `Mirror.CopyIsRest` | scripts/mirror-cache-to-passport.ts:92-102 | batch after batch inserts what one big batch would |
| `MirrorRuns.BatchKeeps` | scripts/mirror-cache-to-passport.ts:93-100 | a batch keeps the archive the rows up to its largest id that were not lost |
| `MirrorRuns.ArchiveExactly` | scripts/mirror-cache-to-passport.ts:76-104 | in every run of appends, batches, crashes, passes and prunes the archive is a prefix of all rows ever appended exactly when no row was pruned before it was mirrored |
| `MirrorRuns.ArchiveIsPrefix` | scripts/mirror-cache-to-passport.ts:76-104 | with prunes of mirrored rows only it always is |
| `MirrorRuns.PassCatchesUp` | scripts/mirror-cache-to-passport.ts:92-102 | the batch that ends a pass leaves every source row archived |
| `MirrorRuns.PruneDecides` | scripts/mirror-cache-to-passport.ts:7-10 | in every reachable state a row not yet mirrored can be archived by some continuation after a prune exactly when the prune leaves it in the source |
| `SettledPaging.Backfill` | scripts/backfill-polymarket-settled.ts:195-293 | the loop scans the pages and stops for the reason of the specified walk, and counts the events |
| `SettledPaging.OldestEnd` | scripts/backfill-polymarket-settled.ts:243-248 | the loop over a page finds the end of its last event |
| `SettledPaging.WalkPages` | scripts/backfill-polymarket-settled.ts:221-293 | whatever requests fail, the pages are the first ones of the cursor sequence, and a cutoff stop has passed `since` |
| `SettledPaging.ScannedOnce` | scripts/backfill-polymarket-settled.ts:275-279 | no event is scanned twice |
| `SettledStops.RunPages` | scripts/backfill-polymarket-settled.ts:221-279 | page k holds an event exactly when it ends at or before the cursor, 1000 ms below the oldest end of page k - 1, and the hundredth before it does not |
| `SettledStops.RunExactly` | scripts/backfill-polymarket-settled.ts:218-293 | a run stops at the first page that reaches the cutoff, at the third empty answer (nothing is left then), or after maxPages requests, failed ones counted |
| `SettledStops.CountExactly` | scripts/backfill-polymarket-settled.ts:246-248 | the events scanned are counted once each |
| `SettledResume.ResumeExactly` | scripts/backfill-polymarket-settled.ts:196-202 | a resume starts at the whole second of the earliest event stored if that lies above the cutoff, else at the clock |
| `SettledPaging.CompleteExactly` | scripts/backfill-polymarket-settled.ts:270-279 | a run that stops at the cutoff has scanned every event above it exactly when, in the page sequence the list and the first cursor determine, each page the walk goes on after is followed by a gap of a second, or by nothing that counts |
| `SettledPaging.BreakSkips` | scripts/backfill-polymarket-settled.ts:275-279 | the event after a closer gap is in no page of the run |
| `SettledPaging.SpacedIsComplete` | scripts/backfill-polymarket-settled.ts:221-293 | with ends a second apart every cutoff run is complete |
| `SettledPaging.TiesAreSkipped` | scripts/backfill-polymarket-settled.ts:275-279 | of 101 events that end together the last is never scanned |
| `SettledResume.ResumeCoversExactly` | scripts/backfill-polymarket-settled.ts:195-202 | an interrupted run and a complete resumed one together leave out nothing exactly when the event after the last page scanned does not end above the resumed cursor |
| `SettledResume.ChainCoversExactly` | scripts/backfill-polymarket-settled.ts:195-202 | any number of interrupted runs and a complete last one leave out nothing exactly when every run rejoins what was scanned before it |
| `SettledResume.WholeSecondsResume` | scripts/backfill-polymarket-settled.ts:198-202 | resuming at an event that ends on a whole second leaves out nothing |
| `SettledResume.FractionIsLost` | scripts/backfill-polymarket-settled.ts:198-202 | with a fraction the floor of the stored expiry loses an event that ends with it |
| `TitleRange.GreedyIsExact` | scripts/backfill-polymarket-settled.ts:74 | reading digits and minutes greedily finds exactly what the pattern can match |
| `TitlePattern.RangeExactly` | scripts/backfill-polymarket-settled.ts:74 | a range is found at a position exactly when the pattern matches there: a time, blanks, a dash, blanks, a time, in either case |
| `TitlePattern.DurationExactly` | scripts/backfill-polymarket-settled.ts:74-88 | the duration is that of the leftmost match, in minutes with a day more when it is not positive, and a title has none exactly when nothing in it matches |
| `TitlePattern.ClassBounds` | scripts/backfill-polymarket-settled.ts:151-157 | the classes by their bounds in minutes |
| `TitleRange.MinutesBijection` | scripts/backfill-polymarket-settled.ts:84-88 | toMinutes is a bijection from clock times onto 0..1439 |
| `TitleRange.RangeRoundTrip` | scripts/backfill-polymarket-settled.ts:74-83 | printing two clock times after any quiet prefix and parsing gives the span from 1 to 1440 that leads from one to the other |
| `TitleRange.SpanUnique` | scripts/backfill-polymarket-settled.ts:80-82 | there is only one such span |
| `TitleRange.SpanExactly` | scripts/backfill-polymarket-settled.ts:74-83 | a span lies in 1..1440 exactly when the two times differ by at most a day, is LONG exactly when the second is more than a day later, and not positive exactly when it is a day or more earlier |
| `TitleRange.WellFormedSpan` | scripts/backfill-polymarket-settled.ts:151-157 | with minutes below 60 the span is in 1..1440 and the class never LONG |
| `TitleRange.ClassIsTightest` | scripts/backfill-polymarket-settled.ts:151-157 | a span gets the class with the smallest limit it fits under |
| `TitleRange.ClassMonotone` | scripts/backfill-polymarket-settled.ts:151-157 | a longer span never gets a class with a smaller limit |
| `TitleRange.MalformedMinutes` | scripts/backfill-polymarket-settled.ts:74-83 | two titles with minute 99 that parse to 1479 and -39 |
| `PnlHistory.CloseTsByCondition` | scripts/backfill-wallet-pnl-history.ts:187-202 | the two loops build the latest close of every condition |
| `PnlHistory.CloseMsIsLatest` | scripts/backfill-wallet-pnl-history.ts:187-202 | the close time is the maximum over SELL and REDEEM events, absent exactly when there is none |
| `PnlHistory.CloseMsOrderFree` | scripts/backfill-wallet-pnl-history.ts:187-202 | it does not depend on the order of the events |
| `PnlOrder.AttributionsOrderFree` | scripts/backfill-wallet-pnl-history.ts:187-242 | neither do the attributions and the three counters |
| `PnlOrder.StoredOrderFree` | scripts/backfill-wallet-pnl-history.ts:149-282 | with the positions, trades and redemptions listed in any order a run leaves the same table and reports the same counters |
| `PnlHistory.ActiveCapsulesAt` | scripts/backfill-wallet-pnl-history.ts:110-124 | exactly the capsules active at the time |
| `PnlBackfill.Ledger.AttributeOne` | scripts/backfill-wallet-pnl-history.ts:231-241 | the split of one position |
| `PnlBackfill.Ledger.JudgeOne` | scripts/backfill-wallet-pnl-history.ts:213-242 | what one position counts as, with its attributions |
| `PnlBackfill.Ledger.AttributeAll` | scripts/backfill-wallet-pnl-history.ts:208-242 | the attribution loop and its counters |
| `PnlBackfill.Ledger.Group` | scripts/backfill-wallet-pnl-history.ts:250-257 | one row per (capsule, day) that has an attribution, with the sum of its attributions |
| `PnlBackfill.Ledger.Upsert` | scripts/backfill-wallet-pnl-history.ts:275-282 | in any order of the rows the table is overwritten with the grouped values |
| `PnlBackfill.Ledger.Backfill` | scripts/backfill-wallet-pnl-history.ts:149-282 | the whole run: no capsules or a dry run change nothing, else exactly the grouped rows are overwritten |
| `PnlBackfill.AttributeTotal` | scripts/backfill-wallet-pnl-history.ts:231-241 | the parts of a position add up to its PnL, also with zero total capital or one capsule |
| `PnlShares.JudgeExactly` | scripts/backfill-wallet-pnl-history.ts:213-230 | a position with a proper PnL is attributed exactly when its last closing event is at or after the cutoff with a capsule active, before the cutoff exactly when that event is, and else an orphan |
| `PnlShares.PartsExactly` | scripts/backfill-wallet-pnl-history.ts:231-241 | with capital and two or more active capsules each gets its own part, part * total = pnl * capital; otherwise the first gets everything |
| `PnlShares.StoredShare` | scripts/backfill-wallet-pnl-history.ts:213-282 | a run writes the row of a capsule and day exactly when a counted position of that day reaches the capsule, as the sum of its shares of the positions closed that day |
| `PnlShares.ActiveUntil` | scripts/backfill-wallet-pnl-history.ts:110-124 | a paused, stopped or closed capsule is active from its activation up to and including its last update |
| `PnlBackfill.PnlConserved` | scripts/backfill-wallet-pnl-history.ts:213-260 | the written rows add up exactly to the PnL of the attributable positions |
| `PnlBackfill.CountsPartition` | scripts/backfill-wallet-pnl-history.ts:213-242 | attributable, orphan, pre-cutoff and worthless positions are all positions |
| `PnlBackfill.KeyTextInjective` | scripts/backfill-wallet-pnl-history.ts:253 | the text key identifies capsule and date |
| `PnlRerun.CutoffSplits` | scripts/backfill-wallet-pnl-history.ts:206-223 | a later cutoff drops some attributions and changes no other |
| `PnlRerun.RerunChanges` | scripts/backfill-wallet-pnl-history.ts:206-282 | a later run adds and removes no row, changes one exactly when it rewrites it after dropping shares that do not cancel, and only on the cutoff's own day |
| `PnlRerun.PartialDayOverwrites` | scripts/backfill-wallet-pnl-history.ts:220-282 | a row of 12 that becomes 7 |
| `FactoryCtl.Controller.CmdStart` | scripts/factory-ctl.ts:157-179 | start leaves the file and the processes of the specified fold over its targets |
| `FactoryCtl.Controller.CmdStop` | scripts/factory-ctl.ts:181-197 | the same for stop, which clears the pid whether or not the kill worked |
| `FactoryCtl.Controller.CmdResume` | scripts/factory-ctl.ts:199-226 | the same for resume, and the report lists as many restarts as processes were spawned |
| `FactoryWants.StopRecords` | scripts/factory-ctl.ts:181-197 | whatever the kills do, a stop records each named factory as stopped without a worker and leaves every other entry alone |
| `FactoryWants.StopEnds` | scripts/factory-ctl.ts:181-197 | it ends just the recorded workers of the named factories whose kills work |
| `FactoryWants.StartRecords` | scripts/factory-ctl.ts:157-179 | in every reachable state a start records each named factory as wanted with its live worker or a new one and one more start; a failed spawn, and every other factory, leaves the entry alone |
| `FactoryWants.ResumeRecords` | scripts/factory-ctl.ts:199-226 | in every reachable state a resume starts just the wanted factories without a live worker and changes no other entry |
| `FactoryWants.StoppedStaysStopped` | scripts/factory-ctl.ts:181-226 | after a stop no run of resumes, crashes, lost files, stops and starts of other factories, interrupted or not, adds a live process of a stopped factory or raises its start count |
| `FactoryRuns.RunKeeps` | scripts/factory-ctl.ts:128-226 | every command, interruption, crash and unreadable file keeps: a live process is either recorded for its own factory or has escaped, never both |
| `FactoryRuns.OneWorkerExactly` | scripts/factory-ctl.ts:157-197 | after every run each factory has at most one live worker and it is the recorded one, exactly if no process the file lost track of is alive |
| `FactoryGuards.HarmlessExactly` | scripts/factory-ctl.ts:157-226 | in every reachable state in which each factory has at most the recorded worker, the next step keeps it so if and only if its kills, its interruption and the workers then alive make it harmless |
| `FactoryGuards.AlwaysExactly` | scripts/factory-ctl.ts:157-226 | it holds after every step of a run if and only if every step is harmless in the state it meets |
| `FactoryRuns.CleanRunsKeepOneWorker` | scripts/factory-ctl.ts:157-226 | with working kills any starts, stops, resumes and crashes keep one worker each, and only wanted factories have one |
| `FactoryGuards.FailedKillDoubles` | scripts/factory-ctl.ts:191-194 | in every reachable state a stop of a live worker whose kill fails and a start leave two workers |
| `FactoryGuards.InterruptedStartDoubles` | scripts/factory-ctl.ts:168-178 | in every reachable state without a worker a start that dies before the write and a start leave two |
| `FactoryRuns.ResumeRestores` | scripts/factory-ctl.ts:199-224 | after a resume without spawn errors every wanted factory is alive, and stopped or living ones are untouched |
| `FactoryRuns.ResumeSpawnsOnly` | scripts/factory-ctl.ts:206-219 | resume starts a process only for a wanted factory that had none |
| `FactoryRuns.ResumeTwice` | scripts/factory-ctl.ts:199-226 | in any reachable state a second resume changes nothing |
| `FactoryRuns.StartCountsExact` | src/lib/factory/state.ts:26-27 | while no command is interrupted the start counts add up to the processes spawned |
| `WalletStream.Scanner.IngestTrade` | scripts/scan-wallet-stream.ts:56-112 | a trade moves the scanner's whole state as specified |
| `WalletStream.Scanner.CountTrade` | scripts/scan-wallet-stream.ts:82-87 | counters, and push and shift of the ring |
| `WalletStream.Scanner.FlagBot` | scripts/scan-wallet-stream.ts:100-111 | the bot flag, its time and its count |
| `WalletRing.RingIsTail` | scripts/scan-wallet-stream.ts:67-87 | the ring is the last 200 of the wallet's history and the count its length |
| `WalletRing.RingCounts` | scripts/scan-wallet-stream.ts:101-102 | on times that do not fall the ring counts the trades since a cutoff exactly, up to 200 |
| `WalletRing.RingDecidesCadence` | scripts/scan-wallet-stream.ts:100-103 | the scanner's bot test holds exactly when the threshold is at most 200, the count test holds on the whole history and the interval has passed |
| `WalletFlags.FlagsExactly` | scripts/scan-wallet-stream.ts:90-111 | on times that do not fall the flags a trade adds are a whale flag if and only if it has the size and the interval has passed since the wallet's last one, and a bot flag if and only if the threshold is at most 200, that many trades lie in the window and the interval has passed, with the count up to 200 |
| `WalletFlags.MetricsAddUp` | scripts/scan-wallet-stream.ts:67-85 | a wallet's first and last time, USD and crypto count are those of its trades |
| `WalletFlags.TotalsAddUp` | scripts/scan-wallet-stream.ts:90-105 | the two totals count the flags raised |
| `WalletRing.LateTradesHide` | scripts/scan-wallet-stream.ts:86-102 | out of order the ring can miss a trade inside the window |
| `WalletRing.FlagsApart` | scripts/scan-wallet-stream.ts:90-104 | flags of one kind on one wallet are more than the interval apart |
| `WalletRing.DefaultIsNaN` | scripts/scan-wallet-stream.ts:30 | the default interval is not a number |
| `WalletRing.SilentExactly` | scripts/scan-wallet-stream.ts:90-103 | the scanner never raises a flag, whatever is traded, exactly when the interval is not a number |
| `WalletRing.CountsAddUp` | scripts/scan-wallet-stream.ts:57-83 | the per-wallet counts add up to the activity that named a wallet |
| `ObserveWallet.Observer.constructor` | scripts/observe-wallet.ts:161-176 | start-up rebuilds the seen-set from the last seven days |
| `ObserveWallet.Observer.PollWallet` | scripts/observe-wallet.ts:111-141 | the loop over the listed trades, ended by a throw |
| `ObservePolls.PollExactly` | scripts/observe-wallet.ts:111-141 | a poll logs the new trades before the first new one that throws, once each and in order, marks all it went through as seen and ends with the exception |
| `ObserveWallet.RunKeeps` | scripts/observe-wallet.ts:111-176 | the seen-set is exactly the trades logged since a week before start-up and the dropped ones |
| `ObserveWallet.NeverTwiceInAWeek` | scripts/observe-wallet.ts:161-176 | with any restarts two classifications of one trade are more than seven days apart |
| `ObserveWallet.ClassifiedAgain` | scripts/observe-wallet.ts:113-117 | a listed trade is classified again exactly when its last classification is more than seven days older than the last start-up and it was not dropped since |
| `ObserveWallet.DroppedUntilRestart` | scripts/observe-wallet.ts:116-125 | a trade whose classification failed is not tried again before a restart |
| `ObserveWallet.RestartAfterAWeek` | scripts/observe-wallet.ts:161-168 | a run that classifies a trade twice |
| `OpportunityNotes.NoteStore.Emit` | scripts/emit-opportunity-notes.ts:57-118 | the run appends exactly the specified notes and counts emitted and filtered events |
| `OpportunityNotes.OneNoteEach` | scripts/emit-opportunity-notes.ts:72-118 | a run writes one note for each market and kind with a qualifying event and no key, and none for any other |
| `OpportunityNotes.NotesOfOne` | scripts/emit-opportunity-notes.ts:81-108 | one event gets a note, of its label and clipped title, exactly when it reaches the threshold of its kind, names a market and its key has not been seen |
| `OpportunityNotes.NotesConcat` | scripts/emit-opportunity-notes.ts:72-118 | later events are judged by the keys of the earlier ones as well |
| `OpportunityNotes.RebuiltNeverMatches` | scripts/emit-opportunity-notes.ts:65-68 | the key rebuilt from a written note is never a lookup key |
| `OpportunityNotes.RerunRepeats` | scripts/emit-opportunity-notes.ts:57-118 | a second run on the same events writes every note again |
| `Midwindow.ReconstructTicks` | scripts/backtest-midwindow.ts:101-126 | the loop over the candles yields the specified ticks |
| `Midwindow.CandleTicks` | scripts/backtest-midwindow.ts:105-123 | the nested loops yield the 30 sub-ticks and the closing tick of a candle |
| `Midwindow.RunBacktest` | scripts/backtest-midwindow.ts:141-199 | the loop over the windows yields the specified rows |
| `MidwindowTicks.TickCount` | scripts/backtest-midwindow.ts:103-124 | 31 ticks per selected candle |
| `MidwindowTicks.TicksInOrder` | scripts/backtest-midwindow.ts:101-126 | tick times rise strictly and stay inside the interval |
| `MidwindowTicks.PricesInRange` | scripts/backtest-midwindow.ts:109-123 | every price lies between low and high of the candle of its own minute |
| `MidwindowRows.TicksAlong` | scripts/backtest-midwindow.ts:105-124 | ticks run in tenths from open to high, high to low and low to close, two seconds apart, and end with the close |
| `MidwindowRows.RowExactly` | scripts/backtest-midwindow.ts:150-196 | a row holds the open, the close at T+120 s and the open at T+300 s, the strategy's side, and a hit exactly when that side is the direction of the last against the first |
| `MidwindowTicks.TicksDoNotLookAhead` | scripts/backtest-midwindow.ts:160 | histories that agree before T+120 s give the same ticks |
| `MidwindowTicks.SnapshotLooksAhead` | scripts/backtest-midwindow.ts:156-175 | histories that agree before T+120 s give the same snapshot exactly when the candle at T+120 s closes alike |
| `MidwindowTicks.SignalSeesNoMore` | scripts/backtest-midwindow.ts:160-179 | nothing after the candle at T+120 s reaches the signal |
| `MidwindowTicks.RowsAre` | scripts/backtest-midwindow.ts:150-196 | one row for each visited window that has its three candles, and no other |

## Left out

- HTTP, WebSocket, SQLite, child processes and the clock: their answers are parameters or steps.
- The routers, detectors and strategies behind `router.submit`, `detectMidwindowTrajectory` and `findSingleMarketArbs`: any result is allowed, so nothing is proved about which trades are good.
- Floating-point rounding of prices, shares and stakes.
- Numeric payload fields that are missing or not numbers, except `realizedPnl` and the flag interval; share counts and order metadata.
- Log messages and summaries.
- `CandleTable.Table.InsertBatch`: keeps only the start times of candles, because the prices are copied unchanged; INSERT OR IGNORE on a revised candle is therefore not visible.
- `EnvRoundTrip.RoundTrip`: covers values without white space that are not wrapped in quotes, as the API issues them; a replaced line whose value has `$&`, `` $` `` or `$'` takes in parts of the file and is covered by `EnvRoundTrip.LineWrittenExactly` only.
- `EnvRoundTrip.ReadWritten`: the same values as `EnvRoundTrip.RoundTrip`.
- `EnvPatch.PatchRoundTrip`: the same values for each of the three credentials.
- `EnvRoundTrip.OthersKept`: covers keys of capitals, digits and underscores, as the file uses them.
- `EnvFailures.HiddenStart`: covers text without `=` in front of the replaced line.
- `CapReached.BoundIsReached`: is proved for late-scalp; a markov order follows the Kelly share, so which caps its orders add up to depends on the odds.
- `CoindeskResume.ResumeEqualsOneRun`: needs the same lower bound in every run, as `--full` gives; `CoindeskResume.DaysCampaign` is the weaker statement for bounds that move with the clock.
- `ConsensusMidnight.SuspendedExactly`, `ConsensusMidnight.IdleExactly`: are about one worker; with several the cap is exceeded without a midnight as well.
- `SettledPaging.Backfill`: leaves out events without an end date, and the parsing of outcomes and winners of a market.
- `WalletStream.Scanner.IngestTrade`: takes numeric fields as present, and only whole decimal numbers are read from the flag interval; exponents, fractions and hexadecimal are not.
- `OpportunityNotes.NoteStore.Emit`: takes the events and notes of the look-back as given; the hours-back filters of the two queries are not modelled.
- In-place updates of source rows after they were mirrored, and the schema copy of the mirror.
- The status and monitor views of the process manager, log tails and command-line parsing.
- The seed scripts, dashboards, endpoint sweeps and aggregate reports of the repository: presentation or data.

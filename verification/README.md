# Verification of the GeneratorPi control server

GeneratorPi drives a generator's relay from a Raspberry Pi: a Flask server (`genpi/`) with a browser
panel (`genpi/frontend/app.js`). This Dafny project models the server's and the panel's stateful logic
and proves what that logic is for. `dafny verify dfyconfig.toml` checks everything.

Each module follows one part of the program. Code that changes state in place is a class with
imperative methods. Where the program's state is small (`PollQueue`, `LogFeed`, `EventLog`'s pane, `Odometer`,
`RateLimit`, `UpdateGate`, `Settings`) each method is proved equal to a step function on plain values, and the
main theorems are about arbitrary runs of those steps, with arbitrary interleavings, failures and clocks.
`UpdateRun.Machine` and `EventLog.Store` are proved against contracts on the file tree and on everything ever
recorded, `AuthCache.Authenticator` against the uncached rule and the cache it leaves.

| module | models | main results |
|---|---|---|
| `UpdateRun` | the self-update transaction on disk; every file operation may work, raise, be torn, or silently write other data | while no copy silently lands other data, an interrupted swap leaves each file wholly old or new; rollback undoes it whatever landed; where pruning has room for the new archive, a run ends installed or restored whenever the rollback's own operations work, in particular whenever at most one operation of the whole run fails; where it has none, exactly how the tree is left |
| `UpdateGate` | start endpoint, worker and go/no-go gate, one step per lock section, `event.clear`, `event.set` and `event.wait` | at most one worker; a swap starts only from a park that allowed it and was answered "proceed"; exactly which decisions are delivered |
| `VersionGate` | version tuples and the incompatible-version gate | the order is total; no run of accepted updates crosses a known gate |
| `PollQueue` | the panel's single-flight poll queue with coalescing and ageing | no starvation as a bounded bypass; every call is answered once; when a job can overtake another |
| `LogFeed` | the backward block reader, the byte-cursor delta and the panel's view | tail and view equal the whole-file definition after every poll of a growing log; over every interleaving of calls and answers, exactly when the view stays exact |
| `EventLog` | the capped event table and the panel's two-ended paging | the table is the newest contiguous suffix; exactly when the panel stays gap-free and duplicate-free, over every interleaving |
| `Odometer` | run-hours, fuel model, low-fuel alert | both accounts agree with independent bookkeeping over every history; one alert per run |
| `RateLimit` | the login limiter, with any number of requests verified at once | the exact number of failures a lockout window can hold, and that it holds if and only if lockout <= clean-up interval |
| `AuthCache` | the password-verification cache | the cache is invisible, bounded, and its keys do not collide |
| `Settings` | the settings file: parse, hash, provision, rewrite | exactly when a restart finds what the last one left; the file reaches a fixed point, or every start generates anew |
| `PyString`, `Prelude` | Python string operations and shared definitions | strip, split and join laws the other modules rest on |

## Hypotheses

- **Update.** Manifest paths are normalised, each absent or a regular file, none is `__added__.json` and
  none lies under `backups/` or `.update_staging/`; no manifest path or existing file is another
  manifest path plus `.gpnew` (`TempsApart`); nothing else writes these files during a run. SHA-256
  is an injective function. `os.replace` is atomic. Restoring after a failure also needs `HasRoom`:
  fewer than 20 other archives come before the new one when `backups/` is sorted by time, newest first,
  with equal times in listing order (names have different places in the listing). Wholly old or wholly
  new file by file (`Honest`) is for swaps in which no file operation reports success although other data
  landed; such a swap is caught by the re-hash and rolled back, and touches no other path.
- **Log.** `\n` is the only line break, and the log only grows between resets.
- **Clocks** do not go back. The odometer and the fuel model use real arithmetic, from a stored state
  whose base is not negative and whose fill mark is not past the odometer.
- **Limiter.** No request from the observed address succeeds, and its entry is not evicted for lack of
  room. `width` of its requests may be past the limiter and in verification at once (1: they come one
  after the other); requests from other addresses are arbitrary.
- **Cache.** The MAC is injective; names and stored hashes contain no NUL, passwords may.
- **Settings.** Generated hashes carry a known prefix, and generated values have no white space at their
  ends and no line break; freshly generated private keys differ; push support does not become
  available between two starts. A plaintext password that itself begins with `scrypt:` or `pbkdf2:` counts as
  a hash, as in the code. The wording of the comment blocks written above new keys is a parameter.

## Where the code differs from its documentation or its aim

Each of these is proved, with an input that shows it and the exact condition under which the code does
meet its aim.

- `loadAppLog` and `loadNewEvents` put the cursor into the path when they are called. A call made while
  the previous request is in flight is queued with the old cursor, and its reply shows rows twice, or, if
  its read fails or brings nothing, takes the cursor back (`LogFeed.StaleCursorExactly`,
  `LogFeed.StaleCursorPlainly`, `LogFeed.StaleRunDuplicates`, `EventLog.StaleRunDuplicates`). Calls kept
  apart never do (`LogFeed.CallsApartStayExact`).
- A newer-poll that finds more than a page of new events, or that comes after eviction, leaves a gap
  (`EventLog.NewerKeepsConsecutiveExactly`, `EventLog.BurstLeavesGap`, `EventLog.EvictionLeavesGap`).
- The filtered log tail says its cursor is that of the unfiltered one. It is 0 instead when the scanned
  window holds no newline and the file does (`LogFeed.MeaningfulTailIsExact`,
  `LogFeed.FilteredCursorFallsToZero`).
- The login limiter lets one failure more into a lockout window for each further request of the address
  that is verified at the same time, since all of them pass before the first one fails
  (`RateLimit.WindowBound`, `RateLimit.BoundIsReached`); and the bound fails altogether when the clean-up
  interval is shorter than the lockout (`RateLimit.WindowBoundExactly`).
- An odometer correction below the run since the last fill moves the fuel gauge
  (`Odometer.CorrectionExactly`, `Odometer.FuelModelIsExact`, `Odometer.LowEntryMovesGauge`). The code's
  comment admits this corner.
- VAPID provisioning fills the first line naming a key while the parser reads the last. After a start
  that generated a pair, every further start generates a new one if and only if a later line still
  assigns the private key, which can only be an empty one (`Settings.NextStartGeneratesExactly`,
  `Settings.EveryStartGenerates`, `Settings.LeftOverKeyNeverSettles`). A later line assigning the public
  key is read instead of the generated one (`Settings.ShadowedPublicKeyIsRead`, `Settings.RestartExactly`).
- Switching to the application log while an older page is in flight lets that page land on the log lines,
  since `loadOlderEvents` does not look at the view (`EventLog.SwitchRunStrays`). The panel shows what it
  should throughout if and only if every arriving reply joins it (`EventLog.PaneIsFaithfulExactly`).
- `_update_decision_event.clear()` follows the release of the lock. The worker goes on to the swap if and only
  if its park ends by a wake, allows it, and the last decision made is "proceed"; and a park can end by a
  wake if and only if a handler's `event.set` falls within the wait. A "proceed" made and signalled before
  the clear is lost and times out to "revert" (`UpdateGate.WakesExactly`, `UpdateGate.DeliveredExactly`,
  `UpdateGate.LostDecision`). Safety is unaffected.
- `_prune_backups` sorts by modification time. If its operations work, the new archive is kept if and only if
  fewer than 20 others come before it (`HasRoom`). Otherwise, as after a clock that was set back, it is
  deleted at once, a later rollback has nothing to open, and a failed swap stays on disk
  (`UpdateRun.Machine.MakeBackup`, `UpdateRun.Machine.RunUpdate`, `UpdateRun.MixedTree`).

## Model

| member | source | states |
|---|---|---|
| `UpdateRun.Machine.RunUpdate` | genpi/updater.py:749-1022 | a run ends with all live manifest files carrying the manifest's digests; or, where pruning has room for the new archive, with every manifest path's earlier contents or absence if the rollback's operations (the last ones of the run, counted exactly) work, or if at most one operation of the run fails; without room, and with at most one operation failing, there is no archive to roll back from, and a rename raising at file k leaves the first k files new and the others old; nothing else but `.gpnew` temporaries changes, and no absolute path, `.env`, `.pem` or `.key` file ever; a restart means every gate was passed and every live Python file of the manifest compiles; a refused, reverted or unusable release changes nothing; a run in which everything works restarts |
| `UpdateRun.MixedTree` | genpi/updater.py:546-610 | a concrete two-file run with later-dated archives and one raised rename: one file new, one old, no restart and no rollback |
| `UpdateRun.Machine.Attempt` | genpi/updater.py:770-1000 | the live tree is touched only past every gate, with a verified archive of the old tree made first; once armed, the attempt raises only if some operation failed |
| `UpdateRun.Machine.Prepare` | genpi/updater.py:770-925 | going ahead means an applicable manifest, an operator's "proceed", a staged tree with the manifest's digests and an archive of the untouched live tree; nothing live changes; if everything outside is in order and no operation fails it does go ahead |
| `UpdateRun.Machine.Apply` | genpi/updater.py:969-1002 | success means every live manifest file carries its digest; a failure means some operation did not work |
| `UpdateRun.Machine.Swap` | genpi/updater.py:562-588 | after every single file operation, and wherever it stops, other paths are untouched, and, if none of the swap's operations silently landed other data, each manifest path is wholly old or wholly new; a rename raising at file k leaves exactly the files before it new |
| `UpdateRun.Machine.SwapOne` | genpi/updater.py:571-585 | one file's copy and rename never touches another path, and never exposes a half-written live file unless one of its own operations silently landed other data |
| `UpdateRun.Machine.MakeBackup` | genpi/updater.py:514-543 | a success means the archive, if still there, holds exactly the present manifest files, read back intact, and lists exactly the absent ones; with room it is still there, and if every operation works it is there if and only if there was room |
| `UpdateRun.Machine.VerifyEntries` | genpi/updater.py:534-541 | passes only if every archived file has the live file's digest, and does pass when the contents agree and no read fails |
| `UpdateRun.Machine.PruneBackups` | genpi/updater.py:546-559 | an archive with fewer than 20 others before it is never deleted, whatever fails, the listing and the times included; if every operation works exactly those archives remain |
| `UpdateRun.KeptAreFirst` | genpi/updater.py:551-554 | the first 20 of the stable sort are exactly the archives with fewer than 20 others before them |
| `UpdateRun.Machine.Rollback` | genpi/updater.py:591-610 | it is clean exactly when the archive is there and each of its operations works; then added files are gone and archived ones restored; whatever fails, nothing outside the archive's paths is touched, and without an archive nothing at all |
| `UpdateRun.RollbackUndoesAnything` | genpi/updater.py:591-610 | from any tree whatsoever, a clean rollback restores contents and presence of every manifest path |
| `UpdateRun.InterruptedSwapIsUndone` | genpi/updater.py:562-610 | stop the swap after any operation, whatever landed in the files being written: rolling back from there restores every manifest path and disturbs no other file |
| `UpdateRun.SwapWasDecided` | genpi/updater.py:914-925 | the decision a swapping worker's run gets from its park is "proceed", written by an operator during that park |
| `UpdateRun.OldOrNewStep` | genpi/updater.py:571-582 | swapping one more file keeps every path wholly old or wholly new |
| `UpdateRun.Machine.DownloadAndVerify` | genpi/updater.py:355-404 | success means every staged file has the manifest's digest and every staged script compiles; good downloads always get there |
| `UpdateRun.Machine.VerifySwap` | genpi/updater.py:977-986 | passes exactly on live files that all carry the manifest's digests, reads permitting |
| `UpdateRun.SafePathStaysInside` | genpi/updater.py:414-425 | an accepted manifest path is not absolute and leads somewhere below the project root |
| `UpdateRun.SafePathExactly` | genpi/updater.py:408-425 | a manifest path is accepted if and only if it is not empty or absolute, has no ".." between slashes, and does not end in .env, .pem or .key in any mixture of cases |
| `UpdateGate.Gate.Park` | genpi/updater.py:211-215 | parking forgets any earlier decision |
| `UpdateGate.Gate.ReadDecision` | genpi/updater.py:217-222 | a time-out or a missing choice reads as "revert", and no decision stays pending |
| `UpdateGate.Gate.Start` | genpi/routes/update.py:68-80 | accepted exactly in a terminal phase, which it leaves in the same lock section |
| `UpdateGate.Gate.Decide` | genpi/routes/update.py:83-102 | recorded only while a park waits, and "proceed" only if that park allows it |
| `UpdateGate.StepKeepsInv` | genpi/updater.py:198-224 | every atomic step of worker, start and decide handlers keeps the gate's invariant |
| `UpdateGate.RunKeepsInv` | genpi/updater.py:198-224 | the invariant holds after every interleaving |
| `UpdateGate.AtMostOneWorker` | genpi/routes/update.py:68-80 | for any number of concurrent starts at most one worker is alive, and a terminal phase is visible only when none has work left |
| `UpdateGate.ProceedIsDeliberate` | genpi/updater.py:198-224 | a park returns "proceed" only if a handler wrote it during that same park and the park allowed it, delayed `event.set` calls included |
| `UpdateGate.ApplyingWasAllowed` | genpi/updater.py:906-926 | a worker past the go/no-go got there straight from such a return of its own park |
| `UpdateGate.ReturnsOnce` | genpi/updater.py:198-224 | each park returns at most one decision |
| `UpdateGate.WakesExactly` | genpi/updater.py:211-217 | once the event is cleared, the wait can end by a wake if and only if some handler's `event.set` follows the clear |
| `UpdateGate.DeliveredExactly` | genpi/updater.py:211-224 | for every park and whatever handlers do before, during and after the wait: it returns the last decision asked for, downgraded where "proceed" is not allowed, if it ends by a wake, and "revert" otherwise; the worker goes on to the swap exactly on a woken, allowed, last-asked "proceed" |
| `UpdateGate.LostDecision` | genpi/updater.py:211-222 | from the initial state, a legal run in which an operator's "proceed" is recorded and signalled before the clear: no wake is possible any more and the park reverts |
| `UpdateGate.DecisionCanBeLost` | genpi/updater.py:211-222 | the same from any state in which a recorded "proceed" has no signal left to come |
| `UpdateGate.OnlyStagedProceeds` | genpi/updater.py:841-848 | a park after a gated release or an error reads as "revert", whoever asks for what |
| `UpdateGate.StartsExactly` | genpi/routes/update.py:68-80 | after every run a start is accepted if and only if the phase is idle, done or failed; a second one is then refused |
| `UpdateGate.ConcludedCanRestart` | genpi/updater.py:1003-1022 | a run that failed leaves the phase "failed", no worker at work, and the updater ready to start |
| `VersionGate.LessIsTotal` | genpi/updater.py:55-64 | versions are totally and strictly ordered |
| `VersionGate.LessIsTransitive` | genpi/updater.py:55-64 | the order is transitive |
| `VersionGate.AcceptsExactly` | genpi/updater.py:797-848 | an update is accepted if and only if no declared gate, in whatever shape the field has, read as dotted numbers is larger than the installed version without being larger than the offered one |
| `VersionGate.LessExactly` | genpi/updater.py:55-64 | one version is smaller than another if and only if, after their longest common beginning, it ends first or has the smaller number |
| `VersionGate.TupleOfDotted` | genpi/updater.py:55-64 | component i of a version is the number in its i-th dotted part, 0 where that is none |
| `VersionGate.EveryTextIsDotted` | genpi/updater.py:55-64 | every text is dot-free parts joined by dots, so this covers all of them |
| `VersionGate.GateSpelling` | genpi/updater.py:804-810 | white space around a gate and a v before it make no difference |
| `VersionGate.GateBlocks` | genpi/updater.py:797-848 | a gate at 1.5, in any shape and spelling, keeps 1.0 from 1.5 and 2.0 and lets 1.5 go on |
| `VersionGate.NoGateIsCrossed` | genpi/updater.py:786-848 | along any run of accepted updates with append-only gates, downward steps included, no gate known at the start lies between first and any later version |
| `VersionGate.AcceptedUpdateKeepsSides` | genpi/updater.py:797-816 | an accepted upgrade leaves every known gate on the same side of old and new version |
| `PollQueue.Poller.PollFetch` | genpi/frontend/app.js:75-84 | a call is turned away, coalesced into the waiting job of its key with that job's place kept, or queued; the new state is the specified one |
| `PollQueue.Poller.DrainPollQ` | genpi/frontend/app.js:85-111 | the scan dispatches the specified pick, once, and only when nothing is in flight |
| `PollQueue.Poller.Finish` | genpi/frontend/app.js:107-110 | the end of a request answers its caller and dispatches the next job |
| `PollQueue.PickIsMostUrgent` | genpi/frontend/app.js:96-103 | the pick is minimal in aged priority and enqueue time, and first among equals |
| `PollQueue.StepKeepsInv` | genpi/frontend/app.js:75-111 | every event keeps at most one queued job per key, and nothing queued without a request in flight |
| `PollQueue.RunKeepsInv` | genpi/frontend/app.js:75-111 | so does every run |
| `PollQueue.EveryCallAccountedFor` | genpi/frontend/app.js:75-111 | over any run the calls made are exactly those resolved, queued or in flight: none is lost, none answered twice |
| `PollQueue.NewestCallWins` | genpi/frontend/app.js:78-80 | what waits under a key always carries the latest call's path and caller |
| `PollQueue.RunFollowsDesk` | genpi/frontend/app.js:75-110 | over every run the queue is a desk with one record per key: a call for a waiting key keeps its time and replaces the rest; what is sent is the record as it stands there; only "state" passes a pause; the caller in flight gets the answer, one turned away or replaced gets nothing |
| `PollQueue.AnswersReachCallers` | genpi/frontend/app.js:107-110 | over every run the data that arrive, in order, are exactly what the callers of the jobs sent get, in order; every other resolution is empty |
| `PollQueue.ControlGoesFirst` | genpi/frontend/app.js:58-99 | where nothing has waited a second, "state" goes before everything, "events" and "logs" before "sys", these before any other key |
| `PollQueue.OvertakesExactly` | genpi/frontend/app.js:90-103 | a job can be served before another if and only if it was enqueued less than the difference in base priority, in ageing intervals, after it |
| `PollQueue.FastLinkIsStrictPriority` | genpi/frontend/app.js:94-95 | while nothing has waited a whole interval, service is by strict priority, first come first served within a level |
| `PollQueue.PickIsARival` | genpi/frontend/app.js:90-103 | once a job has waited its base priority times the interval, nothing enqueued since is picked before it |
| `PollQueue.NoStarvation` | genpi/frontend/app.js:90-103 | from then on the requests served before it are at most the jobs of other keys already queued by then |
| `PollQueue.BoundedBypass` | genpi/frontend/app.js:90-103 | that is, at most one more job of each other key |
| `LogFeed.ReadTailBlock` | genpi/routes/core.py:257-279 | for every block size, a suffix of the file that is the whole of it or holds more than n newlines |
| `LogFeed.TailIsExact` | genpi/routes/core.py:257-307 | any such suffix yields exactly the file's last min(n, count) complete lines and the offset past its last newline |
| `LogFeed.TailLines` | genpi/routes/core.py:292-307 | block reading and extraction together give the whole-file answer, whatever the block size |
| `LogFeed.DeltaIsExact` | genpi/routes/core.py:310-331 | the delta is the complete lines of the range, capped to the newest n, with the cursor after the last of them |
| `LogFeed.SplitIsLines` | genpi/routes/core.py:328 | splitting at every newline agrees with the complete-line definition |
| `LogFeed.SplitLinesOfWhole` | genpi/routes/core.py:307 | so does splitlines() on text that ends in a newline |
| `LogFeed.LinesSplit` | genpi/routes/core.py:310-331 | cutting a file at a line start splits its lines and loses none |
| `LogFeed.CountIsLineCount` | genpi/routes/core.py:271 | the newline count the reader stops on is the number of complete lines |
| `LogFeed.LinesRebuild` | genpi/routes/core.py:292-331 | the complete lines hold no newline, and written out again give the file up to its last one |
| `LogFeed.ApiLogs` | genpi/routes/core.py:421-453 | the reply is the one specified on the whole file for every cursor, valid or not, and every failure of stat or read |
| `LogFeed.UnusableCursorGivesTail` | genpi/routes/core.py:421-447 | without a cursor, or with a negative one or one past the end, the reply is the newest lines, between 1 and 1000 of them as asked for; with one at the end it is empty |
| `LogFeed.LogPane.Receive` | genpi/frontend/app.js:330-343 | the row loops leave the reply's lines, newest first, over the earlier rows, capped at 1000 |
| `LogFeed.PollKeepsExact` | genpi/routes/core.py:421-453 | a poll of a growing log leaves the rows exactly the newest 1000 complete lines up to the cursor, whatever fails; one that sees the whole file leaves none out |
| `LogFeed.ResetIsExact` | genpi/routes/core.py:435-440 | a full-tail reply, as after a rotation that leaves the cursor past the end, makes the rows exact from any earlier view |
| `LogFeed.FeedIsExact` | genpi/frontend/app.js:328-343 | any number of such polls does, however much arrives between them |
| `LogFeed.StaleCursorExactly` | genpi/frontend/app.js:328-343 | any reply, to any cursor and whatever of stat and read has failed, keeps an exact view exact if and only if it is a full tail or the rows left below it are the right ones |
| `LogFeed.StaleCursorPlainly` | genpi/frontend/app.js:328-343 | in terms of the reply alone: a full tail, equal cursors or a panel filled by the delta always suffice, and are necessary when the newest lines before the two cursors differ |
| `LogFeed.StaleFailureMovesBack` | genpi/routes/core.py:317-318 | a stale request whose read fails keeps the rows and takes the cursor back |
| `LogFeed.FeedIsExactExactly` | genpi/frontend/app.js:328-343 | over every interleaving of calls with captured cursors, coalescing, late dispatch, answers and lost requests, the view is exact throughout if and only if every answer fits |
| `LogFeed.CallsApartStayExact` | genpi/frontend/app.js:75-84 | if no call is made while a log request is in flight, the view is exact throughout |
| `LogFeed.StaleRunDuplicates` | genpi/frontend/app.js:328-343 | the smallest run from an exact view in which a line is shown twice |
| `LogFeed.StaleCursorDuplicates` | genpi/frontend/app.js:328-341 | its two replies |
| `LogFeed.MeaningfulTailIsExact` | genpi/routes/core.py:360-390 | the filtered tail consists of the newest n lines of the scanned window that are not routine, or all there are, in order and none left out; its cursor is the unfiltered one if and only if the window holds the last newline or there is none |
| `LogFeed.EventIsShown` | genpi/routes/core.py:360-390 | of an event line and a routine poll line the event is shown |
| `LogFeed.FilteredCursorFallsToZero` | genpi/routes/core.py:380-381 | a file and window for which the filtered cursor is 0 and the unfiltered one is not |
| `EventLog.Store.RecordEvent` | genpi/store.py:155-178 | recording keeps the table the newest contiguous part of everything recorded, at most the cap |
| `EventLog.Store.ReadEvents` | genpi/routes/core.py:155-168 | a page is, of everything ever recorded, the newest events still stored below `before`, or else above `after`, between 1 and 1000 of them as asked for; with the latest sequence number |
| `EventLog.PageIs` | genpi/store.py:184-217 | the same of the query itself, whatever the request asks for |
| `EventLog.ServedIs` | genpi/frontend/app.js:271-275 | each of the panel's requests gets the newest 100 stored events below or above its cursor |
| `EventLog.RecordKeepsSuffix` | genpi/store.py:167-178 | insertion and eviction keep the table a contiguous newest suffix of the history, of exactly the expected size |
| `EventLog.StoreIsNewest` | genpi/store.py:155-178 | after any history the table is exactly the newest min(all, cap) events |
| `EventLog.PageAfter` | genpi/store.py:193-217 | a page after a cursor is the newest stored events beyond it |
| `EventLog.PageBefore` | genpi/store.py:193-217 | a page before a cursor is the stored events just below it, empty once they are evicted |
| `EventLog.PageLatest` | genpi/store.py:193-217 | a page without cursor is the newest stored events |
| `EventLog.EventPane.ReceiveInitial` | genpi/frontend/app.js:271-272 | the first page replaces the rows and sets both cursors, unless the log is shown |
| `EventLog.EventPane.ReceiveNewer` | genpi/frontend/app.js:274 | newer events end up above the rows in order, and only the upper cursor moves, unless the log is shown |
| `EventLog.EventPane.ReceiveOlder` | genpi/frontend/app.js:275 | older events end up below, and only the lower cursor moves, whatever is shown |
| `EventLog.EventPane.SetLogView` | genpi/frontend/app.js:353-370 | a switch clears the rows, and a return to the events forgets both cursors |
| `EventLog.StepKeepsInv` | genpi/frontend/app.js:271-275 | recordings, evictions, careful polls and arriving replies each keep the pane and the replies under way faithful |
| `EventLog.PaneIsFaithful` | genpi/frontend/app.js:271-275 | if no newer-poll is called while one is in flight, each is served with at most a page of events new, and the view is switched with nothing under way, then under every interleaving the rows are throughout the recorded events from newest to oldest cursor, each once, without a gap (and none over the log) |
| `EventLog.PaneIsFaithfulExactly` | genpi/frontend/app.js:271-275 | under every interleaving, overlapping calls, bursts, evictions and view switches with replies under way included, they are if and only if every arriving reply joins the panel |
| `EventLog.JoinsExactly` | genpi/frontend/app.js:271-275 | a single step keeps the panel right if and only if the reply it brings ends right above or begins right below the rows, is a first page that is not empty, or is kept off the log |
| `EventLog.StaleRunDuplicates` | genpi/frontend/app.js:274 | a legal run from an empty store in which a second call made in flight shows an event twice |
| `EventLog.SwitchRunStrays` | genpi/frontend/app.js:275 | a legal run in which an older page lands on the log lines after a switch |
| `EventLog.NewerKeepsConsecutiveExactly` | genpi/frontend/app.js:274 | a newer-poll keeps the rows consecutive if and only if it brings nothing or the newest event it does not bring is the pane's newest |
| `EventLog.BurstLeavesGap` | genpi/frontend/app.js:274 | 101 events between two polls: one is never shown |
| `EventLog.EvictionLeavesGap` | genpi/frontend/app.js:274 | an event evicted before it is asked for is never shown |
| `EventLog.StaleCursorDuplicates` | genpi/frontend/app.js:274 | its two replies |
| `Odometer.Controller.LiveTotal` | genpi/state.py:114-122 | the live total is the specified one |
| `Odometer.Controller.ApplyRunningTransition` | genpi/state.py:125-146 | a transition banks or starts a run as specified and leaves all else alone |
| `Odometer.Controller.SetTotalRunHours` | genpi/state.py:156-201 | a correction sets base, run start and fill mark as specified and returns the old live total |
| `Odometer.Controller.ProjectedLevel` | genpi/fuel.py:47-52 | the level is the linear model's |
| `Odometer.Controller.EvaluateLowFuel` | genpi/fuel.py:66-93 | flag and action are those specified for every combination of switches, level and flag |
| `Odometer.Controller.RecordFuelReading` | genpi/fuel.py:116-153 | a reading changes the rate alone, or nothing when too early |
| `Odometer.Controller.SetFuelRate` | genpi/fuel.py:156-166 | only the rate changes, to within a twentieth of the one asked for and never below the floor |
| `Odometer.Controller.ResetFuelRate` | genpi/fuel.py:169-178 | only the rate changes, back to within a twentieth of the default |
| `Odometer.Controller.SetFuelFill` | genpi/fuel.py:181-194 | a fill moves level and mark and re-arms the alert |
| `Odometer.Controller.SetAlerts` | genpi/fuel.py:197-212 | each option changes its own setting only; the threshold stays within 5..40 and is the one asked for, truncated, where that is in range |
| `Odometer.OdometerIsExact` | genpi/state.py:114-201 | over every history the live odometer is the last entered value or initial total plus all time run since, and the stored base is never negative |
| `Odometer.FuelModelIsExact` | genpi/state.py:180-193 | the modelled run since the fill is the time really run if and only if each correction since the fill was at least the modelled run it found; the level is then the linear model's |
| `Odometer.CorrectionExactly` | genpi/state.py:156-201 | after a correction the odometer reads the entered value, and the run since the fill is kept if and only if the entry is at least that |
| `Odometer.LowEntryMovesGauge` | genpi/state.py:192-196 | an entry of 1 hour after 10 hours run makes the gauge jump from 50 to 95 percent |
| `Odometer.RepeatedMarkIsIdle` | genpi/state.py:125-146 | marking the state already marked counts nothing twice and restarts no run |
| `Odometer.PushesBoundedByClears` | genpi/fuel.py:60-93 | over every history pushes and clearings of the flag alternate |
| `Odometer.LevelNeverRises` | genpi/fuel.py:47-52 | with only time passing the projected level never rises |
| `Odometer.NoSecondPush` | genpi/fuel.py:60-93 | once pushed, no evaluation of the same run pushes again |
| `Odometer.OnePushPerRun` | genpi/fuel.py:60-93 | during an uninterrupted run at most one alert is pushed, however often it is evaluated |
| `Odometer.PushedExactly` | genpi/fuel.py:60-93 | during an uninterrupted run with alerting on, an alert is pushed, and then once, if and only if some evaluation comes when the linear model, on the time really run since the fill, is at or below the threshold |
| `Odometer.FlagMovesExactly` | genpi/fuel.py:66-93 | the edge flag is set exactly by an evaluation at or below the threshold with everything on and the engine running, and each setting is a push; it is cleared exactly by a fill, a stopped engine or a level more than 5 above the threshold |
| `Odometer.SettingsMoveExactly` | genpi/fuel.py:156-212 | in a history every setting event moves its own setting only, to what was asked for |
| `Odometer.EnteredExactly` | genpi/state.py:177 | an odometer entry is stored to the nearest thousandth of an hour, between 0 and a million |
| `Odometer.RateKeepsFloor` | genpi/fuel.py:116-178 | no history brings the drain rate below 0.1 |
| `Odometer.ReadingHalvesError` | genpi/fuel.py:116-153 | a trusted reading moves the rate half-way to the one it implies, to the nearest tenth; one taken within three minutes of engine time after the fill changes nothing |
| `RateLimit.Limiter.CleanupTracker` | genpi/ratelimit.py:30-44 | the purge removes exactly the expired and idle entries, and only when due |
| `RateLimit.Limiter.IsRateLimited` | genpi/ratelimit.py:49-61 | tracker and remaining time are those specified |
| `RateLimit.Limiter.Oldest` | genpi/ratelimit.py:69 | the eviction victim is a least recently failing address |
| `RateLimit.Limiter.RecordFailure` | genpi/ratelimit.py:64-86 | a failure counts for its address alone, evicting only at the cap and then an oldest entry |
| `RateLimit.Limiter.RecordSuccess` | genpi/ratelimit.py:89-93 | a success forgets that address alone |
| `RateLimit.Limiter.AuthRequired` | genpi/auth.py:127-187 | a locked-out address is turned away even with a valid key, and a failure is recorded only when key and password both fail |
| `RateLimit.WindowBound` | genpi/ratelimit.py:30-86 | however clean-ups and other addresses interleave, any window of the lockout's length holds at most the configured failures of one address, plus one for each further request verified at once |
| `RateLimit.BoundIsReached` | genpi/auth.py:127-175 | that number is reached, so it cannot be lowered |
| `RateLimit.WindowBoundExactly` | genpi/ratelimit.py:30-86 | the bound holds on every run if and only if the lockout is no longer than the clean-up interval |
| `RateLimit.StepKeeps` | genpi/ratelimit.py:30-93 | what the tracker has forgotten of an address always lies a lockout back, and whoever is still in verification fits under the bound |
| `RateLimit.SpacedBoundsWindow` | genpi/ratelimit.py:64-86 | if any m + 1 consecutive failures span a lockout, no window of that length holds more than m |
| `RateLimit.ScriptIsLegal` | genpi/ratelimit.py:30-86 | the run that fills a window to the bound, and past it when the clean-up comes before the lockout ends |
| `RateLimit.TrackerIsCapped` | genpi/ratelimit.py:64-86 | no operation lets the tracker outgrow its cap |
| `RateLimit.CleanupExactly` | genpi/ratelimit.py:30-44 | a due clean-up drops exactly the entries whose lock has run out or that lie idle for more than the interval |
| `RateLimit.FailuresCount` | genpi/ratelimit.py:64-86 | failures of a new address are counted from one, lock it from the limit on, and touch nobody else |
| `RateLimit.LockedExactly` | genpi/ratelimit.py:49-86 | after n failures a request is turned away if and only if n reaches the limit, the lockout since the last one has not run out and no clean-up has dropped the entry; it is told the time left |
| `RateLimit.SuccessStartsAfresh` | genpi/ratelimit.py:89-93 | after a success failures count from one again, and every other address is as before |
| `RateLimit.FailureSparesOthers` | genpi/ratelimit.py:64-86 | only a new address that finds the tracker full costs another one its entry |
| `AuthCache.Authenticator.AuthCacheKey` | genpi/auth.py:63-70 | the parts fed one by one give the MAC of the encoded triple |
| `AuthCache.Authenticator.CheckAuth` | genpi/auth.py:73-97 | the answer is whether the user exists and the password verifies against the current hash, hit or miss; a hit costs no scrypt; only successes are remembered, 256 at most |
| `AuthCache.Authenticator.PurgeExpired` | genpi/auth.py:91-92 | exactly the expired entries go |
| `AuthCache.KeyInputInjective` | genpi/auth.py:63-70 | equal key inputs come from equal credentials |
| `AuthCache.NulInNameCollides` | genpi/auth.py:63-70 | a NUL in a name would make two different credentials collide |
| `AuthCache.HitIsRight` | genpi/auth.py:76-84 | a hit agrees with the current credentials, also after a password change or deletion |
| `AuthCache.KeepKeepsInv` | genpi/auth.py:88-96 | the cache holds only verified credentials and at most 256 of them |
| `AuthCache.CacheIsInvisible` | genpi/auth.py:73-97 | over any interleaved history of calls, clocks and credential changes every cached answer is the uncached one |
| `AuthCache.SuccessIsRemembered` | genpi/auth.py:88-96 | a success is remembered for exactly its time to live, a failure never |
| `AuthCache.SuccessForgetsNobody` | genpi/auth.py:88-96 | a new success costs no live entry its place unless 256 live ones are held, and no entry at all while there is room |
| `Settings.Loader.ParseEnvFile` | genpi/config.py:151-347 | credentials, configuration and rewritten text are those of the specified parse, for a missing file too |
| `Settings.UsersExactly` | genpi/config.py:168-204 | u may log in after a start if and only if some line assigns a value to USER_u, with the value of the last such line if it is a hash, or the hash made of it for that line |
| `Settings.HashExactly` | genpi/config.py:148-199 | a value is a hash if and only if it begins with `scrypt:` or `pbkdf2:` |
| `Settings.SettingExactly` | genpi/config.py:214-238 | every ordinary setting has the value of the last line that assigns it a readable one, or its default |
| `Settings.CastExactly` | genpi/config.py:214-238 | on/off words in any case, whole numbers, numbers and text are read as such, and anything else is refused |
| `Settings.ApiKeyExactly` | genpi/config.py:205-264 | the API key is the first that is not empty; with none it is generated where keys are enabled |
| `Settings.VapidExactly` | genpi/config.py:270-287 | the VAPID keys are those assigned last, or a generated pair where the private one is empty and push is available |
| `Settings.UpsertExactly` | genpi/config.py:248-313 | filling in a key touches the first line naming it and no other, or appends it after its block |
| `Settings.Loader.UpsertLine` | genpi/config.py:289-295 | fills the first line naming the key, or appends |
| `Settings.ClassifyByField` | genpi/config.py:171-187 | the scan's reading of a line and the reading provisioning uses agree on every line |
| `Settings.WrittenReadsBack` | genpi/config.py:186-204 | a line written for a key and value is read back as that key and value |
| `Settings.ScanIsIdempotent` | genpi/config.py:168-238 | scanning what a scan left reproduces it exactly with nothing to rewrite |
| `Settings.ScanOfHashed` | genpi/config.py:206-217 | a rescan keeps every line but the duplicate API_KEY lines |
| `Settings.FilledKeyIsRead` | genpi/config.py:243-264 | the file with the generated API key filled in reads as before, plus that key |
| `Settings.FilledSettingIsRead` | genpi/config.py:289-313 | the file with a VAPID line filled in reads as before but for that key, whose value is the new one unless a later line assigns another |
| `Settings.RestartExactly` | genpi/config.py:164-317 | a restart on the file as left finds the same credentials always, and the same configuration if and only if no later line shadows a generated VAPID key |
| `Settings.NoPlaintextLeft` | genpi/config.py:186-204 | every credential line on disk carries a hash |
| `Settings.FileReachesFixedPoint` | genpi/config.py:164-329 | the second start only drops duplicate API_KEY lines, the third rewrites nothing |
| `Settings.NextStartGeneratesExactly` | genpi/config.py:270-317 | after a start that generated a pair, the next generates again if and only if a later line still assigns the private key, and leaves that line as it was |
| `Settings.EveryStartGenerates` | genpi/config.py:270-317 | with such a line every start of any number generates a new pair and uses it |
| `Settings.ShadowedPublicKeyIsRead` | genpi/config.py:289-313 | a later public line is read with the generated private key |
| `Settings.LeftOverKeyNeverSettles` | genpi/config.py:289-313 | two empty private-key lines are such a file |
| `Settings.TextSurvives` | genpi/config.py:164-329 | the text written back splits into exactly the lines meant, so the line-level results are results about the file |
| `PyString.SplitOfJoin` | genpi/config.py:164-329 | joining break-free lines and splitting again is the identity |
| `PyString.StripBothWays` | genpi/config.py:172-187 | the two ends are stripped independently |
| `PyString.StripDrops` | genpi/config.py:172-187 | white space around a trimmed text is all that stripping removes |
| `PyString.StripSplits` | genpi/config.py:172-187 | and every text is a trimmed one with white space around it |
| `PyString.SplitLinesAt` | genpi/config.py:164 | each break ends a line, and an unended rest is a line too |
| `PyString.JoinOfSplit` | genpi/config.py:164-329 | reading lines and writing them back restores the text, ended with a newline |
| `PyString.SplitOnAt` | genpi/updater.py:55-64 | each separator ends a part |
| `PyString.LowerAt` | genpi/config.py:222 | lower-casing moves the letters A to Z and nothing else |

## Left out

- The generated bash bootstrap and the systemd path of the updater (genpi/updater.py:613-746): the run theorem is for the in-process path.
- Liveness of the decision gate: only that it fails towards "revert" is proved.
- `UpdateRun.Machine.RunUpdate`: rollback restores contents and presence, not file modes, and does not remove left-over `.gpnew` files or new directories; a crash of the process itself appears as the prefix of a swap (`UpdateRun.Machine.Swap`, `UpdateRun.InterruptedSwapIsUndone`), not as a restart of the server on the mixed tree.
- `UpdateRun.Machine.Attempt`: the operator's decision is an input here; how it comes about is `UpdateGate`. Progress messages, the log lines, the dependency report and the IMPORTANT box are not modelled.
- `LogFeed.FeedIsExact`: the filtered view (`hide_http`) under bursts, and switching the view with a response in flight, are not covered; which lines count as routine HTTP is a parameter.
- `LogFeed.FeedIsExactExactly`: the requests of the panel are followed with the cursors they carry; that they pass through one queue with other keys is the free choice of when to send, not a product with `PollQueue`.
- `EventLog.PaneIsFaithful`: for newer-polls kept apart and within reach; `EventLog.PaneIsFaithfulExactly` says what happens otherwise.
- `RateLimit.WindowBound`: successes of the observed address, which reset its count, and the eviction of its entry at the cap are excluded.
- `Odometer.OdometerIsExact`: a correction reads the clock twice, and the instants between the two readings count as not run; restart persistence of an unfinished run and `factory_reset` are not modelled.
- `Settings.Loader.ParseEnvFile`: encoding, file permissions and the exit on a failed write are not modelled; lower-casing is on ASCII letters.
- Floating-point rounding, UTF-8 decoding, and the insides of scrypt, HMAC and SHA-256.
- Relay presses and their mutex, the WSGI server, certificates, sensors, Web Push, DNS checks and GitHub fetches: hardware, network or foreign libraries.
- The formatting of an event's actor, key-value persistence, statistics, charts and the rest of the user interface: would add only easy members.

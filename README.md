# The moosefs process skeleton, modelled in Dafny

This project models the process skeleton that every moosefs daemon
(master, chunkserver, metalogger) is built on: `mfscommon/main.c`. The
skeleton covers:

- the hook registries through which modules register destructors, want-exit
  hooks, can-exit voters, reload hooks, poll hooks, each-loop hooks and timers;
- the event loop that describes descriptors, polls, serves, runs the per-tick
  hooks and timers, and then drives reload and the four-state termination
  machine (0 running, 1 want-exit issued, 2 draining, 3 stopped);
- the ordered module initialization and the teardown;
- the single-instance lock on the working directory, including the takeover
  that signals a running predecessor and waits for it, and the check of the
  old-style pid lock file;
- `createpath`;
- the run-mode selection of `main` and the order of its start-up phases.

The modules follow the parts of the program:

| file | module | what |
|---|---|---|
| hooks.dfy | `Hooks` | hook identities, the call trace, prepend registration and its reversal lemmas |
| timers.dfy | `Timers` | timer entries, first-event computation, the three catch-up policies |
| termination.dfy | `Termination` | the state values, the short-circuit vote, the state step |
| inittable.dfy | `InitTable` | the init table walk |
| runtime.dfy | `Runtime` | class `Process` holding the file-static globals; the registration methods, the signal handlers, `canexit`, `destruct`, one tick, the event loop, `initialize`; the reference definition `Loop` and the lemmas about ticks and loops |
| locking.dfy | `Locking` | `mylock` and `wdlock` |
| ctext.dfy | `CText` | the C library's `strtol`/`strtoul` in base 10, enough for the pid text and the `-t` option |
| legacylock.dfy | `LegacyLock` | `check_old_locks` |
| paths.dfy | `Paths` | `createpath` over a 1024-character array |
| runmode.dfy | `RunModes` | the option scan, the positional mode word, and the phase plan of `main` |

Everything the skeleton cannot see is an input:

- Callbacks are opaque `HookId`s. Running one appends a `Call(phase, hook)`
  event to a trace.
- What a can-exit voter or an init function returns is given as a sequence
  of answers.
- `poll`'s result and the clock are taken per turn of the loop, and so are
  the signals that arrived since the previous turn.
- `fcntl`, `lockf`, `read`, `kill`, `open` and `mkdir` are oracles: sequences
  or functions saying what each call reports.
- A lock protocol that runs out of oracle answers before it decides returns
  `Pending`, meaning the real process would still be waiting.

Where the design description of the skeleton and the code differ, the model
follows the code:

- **Late termination signals.** `termhandle` sets `terminate` to 1 whatever
  its value (main.c:199). A signal that arrives while the process drains, or
  after the vote has stopped it but before the loop test, sends it back to
  state 1: the loop goes on and the want-exit hooks run again
  (`Runtime.LateSignalReopensShutdown`). The state therefore does not only
  advance. From 1, 2 and 3 it never returns to 0
  (`Runtime.NeverBackToRunning`).
- **Loop exit.** The loop also ends on a `poll` error other than EAGAIN and
  EINTR, not only in state 3
  (`Runtime.LoopEndsOnlyWhenStoppedOrFatal`).
- **The vote.** It stops at the first voter that answers 0, so later voters
  are not asked in that tick (`Termination.Vote`).
- **Failed initialization.** When it fails, `main` still runs the
  destructors and exits with status 0 (main.c:945-958);
  `RunModes.DestructIffInitialized` states this.

## Model

| member | source | states |
|---|---|---|
| Hooks.RegistrationReverses | mfscommon/main.c:126-167 | registering hooks one after another, each put at the head, leaves them in reverse order ahead of the list that was there |
| Hooks.LifoDispatch | mfscommon/main.c:126-167 | starting from an empty list, the hook registered j-th sits at position n-1-j, so a later registration is called earlier |
| Runtime.Process.DestructRegister | mfscommon/main.c:126-131 | the destructor list gains the hook at its head; nothing else changes |
| Runtime.Process.CanExitRegister | mfscommon/main.c:133-138 | the can-exit list gains the hook at its head; nothing else changes |
| Runtime.Process.WantExitRegister | mfscommon/main.c:140-145 | the want-exit list gains the hook at its head; nothing else changes |
| Runtime.Process.ReloadRegister | mfscommon/main.c:147-152 | the reload list gains the hook at its head; nothing else changes |
| Runtime.Process.PollRegister | mfscommon/main.c:154-160 | the poll list gains the describe/serve pair at its head; nothing else changes |
| Runtime.Process.EachLoopRegister | mfscommon/main.c:162-167 | the each-loop list gains the hook at its head; nothing else changes |
| Runtime.Process.TimeRegister | mfscommon/main.c:169-182 | a zero period or an offset not below the period changes nothing; otherwise a new head timer with that period, mode and callback whose first event is congruent to the offset and lies in [now, now+period), the rest of the state unchanged |
| Timers.FirstEvent | mfscommon/main.c:173-176 | the aligned start plus the step-up loop give an instant congruent to the offset modulo the period, at or after now and less than one period after it |
| Timers.AlignedBase | mfscommon/main.c:173 | the aligned base plus the offset stays below 2^32, so the `uint32_t` arithmetic does not wrap, and is congruent to the offset |
| Runtime.Process.TermHandle | mfscommon/main.c:197-200 | the termination state becomes 1, whatever it was; nothing else changes |
| Runtime.Process.ReloadHandle | mfscommon/main.c:202-205 | the reload flag is set; nothing else changes |
| Runtime.Process.SigchldHandle | mfscommon/main.c:207-210 | the child flag is set; nothing else changes (the handler is defined but never installed, since the signal set-up ignores SIGCHLD, main.c:367-369) |
| Runtime.Process.CanExit | mfscommon/main.c:187-195 | returns 1 exactly when every voter answers nonzero, else 0; the voters asked are the list prefix up to and including the first that answers 0 |
| Runtime.Process.Destruct | mfscommon/main.c:220-225 | every destructor is called once, from the head of the list |
| Runtime.Walk | mfscommon/main.c:222-224 | walking a list from its head yields one call per hook, in list order |
| Timers.SkipPast | mfscommon/main.c:278-280 | stepping the next event by whole periods while it is not after now ends at the catch-up instant |
| Timers.RunTimer | mfscommon/main.c:270-293 | per policy, the firing count and the new next event are the ones the reference `Fires` and `Advance` give |
| Timers.FiresByMode | mfscommon/main.c:270-293 | run-all fires at least once exactly when due; run-once fires once exactly when due; skip fires once exactly when now equals the scheduled instant and never for an instant already past; a timer not due is untouched |
| Timers.RunAllCountsBoundaries | mfscommon/main.c:271-275 | run-all fires once per scheduled instant in [nextevent, now], that is (now-nextevent)/period+1 times |
| Timers.CatchUpIsLeastAbove | mfscommon/main.c:271-292 | a due timer's new next event is the least instant strictly after now on its old schedule |
| Timers.CatchUpNotDue | mfscommon/main.c:271-292 | a timer not yet due keeps its next event |
| Timers.RunTimers | mfscommon/main.c:270-293 | the timer phase gives every timer its turn in list order; afterwards each is due strictly after now and none has moved back; the callbacks fired are those of `FireTrace` |
| Termination.Vote | mfscommon/main.c:306-316 | the vote is unanimous exactly when every answer is nonzero; the voters asked are those up to and including the first veto |
| Termination.NextTerminate | mfscommon/main.c:294-316 | from 0 the state stays 0; from 1 or 2 it becomes 3 exactly on a unanimous vote and 2 otherwise; 3 stays 3 |
| Termination.VetoesDelayStop | mfscommon/main.c:300-316 | a voter that vetoes k ticks keeps the process in state 2 for those k ticks, and it stops on the next unanimous tick |
| Runtime.TickState | mfscommon/main.c:239-317 | a tick leaves every registry unchanged |
| Runtime.Signals | mfscommon/main.c:197-205 | signals between ticks touch only the termination state and the reload flag |
| Runtime.TurnState | mfscommon/main.c:239-317 | a turn of the loop never changes the voter list |
| Runtime.Process.Tick | mfscommon/main.c:240-316 | one tick: the new state and the calls are those of the reference tick, and it reports a break exactly on a fatal `poll` error |
| Runtime.Process.WorkPhases | mfscommon/main.c:262-293 | serve (only when `poll` succeeded), each-loop and timer phases: only the timers change, and the calls are the reference work trace |
| Runtime.Process.ControlPhases | mfscommon/main.c:294-316 | reload only while running and requested, want-exit in state 1 then state 2, then the vote; the new reload flag and state are as `NextTerminate` gives |
| Runtime.Process.AfterPollPhases | mfscommon/main.c:262-316 | the phases after a `poll` that succeeded or was interrupted, as work then control |
| Runtime.Process.Turn | mfscommon/main.c:239-317 | the signals, the loop test and, unless it fails, one tick, as the reference turn |
| Runtime.Process.LoopTurn | mfscommon/main.c:239-317 | one turn is a step of the reference loop: when it ends the loop it completes the run; otherwise the run is this turn followed by the run from the next turn |
| Runtime.Process.MainLoop | mfscommon/main.c:227-318 | the final state, the calls and the tick count are exactly those of the reference `Loop` over the turns |
| Runtime.LoopLastTurn | mfscommon/main.c:239-261 | a turn whose test fails, or whose `poll` failed fatally, is the whole remaining run |
| Runtime.LoopNextTurn | mfscommon/main.c:239-317 | any other turn is followed by the run from the next turn |
| Runtime.EAgainSkipsTick | mfscommon/main.c:252-257 | after EAGAIN only the describe calls happen, and only the clock changes |
| Runtime.InterruptSameState | mfscommon/main.c:258-266 | an interrupted `poll` leads to the same state as a successful one |
| Runtime.InterruptServesNothing | mfscommon/main.c:262-266 | an interrupted tick calls no serve hook |
| Runtime.ReadyAddsServes | mfscommon/main.c:262-266 | a successful tick's calls are the interrupted tick's with the serve calls inserted after the describe calls |
| Runtime.ServeOnlyDifference | mfscommon/main.c:262-293 | the work phases of a successful and an interrupted tick differ only by the leading serve calls |
| Runtime.ControlNone | mfscommon/main.c:294-316 | the control phases call only reload, want-exit and can-exit hooks |
| Runtime.ControlOnly | mfscommon/main.c:252-316 | a tick calls a control-phase hook exactly when it gets past `poll` and the control phases call it |
| Runtime.ControlPhasesIn | mfscommon/main.c:294-316 | reload hooks are called iff running with a pending reload and a nonempty list; want-exit hooks iff in state 1 with a nonempty list; voters only in states 1 and 2 |
| Runtime.ReloadOnlyWhileRunning | mfscommon/main.c:294-299 | reload hooks run iff the tick gets past `poll` in state 0 with a reload pending; the flag is cleared exactly then, and a reload requested during shutdown stays pending |
| Runtime.WantExitThenVote | mfscommon/main.c:300-316 | want-exit hooks run iff in state 1; from 1 or 2 the tick ends in 3 iff the vote is unanimous and in 2 otherwise; voters are asked only in states 1 and 2 |
| Runtime.TimersAheadAfterTick | mfscommon/main.c:270-293 | after a tick past `poll`, every timer is due strictly after now and none moved back |
| Runtime.NeverBackToRunning | mfscommon/main.c:197-200 | once termination has begun, no number of turns or signals brings the state back to 0 or runs a reload hook |
| Runtime.LoopEndsOnlyWhenStoppedOrFatal | mfscommon/main.c:239-261 | if the loop stops before the turns run out, the state is 3 or the last tick's `poll` failed fatally |
| Runtime.LateSignalReopensShutdown | mfscommon/main.c:197-200 | a termination signal in state 2 or 3 sends the process back to 1: the loop goes on and the want-exit hooks run again |
| Runtime.Process.Initialize | mfscommon/main.c:320-333 | sets the clock; succeeds iff every step before the terminator returns a value of at least 0; runs the steps in table order up to and including the first failing one |
| InitTable.RunInit | mfscommon/main.c:325-331 | the same for the table walk alone, plus the failing step's name as the only one reported |
| InitTable.TableEnd | mfscommon/main.c:325 | the walk ends at the first entry with a null function |
| Locking.CheckedCode | mfscommon/main.c:484-495 | the corrected result of one pass is 0 exactly when the lock was set, positive exactly for a positive reported owner, and -1 otherwise |
| Locking.HiddenOwnerReadsAsAcquired | mfscommon/main.c:493-495 | a held lock whose reported owner pid is 0 returns the same value as a lock just set |
| Locking.LockAttemptAsWritten | mfscommon/main.c:476-497 | as written, an attempt consumes exactly one observation: the query finding the lock released turns the request into an unlock, so the next pass reports 0; there is no answer only when the observations have run out |
| Locking.LockAttempt | mfscommon/main.c:476-497 | as intended, passes that find the lock released are repeated; the answer is the checked result of the first other observation; there is no answer only when every remaining observation is a release |
| Locking.ReleasedReadsAsAcquired | mfscommon/main.c:483-495 | a release between the two calls, then a holder with pid 5: as written the attempt answers 0 (lock set), as intended it answers 5 |
| Locking.MyLockAsWritten | mfscommon/main.c:476-498 | the retry loop as written computes `LockAttemptAsWritten` |
| Locking.MyLock | mfscommon/main.c:476-498 | the retry loop computes `LockAttempt` |
| Locking.StillHeld | mfscommon/main.c:538-559 | the bookkeeping of a poll that finds the lock held is the reference `HeldStep`: timeout, count, report and signal, in that order |
| Locking.PollOnce | mfscommon/main.c:531-561 | one pass of the waiting loop is the reference `PollStepOf` |
| Locking.AwaitRelease | mfscommon/main.c:529-563 | the waiting loop computes the reference `WaitRef` from the state after the first signal |
| Locking.HeldStepKeeps | mfscommon/main.c:538-559 | a poll that finds the lock held either keeps the waiting invariant or decides: a timeout at max(timeout,1) polls, a failed signal, or no signal answer left |
| Locking.PollStepKeeps | mfscommon/main.c:531-561 | any pass keeps the waiting invariant or ends in a state where the outcome follows from the observations as `Decided` says |
| Locking.WaitRefDecided | mfscommon/main.c:529-563 | from any state satisfying the waiting invariant the loop ends decided: set exactly when the last observation set the lock; an error exactly when it was refused; a timeout exactly at max(timeout,1) polls; a signal failure exactly when the last signal failed; polls, signals and progress reports in step with the owners seen |
| Locking.WdLock | mfscommon/main.c:500-571 | the outputs are those of the reference `WdLockRef` over the same oracle answers |
| Locking.WdLockMeaning | mfscommon/main.c:500-571 | a lock file that cannot be created fails; 0 exactly when the last observation set the lock; an error exactly when it was refused; start mode fails exactly when an owner was reported, without signalling; the owners seen are those observed, in order; a timeout exactly at max(timeout,1) polls; the pids signalled are the owner changes, delivered in oracle order, failing exactly on the last; pending only when the oracle ran out; progress every ten polls |
| Locking.ChangesStep | mfscommon/main.c:549-558 | a newly reported owner adds a signal exactly when it differs from the previous one |
| Locking.Changes | mfscommon/main.c:549-558 | whom the takeover signals: the last owner seen is the last one signalled, and there are no more signals than owners |
| Locking.TensAreMultiples | mfscommon/main.c:545-548 | progress is reported at the positive multiples of ten up to the count, in increasing order, n/10 times |
| LegacyLock.AsUint32 | mfscommon/main.c:606 | the `read` count lands in a `uint32_t` |
| LegacyLock.ReadCountWraps | mfscommon/main.c:606-607 | a failed read's -1 becomes 2^32-1 in the counter; other counts are unchanged |
| LegacyLock.PidLengthOkMeans | mfscommon/main.c:606-612 | the length check passes exactly when the read succeeds with 1 to 12 bytes |
| LegacyLock.ToPid | mfscommon/main.c:614 | the `long` is stored in a 32-bit `pid_t`, in range |
| LegacyLock.ReadOldPid | mfscommon/main.c:606-614 | succeeds exactly when the length check passes, with the pid that the text names |
| LegacyLock.CheckOldLocks | mfscommon/main.c:573-654 | the outcome, the pids signalled, the seconds waited and the lock results consumed are those of the reference `OldLocksRef`; progress is reported every ten seconds, not on the second that gives up |
| LegacyLock.OldLocksMeaning | mfscommon/main.c:573-654 | no file: done without removal; an open error fails; removal exactly when the last lock result set the lock; a lock failure exactly when it was an error; start mode with a locked file fails without signalling; a wrong pid exactly when the length check fails; the pid the text names is signalled exactly when the file is locked, the mode is not start and the check passes; a failed signal fails; the seconds waited are the "already locked" results after the signal, and giving up happens exactly at max(timeout,1) of them; pending only when the results ran out |
| LegacyLock.AwaitOldRelease | mfscommon/main.c:622-644 | the waiting loop computes the reference `OldWaitRef` from no seconds waited, and reports progress every ten seconds |
| LegacyLock.OldWaitMeaning | mfscommon/main.c:622-644 | every result before the last is "already locked"; success exactly when the last set the lock; a lock failure exactly when it was an error; giving up exactly when the seconds waited reach max(timeout,1); one second per "already locked" result; pending only when the results ran out |
| LegacyLock.DecimalPidRoundTrip | mfscommon/main.c:613-614 | the decimal text of a pid reads back as that pid |
| LegacyLock.PaddedPidRoundTrip | mfscommon/main.c:613-614 | leading white space and a trailing newline around the decimal text do not change the pid read back |
| LegacyLock.NonNumericPidIsZero | mfscommon/main.c:614-616 | text without leading digits or sign reads as pid 0, so the signal goes to the caller's own process group |
| LegacyLock.NegativePidRoundTrip | mfscommon/main.c:613-616 | a '-' before the decimal text of n reads as -n, so the signal goes to the process group n |
| LegacyLock.MinusOnePidIsEveryone | mfscommon/main.c:606-616 | the text "-1" passes the length check and reads as -1, so the signal goes to every process the caller may signal |
| CText.StrtolDecimal | mfscommon/main.c:614 | `strtol` of the decimal text of n is n |
| CText.StrtolBound | mfscommon/main.c:614 | `strtol` of at most 12 bytes stays within 12 decimal digits, so no clamping is involved |
| CText.StrtoulDecimal | mfscommon/main.c:820 | `strtoul` of the decimal text of n is n |
| CText.StrtoulSaturates | mfscommon/main.c:820 | `strtoul` of a digit string above the `unsigned long` range gives the largest value |
| Paths.CreatePath | mfscommon/main.c:745-769 | the directories passed to `mkdir` are exactly the reference `Dirs` of the whole path, in call order, with one message per created or failed directory |
| Paths.Component | mfscommon/main.c:751-768 | one turn of the outer loop copies at least one character and keeps the copied prefix, the directories and the messages in step |
| Paths.CopyRun | mfscommon/main.c:752-754 | the inner loop copies up to the next '/' or the end |
| Paths.CopyChar | mfscommon/main.c:753 | copying a character extends the copied prefix by one |
| Paths.MakeDir | mfscommon/main.c:757-765 | a message for a created directory or a failure other than "exists", none otherwise |
| Paths.DirsArePrefixes | mfscommon/main.c:745-769 | every directory created is a nonempty proper prefix of the path followed there by a '/' |
| Paths.DirsComplete | mfscommon/main.c:745-769 | every '/' after the first position yields the directory ending before it |
| Paths.DirsIncreasing | mfscommon/main.c:745-769 | the directories are attempted shortest first, so parents come before children |
| Paths.FileNeverCreated | mfscommon/main.c:745-769 | the path itself, its last component, is never passed to `mkdir` |
| RunModes.ParseCommandLine | mfscommon/main.c:798-850 | the option loop and the word check give the reference command-line result |
| RunModes.WordMode | mfscommon/main.c:836-846 | a word names start, stop or restart exactly when it equals that word ignoring case |
| RunModes.WordExamples | mfscommon/main.c:837-846 | "STOP" means stop, "Restart" means restart, and "halt" names no mode |
| RunModes.DefaultIsRestart | mfscommon/main.c:801 | without -f, -s or a word, the mode is restart |
| RunModes.ScanKeepsMode | mfscommon/main.c:805-833 | options other than -f and -s leave the mode alone |
| RunModes.ScanLastFlagWins | mfscommon/main.c:813-818 | of several -f and -s options, the last one decides |
| RunModes.LastFlagDecides | mfscommon/main.c:813-818 | without a word, the last of -f (start) and -s (stop) decides the mode |
| RunModes.ScanDaemon | mfscommon/main.c:805-833 | the scan runs to the end exactly when it meets neither -v nor a bad option, and then runs as a daemon exactly when there was no -d |
| RunModes.ScanVersion | mfscommon/main.c:807-809 | -v ends the scan with the version, whatever follows |
| RunModes.VersionFirst | mfscommon/main.c:807-809 | -v wins over everything after it, options and words alike |
| RunModes.WordOverridesFlags | mfscommon/main.c:836-850 | one word naming a mode overrides every flag; a word naming none, and more than one word, are usage errors |
| RunModes.DaemonUnlessDashD | mfscommon/main.c:800-812 | the process runs as a daemon exactly when -d was not given |
| RunModes.Launch | mfscommon/main.c:898-958 | exit status 0 or 1; 1 exactly on a usage error or when the configuration, the user switch, the working directory, the old-style lock check or the lock protocol fails; nothing runs unless the configuration, user and working directory are in place; the lock protocol only after the old-style check passed |
| RunModes.DaemonIff | mfscommon/main.c:908-916 | a daemon is made exactly when the mode is not stop and -d was not given; signal handlers are set up exactly when the mode is not stop |
| RunModes.StopOnlyLocks | mfscommon/main.c:908-933 | stop mode takes and releases the locks only: no daemon, no handlers, no initialization, loop or destructors, and exit status 0 |
| RunModes.DestructIffInitialized | mfscommon/main.c:921-958 | the destructors run exactly when initialization was attempted, even when it failed; the loop runs exactly when it succeeded; both lock checks come first and the exit status is 0 |

## Left out

- `poll` and the `pdesc` array: the describe and serve hooks are foreign and
  `poll` is reduced to its four outcomes (ready, EAGAIN, EINTR, other error).
- The 100 ms `usleep` after EAGAIN, the `sleep(1)` of the lock loops and all
  real time: each sleep is one step of a counter; the clock is an input per
  turn.
- `makedaemon`, `set_signal_handlers` and real signal delivery: signals are
  events between turns that set the flags, as the handlers do.
- `changeugid`, `chdir` and `cfg_load`: foreign calls whose outcomes enter
  `main`'s phase plan as booleans (`Outcomes`). A `changeugid` that finds no
  such user or group exits with status 1 (main.c:434, 449, 459), which the
  plan models as `ugidOk` being false. The user and group look-ups
  themselves are not modelled.
- `setrlimit`, `mlockall`, `setpriority`, `umask` and `cfg_getstr`: their
  results do not change the phases `main` goes through.
- Logging (`syslog`, `fprintf` to the message channel, `errno_to_str`,
  `usage`, the version text): message texts are not modelled, except that
  `createpath`'s per-directory messages are kept as `Note`s.
- `malloc`/`free`, including the double `free` of `lockfname` on the
  open-error path of `check_old_locks`: memory is not modelled.
- `main_time` and `main_utime`: plain getters of the `now` and `usecnow`
  fields.
- `remove_old_wdlock`: an `unlink` with no result; it appears only as a step
  in `main`'s phase plan.
- The `sigchld` flag: it is set by its handler and nothing in the skeleton
  reads it. The handler is never installed (SIGCHLD is among the ignored
  signals, main.c:367-369), so the loop's signal events are only
  termination and reload.
- mfsmaster/itree.h is not part of this model: it declares four functions
  and defines none.
- CText.Strtol: models `strtol` in base 10 without clamping at the `long`
  range. It assumes an LP64 platform (64-bit `long`). The pid text it reads
  is at most 12 bytes, so its value stays below 10^12 in magnitude
  (`CText.StrtolBound`), inside a 64-bit `long`. With a 32-bit `long` such
  text could clamp, and the model does not capture that.
- Paths.CreatePath: requires the path to fit the 1024-byte buffer, as the C
  code silently assumes; `mkdir` is an oracle function of the directory
  name, so earlier calls cannot change what later ones report.
- Locking.WdLock: models `wdlock` built on the corrected lock attempt
  (`Locking.LockAttempt`, `Locking.MyLock`), not on `mylock` as written. The
  two mistakes listed under "## Findings" are therefore absent from it. The
  as-written attempt is `Locking.MyLockAsWritten`.
- Runtime.Process.Initialize: does not model the registrations that the
  init functions make. In the program, those functions are where modules
  register their hooks and timers; in the model, initialization leaves the
  registries unchanged and each step only returns its given result.
- Locking.WdLock and LegacyLock.CheckOldLocks: they return `Pending` when the
  oracle answers run out; the C code would go on waiting.
- Runtime.Process.MainLoop: it runs over a finite sequence of turns, and
  stops when they run out; the C loop runs until state 3 or a fatal error.
- The microsecond clock is modelled as an unbounded natural; at the
  skeleton's 31-bit seconds it never reaches the 64-bit limit of `usecnow`.

## Findings

| source | as written | input that shows it | evidently intended | confidence | as-written member | corrected member |
|---|---|---|---|---|---|---|
| mfscommon/main.c:483-495 | when `F_GETLK` finds the lock released, it sets the request's type to `F_UNLCK`; the loop then repeats `F_SETLK` with that unlock request, which succeeds, and `mylock` returns 0, "lock set" | the holder releases the lock between `F_SETLK` and `F_GETLK` (observations: released, then held by pid 5, a process that takes the lock next): `wdlock` reports the lock as set, or the old owner as terminated, though this process never set it | each pass asks for a write lock again, so 0 means the lock is held | not executed; high that it can happen, as it follows from the POSIX meaning of `F_GETLK`, but it needs a release in that short window | Locking.MyLockAsWritten (with Locking.LockAttemptAsWritten and Locking.ReleasedReadsAsAcquired) | Locking.MyLock (with Locking.LockAttempt) |
| mfscommon/main.c:493-495 | `mylock` returns `fl.l_pid` whenever the lock is held, and callers read 0 as "lock set" | a write lock held by a process whose pid `F_GETLK` reports as 0 (for instance a holder in another PID namespace): `wdlock` then reports the lock as acquired (or, in the waiting loop, the owner as terminated) though it is not | a held lock never reads as acquired; a holder that cannot be named is an error | not executed; medium, depends on the platform reporting pid 0 | Locking.MyLockAsWritten (with Locking.HiddenOwnerReadsAsAcquired) | Locking.MyLock (with Locking.CheckedCode) |

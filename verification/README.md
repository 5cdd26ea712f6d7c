# CronManager, verified

CronManager is a single-process job scheduler: cron loops and HTTP calls start jobs, each job
is an HTTP request or a child process with retries, and a history row is written for every
attempt. This project models the logic that its guarantees rest on, and proves them for all
inputs and over all interleavings.

Check everything with `dafny verify dfyconfig.toml`.

## What is modelled

- **The scheduler as a step system** (`Steps.dfy`). Every lock section of `src/scheduler.rs`
  is one atomic step of one task, and so is every await point of a dispatch. Cron loops,
  `/execute` callers and the runs they spawn, `/stop`, `/reload` and registrations interleave
  freely; callers may arrive at any time. Clock readings, executor answers, cron fires and the
  winner of a race are inputs of a step. On it rest `Slots.dfy` (who holds a running slot),
  `Histories.dfy` (the history log over whole runs), `Signals.dfy` (where cancel signals go),
  `Registrations.dfy` (runtime state, and work that outlives its registration), `Loops.dfy`
  (how many cron loops a key has), `Releases.dfy` (slots can always be given back),
  `Stops.dfy` (what a stop does to a run) and `RegistryWrites.dfy` (the registry after any
  interleaving of reloads).
- **The scheduler as an object** (`Scheduler.dfy`). The methods of the source, updating the
  same fields in place, proved to have the effects of the steps; the listings of `describe`
  for every order of a hash map.
- **The locks** (`Locks.dfy`), with explicit acquire and release, and their programs against
  the steps (`LockTraces.dfy`).
- **The retry loop** (`Executor.dfy`), both as the loop itself and cut at its await points;
  both are tied to one grammar of runs.
- **The reload throttle** (`ReloadGate.dfy`), a bounded map against an unbounded one, and the
  whole of `POST /reload` (`Reload.dfy`): throttle, load, swap.
- **The directory walk and the loader** (`Walk.dfy`, `Loader.dfy`), from a tree of files to
  specs that meet what the executors require.
- **Text**: escaping and truncation on UTF-8 boundaries (`Security.dfy`, `Controls.dfy`, `Utf8.dfy`),
  percent-encoding, splicing and redacting database URLs (`Dsn.dfy`), words (`Text.dfy`).
- **Executor helpers**: bounded readers (`BoundedRead.dfy`), environment and spawning
  (`Shell.dfy`), address rules (`IpRules.dfy`), the private-host list (`Hosts.dfy`).

A Dafny `char` is a Unicode scalar value, so a `string` is what a Rust `String` means; its
bytes are given by `Utf8.Encode`.

## Where the code and its documentation disagree

The model follows the code.

- `src/scheduler.rs:42-45` and `src/scheduler.rs:93-94` say that dropping a registration ends
  its loop. Dropping a tokio `JoinHandle` detaches the task, so the loop lives on
  (`Registrations.LoopsOutliveReload`, `Registrations.TwoLoopsForOneKey`). A key has as many
  loops as cron registrations were ever made for it whose schedule has not run out
  (`Loops.LoopsAreRegistrations`), and nothing else ends a loop (`Loops.LoopEndsByItself`).
  There is still never more than one dispatch per key.
- `src/router.rs:59-61` says that the caps leave the throttle of any group unchanged. The stale
  eviction does; the hard cap does not (`ReloadGate.CapForgets`). `ReloadGate.ReloadGate.Admit`
  gives the exact condition for increasing instants: the throttle is the documented one if and
  only if the group is outside its window or fewer than 1024 others were admitted since. Among
  equal instants the order of the hash map decides, and the same number bounds it on both sides.
- `SECURITY.md:98-100` and `src/security.rs:168-175` say that ANSI and control bytes are
  stripped from what lands in logs and error texts. Only C0 and DEL are looked for; U+0080 to
  U+009F are control characters too, and U+009B begins an ANSI sequence on its own
  (`Security.CsiGetsThrough`). `Security.SanitizedIsPlain` is the exact condition, carried to
  the log form, the stored body and the error text.
- `src/history/postgres.rs:16` and `book/src/configuration.md:61` call the stored-body limit a
  cap per row. A body that is cut always takes up more than the limit, for the marker comes on
  top; `Security.TruncateResponseBody` and `Security.StoredLen` say by how much.
- `src/security.rs:70-73` lists the documentation ranges among the refused addresses. They are
  not refused (`IpRules.DocumentationIsNotRefused`).
- `src/dsl/mod.rs:65-66` says that there are `count + 1` attempts. In u32 arithmetic this wraps
  to none for the largest count, and row numbers wrap in i32 beyond it; `Executor.RowsOfARun`
  and `Executor.RowNumbers` give the exact conditions, and the loader's cap rules the first out.
- `redact_password` (`src/main.rs:182-201`) cuts at the first `@`, `splice_password` at the last
  one of the authority. A user with an `@` therefore leaves the password in the log line, and
  so does the scheme `jdbc://` itself, which the prefix stripping breaks;
  `Dsn.RedactHidesPassword` is the exact condition.

## Model

| member | source | states |
|---|---|---|
| Slots.RunningIsHeldOnce | src/scheduler.rs:319-336 | In every reachable interleaving a key is in `running` exactly when some task lies between its `begin_running` and its own `remove`, and then exactly one task does |
| Slots.OneDispatchPerKey | src/scheduler.rs:145-183 | No two dispatches of one key are ever in flight together, over all cron loops (left-over ones included), triggers, stops and reloads |
| Slots.JustInserted | src/scheduler.rs:414-422 | Both `expect("just inserted")` look-ups always find the key: no other task can remove it in between |
| Slots.RunningIsEmptyWhenIdle | src/scheduler.rs:402-429 | `running` is empty exactly when no run is in flight |
| Slots.MoveKeepsSlots | src/scheduler.rs:145-183 | The bijection between slots and their holders, tokens included, is kept by every step of every kind of task and by every arriving caller |
| Releases.SlotsCanBeGivenBack | src/scheduler.rs:423-429 | From every reachable state some moves of the slot holders alone lead to a state with no slot taken and the same registry |
| Releases.AlreadyRunningIsNotForGood | src/scheduler.rs:319-326 | So `JobAlreadyRunning` is never for good: without any reload or stop, the key can become free while it stays registered |
| Histories.HistoryOfAKey | src/scheduler.rs:374-429 | In every reachable state the log of one key, without window-SKIPPED rows, is a concatenation of complete runs followed by the rows of at most one run under way, whose task holds the slot; so attempts of two runs never interleave, even across a reload |
| Histories.MoveKeepsAll | src/scheduler.rs:298-315 | Every step keeps the invariant from which this follows: tasks carry a registration that exists, dispatches have recorded what their phase says, and every log splits into runs |
| Histories.ReachableAll | src/scheduler.rs:74-83 | That invariant holds of every state reachable from the empty scheduler |
| Executor.CompleteRunIsExact | src/executor/mod.rs:101-366 | The run grammar is exact: OFFLINE alone, or RETRYING* then SUCCESS, TIMEOUT or FAILED, or RETRYING+ cut by an abort in the delay, with numbered rows and the outcome fixed by the last row. Rows and outcome have that shape if and only if some dispatch leaves them behind |
| Executor.AdvanceKeepsPhaseInv | src/executor/mod.rs:117-314 | Cut at its await points, the loop has recorded at each point exactly RETRYING rows numbered 1 to the attempt before, or a complete run |
| Executor.RowsOfARun | src/executor/mod.rs:105-117 | A run writes as many rows as its outcome reports attempts, at most `count + 1`; at least one if and only if `count + 1` does not wrap in u32 |
| Executor.RowNumbers | src/executor/mod.rs:269-270 | Rows are numbered 1, 2, ... of `count + 1` if and only if `count + 1` fits i32 |
| Executor.OutcomeFollowsLastRow | src/executor/mod.rs:316-366 | The outcome status is a function of the last row and `ignore_failures`: FAILED becomes SKIPPED only on exhaustion, a last row RETRYING is an aborted FAILED; every earlier row is RETRYING |
| Executor.DispatchIsComplete | src/executor/mod.rs:117-366 | What the loop writes and returns is a complete run, for every sequence of executor answers and aborts |
| Executor.ExecutorBundle.Dispatch | src/executor/mod.rs:89-366 | The loop terminates with the first attempt that succeeds, times out, is the last, or is followed by an abort; the history grows by exactly the rows up to that attempt, and offline by the OFFLINE row alone |
| Executor.ExecutorBundle.OfflineStub | src/executor/mod.rs:371-403 | One OFFLINE row numbered 1 of 1, and an OFFLINE outcome of one attempt |
| Signals.StopReachesTheHolder | src/scheduler.rs:187-202 | A `stop` answers true exactly when the key is held at that step, and wakes the dispatch holding it if that is waiting; no other task changes |
| Signals.ReloadReachesEveryHolder | src/scheduler.rs:302-308 | `reload_from` wakes every dispatch waiting at that moment and changes no other task |
| Signals.AbortNeedsOwnSignal | src/executor/mod.rs:301-309 | A dispatch is aborted only after a signal on its own token, sent under its own key |
| Signals.TokensAreFresh | src/scheduler.rs:327-334 | Every `begin_running` gives a token that no signal was ever sent on and no other task carries |
| Signals.DeadTokensStayDead | src/scheduler.rs:187-202 | Once a token is out of `running`, no run of the scheduler, however long, signals it again |
| Signals.ReleaseKillsToken | src/scheduler.rs:429-429 | Giving the slot back takes its token out of `running` for good: a later instance of the key is signalled on its own token only |
| Stops.AbortEndsTheRun | src/executor/mod.rs:284-311 | An abort ends the run if and only if it is taken in a retry delay or in the last attempt; in any earlier attempt it leaves a RETRYING row and the delay before the next attempt |
| Stops.AbortedRunMaySucceed | src/executor/mod.rs:284-311 | From every state in which a stop has been heard in an attempt that is not the last, the run can go on by its own steps and succeed in the next attempt, with a RETRYING row for the abort and a SUCCESS row |
| Stops.StopMayBeSurvived | src/scheduler.rs:187-202 | So in every reachable state a `/stop` of a waiting attempt that is not the last can answer true and the run still end in SUCCESS |
| Registrations.CellsAreWrittenByTheirOwn | src/scheduler.rs:434-444 | The runtime state of a registration changes only by a skip or a finished run started from that registration, and then holds its time and status |
| Registrations.RegistryIsSound | src/scheduler.rs:125-132 | Under each key lies a registration of that key, and no two share a runtime state |
| Registrations.OthersKeepTasks | src/scheduler.rs:93-95 | No step of another task, a reload's included, ends or redirects a task: at most it signals it |
| Registrations.WorkIsForLife | src/scheduler.rs:110-123 | A loop or run keeps the key, spec and runtime state it was started with until it ends, over any run of the scheduler |
| Registrations.OldWorkLeavesNewRegistrationsAlone | src/scheduler.rs:298-315 | Work that existed before a reload, however much later it acts, never changes the state of a registration made since |
| Registrations.LoopsOutliveReload | src/scheduler.rs:42-51 | A reload to an empty list is reachable from every state and leaves every sleeping cron loop in place, against the comment in the source |
| Registrations.TwoLoopsForOneKey | src/scheduler.rs:93-123 | Registering a cron job twice reaches a state with one registration and two loops of its key |
| Loops.OneTaskPerRegistration | src/scheduler.rs:110-123 | In every reachable state each cron registration ever made has exactly one task that is, is about to spawn, or was its loop; a manual one has none |
| Loops.LoopsAreRegistrations | src/scheduler.rs:93-123 | The loops of a key correspond one to one to its cron registrations, replaced ones included, whose schedule has not run out; so there is one loop if and only if there is one such registration |
| Loops.LoopEndsByItself | src/scheduler.rs:361-368 | Over any run, reloads and registrations included, a loop has ended if and only if it found its own schedule without future fires; otherwise it still has its key, spec and runtime state |
| Registrations.FoldIsLastWins | src/scheduler.rs:136-140 | Registering a list leaves exactly the old keys and the listed ones, each listed key with its last job |
| Registrations.RegistrySize | src/scheduler.rs:310-314 | After a reload the registry is at most as large as the returned count, and equal if and only if no two jobs share a key |
| Registrations.RegisterAllAlone | src/scheduler.rs:136-140 | Undisturbed, the steps of a batch registration lead to the last-wins fold of the list and leave every other task, slot, row and signal alone |
| Registrations.ReloadAlone | src/scheduler.rs:298-315 | Undisturbed, the steps of a reload lead to the last-wins fold of the list whatever the registry was; running dispatches keep their slots, every old task is still there |
| RegistryWrites.RegistryIsLastWrite | src/scheduler.rs:89-133 | Over any run, with any reloads and registrations in between, the registry holds under each key what the last write that concerns the key left |
| RegistryWrites.RemovedIsUnderWay | src/scheduler.rs:93-132 | If that write was a removal, a registration of the key is between its removal and its insertion |
| RegistryWrites.RegistryIsLastInserted | src/scheduler.rs:298-315 | From the empty scheduler, a key that no registration is just replacing holds the entry inserted last since the registry was last cleared |
| RegistryWrites.InterleavedReloads | src/scheduler.rs:298-315 | Two reloads that both clear before either registers end with the last-wins fold of one list over the other, from every state and for all lists |
| RegistryWrites.NeitherList | src/scheduler.rs:298-315 | So if each list has a key that the other has not, the registry is then neither list |
| Registrations.TriggerAlone | src/scheduler.rs:145-183 | Undisturbed, the steps of a trigger take the slot with a fresh token and leave a dispatch carrying that token and the registration looked up |
| SchedulerObject.Scheduler.constructor | src/scheduler.rs:74-83 | Starts from the empty state of the step system |
| SchedulerObject.Scheduler.Register | src/scheduler.rs:89-133 | The in-place body has exactly the effect of the undisturbed steps: one new runtime state, one new loop for a cron job, the entry replaced |
| SchedulerObject.Scheduler.RegisterAll | src/scheduler.rs:136-140 | The registry becomes the last-wins fold of the list over what it was |
| SchedulerObject.Scheduler.BeginRunning | src/scheduler.rs:319-336 | Refused with `JobAlreadyRunning` exactly when the key is held, changing nothing; else the slot is taken with a fresh token |
| SchedulerObject.Scheduler.TriggerNow | src/scheduler.rs:145-183 | `JobNotFound` before `JobAlreadyRunning`, neither changing anything; else the state that the undisturbed steps lead to |
| SchedulerObject.Scheduler.NotifyWaiters | src/scheduler.rs:198-198 | Wakes exactly the dispatches that are waiting on one of the tokens; nothing else changes |
| SchedulerObject.Scheduler.Stop | src/scheduler.rs:187-202 | Errors on an unknown key, answers whether the key is held, and signals only that instance's token |
| SchedulerObject.Scheduler.ReloadFrom | src/scheduler.rs:298-315 | Returns the length of the list; the registry becomes its last-wins fold, every running token has been signalled and every slot is kept |
| SchedulerObject.Scheduler.Describe | src/scheduler.rs:206-234 | For every enumeration order of the hash map: groups of the registered keys that pass the filter, each in strict order of names, with one descriptor per key |
| SchedulerObject.Scheduler.SnapshotRunning | src/scheduler.rs:252-262 | The first section copies exactly the running instances whose group passes the filter |
| SchedulerObject.Scheduler.DescribeSnapshot | src/scheduler.rs:267-288 | The second section, at any later moment, lists exactly the copied instances, by group in strict order of names, with the last results of that moment |
| SchedulerObject.FilterFirst | src/scheduler.rs:256-259 | Filtering before listing gives the same as listing with the filter |
| SchedulerObject.Scheduler.JobCount | src/scheduler.rs:292-294 | The number of different keys of any list that the registry is the last-wins fold of |
| SchedulerObject.Scheduler.ReloadAndCount | src/scheduler.rs:298-315 | The count that `/reload` answers is never below the size of the registry after it, and equal to it if and only if no two jobs of the list share a key |
| SchedulerObject.ListingIsUnique | src/scheduler.rs:230-232 | There is only one such listing, so the output does not depend on hash-map order |
| SchedulerObject.FilteredListing | src/scheduler.rs:209-214 | `describe(Some(g))` is `describe(None)` restricted to `g` |
| Ordering.SortSorts | src/scheduler.rs:231-231 | Sorting items with distinct names puts them in strict order of the names |
| Ordering.SortedIsUnique | src/scheduler.rs:231-231 | A collection has only one strictly ordered arrangement |
| Locks.ProgramsAreOrdered | src/scheduler.rs:236-289 | Every call takes locks upwards only, holds `jobs` or `running` but never asks for the other, and ends holding none |
| Locks.NeverBoth | src/scheduler.rs:238-245 | In every reachable state no thread holds `jobs` and `running` together, and no lock has two holders |
| Locks.NoDeadlock | src/scheduler.rs:238-245 | In every reachable state with unfinished lock users some lock step is enabled |
| Locks.EveryoneCanFinish | src/scheduler.rs:238-245 | From every such state all lock users can finish, in exactly as many steps as remain |
| Locks.StepsAreLockSections | src/scheduler.rs:303-309 | Each step of the step system changes only what the one lock it runs under guards |
| LockTraces.TasksFollowPrograms | src/scheduler.rs:145-202 | Over every run the locks that a task takes are a beginning of the acquires of the lock programs of its calls, in their order, and all of them once it has ended or sleeps: a lookup is one trigger and its run, a stop one stop, a reload one reload, a loop a sequence of turns |
| ReloadGate.WaitIsExact | src/router.rs:96-100 | The answered wait is in 1..=interval and is the least whole number of seconds after which the group is admitted again |
| ReloadGate.ReloadGate.Admit | src/router.rs:90-119 | For one interval and a clock that does not go back, the bounded map against the unbounded map of last admissions: outside the window, and with fewer than 1024 other groups admitted at or after, they decide alike; with 1024 or more after, the bounded map admits. For instants that increase from one admission to the next they decide alike if and only if the group is outside its window or fewer than 1024 others were admitted since. A refusal changes nothing, and at most 1024 entries are kept |
| ReloadGate.ReloadGate.Oldest | src/router.rs:113-115 | The evicted entry is a least recent one |
| ReloadGate.EvictStale | src/router.rs:106-109 | Dropping entries older than ten windows, with the saturating product, changes no decision |
| ReloadGate.OldestIsForgettable | src/router.rs:112-116 | At the cap, at least 1024 other groups have been admitted since the entry that is evicted |
| ReloadGate.EvictOldest | src/router.rs:112-117 | Evicting the oldest at the cap forgets a group only when 1024 others were admitted since |
| ReloadGate.CapForces | src/router.rs:112-117 | 1024 other groups admitted after the last admission of a group always make the gate forget it |
| ReloadGate.AgreementIsExact | src/router.rs:90-119 | With increasing instants the answer differs from the unbounded map exactly inside the window and after 1024 or more others |
| ReloadGate.CapForgets | src/router.rs:58-61 | A concrete run of 1025 groups after which a group is admitted with 60 seconds still to wait: the cap does change the throttle, against the comment in the source |
| Reload.ReloadJobs | src/router.rs:633-677 | Throttle, then load, then swap: a refused or failed reload leaves the scheduler untouched, a failed one is counted by the throttle all the same, and a successful one registers the last-wins fold of the jobs of the tree |
| Reload.ReloadedJobsRun | src/router.rs:659-675 | Whatever the files say, every job registered by a reload lies under its own key and meets what its executor requires |
| Reload.ReloadIgnoresOrder | src/router.rs:659-675 | What a reload registers, and whether it fails, does not depend on the order in which directories are read |
| Walk.OrderDoesNotMatter | src/dsl/loader.rs:156-162 | For every two enumeration orders of the directories of a tree the walk meets the same files in the same order |
| Walk.DirEventsAreTheTree | src/dsl/loader.rs:148-211 | The walk meets a YAML file or an unreadable directory at a path if and only if the tree holds it there |
| Walk.SuccessMeansNoFixture | src/dsl/loader.rs:176-195 | A walk succeeds if and only if every directory of the tree can be read and, under `Refuse`, no YAML file of the tree matches a fixture pattern |
| Walk.WalkReportsTheFirst | src/dsl/loader.rs:184-194 | A failed walk reports the first unreadable directory or refused fixture in walk order |
| Walk.WalkIsExact | src/dsl/loader.rs:196-208 | A successful walk has seen every file and holds, in order, all the jobs of those that load, so that seen = loaded + failed |
| Walk.Walker.Walk | src/dsl/loader.rs:148-211 | The recursive method with its three accumulators does exactly what meeting the events one after the other does, also when it stops half-way |
| Walk.Walker.Visit | src/dsl/loader.rs:166-208 | One file: counted first, refused before it is parsed, and otherwise all its jobs are added or it is counted as failed |
| Walk.LoadAll | src/dsl/loader.rs:107-146 | No root gives no jobs; else the jobs of the files that load, or the first fatal error |
| Walk.GroupsMayCollide | src/dsl/loader.rs:261-268 | Every YAML file in a sub-directory, at any depth, shares its group with the file beside that directory whose name has a dash for the slash |
| Walk.GroupsDiffer | src/dsl/loader.rs:261-268 | Without dashes and backslashes in their names, two YAML files share a group if and only if they differ in the extension at most |
| Loader.LoadFile | src/dsl/loader.rs:223-257 | The size cap comes before parsing; then the loop gives the specs of all jobs or the error of the first bad one |
| Loader.FilesAreAllOrNothing | src/dsl/loader.rs:246-255 | A file loads if and only if each of its jobs does, and then gives one spec per job, in order |
| Loader.FirstBadJobIsNamed | src/dsl/loader.rs:248-249 | Otherwise its error is that of the first job that is refused |
| Loader.SpecIsExact | src/dsl/loader.rs:365-505 | A job loads if and only if its trigger, retry count, type and the fields of that type are acceptable, and then every field of the spec is the one written, with the documented defaults |
| Loader.LoadedSpecsRun | src/dsl/loader.rs:365-505 | Every accepted spec meets the executors' preconditions: non-empty argv and program, known method, http(s) URL with an admissible host, safe headers, retry count within the cap, and `count + 1` attempts without wrap when the cap is below u32::MAX |
| Loader.KnownMethodStaysKnown | src/executor/http.rs:84-85 | A method that passes the loader's ASCII test is the same known method in the executor's Unicode upper case, for every extension of upper-casing beyond ASCII |
| Loader.BuildHttpHeaders | src/dsl/loader.rs:529-600 | Both loops give the headers of both maps, or the first error in map order |
| Loader.HeadersAreExact | src/dsl/loader.rs:529-600 | Headers are built if and only if every name is valid and not forbidden, every literal value is valid, every variable name is well formed and its value usable, and no env name occurs twice; then they are what both maps say, literals first |
| Loader.HeadersAreSafe | src/dsl/loader.rs:513-563 | No forbidden header, and each env-sourced name occurs exactly once |
| Loader.NamesAreDistinct | src/dsl/loader.rs:547-594 | The headers of a job that loads have different names if and only if its literal keys stand for different names |
| Loader.LiteralsMayCollide | src/dsl/loader.rs:548-556 | Two literal keys that differ only in case both load and give one name twice |
| Loader.CommandLineRoundTrip | src/dsl/loader.rs:346-361 | A one-line command loads if and only if it holds a word; re-reading its display gives the same argv; every argument is non-empty and free of white space |
| Loader.CommandListRoundTrip | src/dsl/mod.rs:132-137 | For a list command, re-reading the display gives the same argv if and only if every argument is non-empty and free of white space |
| Text.JoinIsReversible | src/dsl/mod.rs:132-137 | Joining with spaces is undone by tokenising if and only if the pieces are words |
| IpRules.VerdictsAreNetworks | src/security.rs:74-137 | Both verdicts, over all addresses, are membership in a fixed list of networks given by first and last address, mapped addresses standing for the IPv4 address in them |
| IpRules.ListingOpens | src/executor/http.rs:214-220 | Listing a host only removes refusals, and what it opens is exactly loopback, RFC 1918, carrier-grade NAT and ULA without `fd00:ec2::254`, with their mapped forms; in particular always-blocked implies private |
| IpRules.MappedIsJudgedAsItsIpv4 | src/security.rs:92-96 | An IPv4-mapped IPv6 address gets both verdicts of its IPv4 address |
| IpRules.DocumentationIsNotRefused | src/security.rs:70-73 | No address of the documentation ranges is refused, against the comment in the source |
| IpRules.PreFlight | src/executor/http.rs:153-190 | The pre-flight passes if and only if no resolved address is refused, or the host is an IPv4 literal; otherwise it reports the first refused address |
| Hosts.AllowlistedIs | src/executor/http.rs:206-209 | A host is let through if and only if some configured entry normalises to it in lower case without trailing dots; an IP literal never is |
| Hosts.FiredTargets | src/executor/http.rs:153-190 | With private networks blocked, a job that loads and passes the pre-flight talks to no always-blocked address, and to a private one only if its URL names a host that some configured entry normalises to: a literal address is never let through |
| Hosts.NormalizedIsStable | src/security.rs:153-166 | A normalised host normalises to itself |
| Hosts.SplitAllowedPrivateHosts | src/config.rs:298-308 | Usable hosts and useless entries, each in order, and every entry in exactly one of the two |
| BoundedRead.ReadPipe | src/executor/shell.rs:180-213 | The whole stream if it fits, else exactly its first `limit` bytes and the marker; a read error counts only as long as the limit has not been passed |
| BoundedRead.ReadBody | src/executor/http.rs:225-243 | Fails as too large if and only if more bytes than the limit arrive before a break; else the concatenation, or the break |
| BoundedRead.ChunkingIsInvisible | src/executor/shell.rs:185-212 | Neither result depends on how the bytes are cut into chunks |
| BoundedRead.Truncate | src/executor/shell.rs:215-225 | Text that fits is unchanged; else the longest prefix of whole characters within the limit, and the suffix |
| BoundedRead.ErrorText | src/executor/shell.rs:159-175 | The control characters in the error text of a failed script or request, whatever the upstream wrote, are tabs and exactly the C1 characters of a beginning of that text; its length is bounded by the limit and the suffix |
| BoundedRead.ErrorTextIsPlain | src/executor/shell.rs:159-175 | So it has no control character but tab if and only if the part of the text it shows has no C1 |
| Shell.ComposeEnv | src/executor/shell.rs:63-74 | The child sees a variable if and only if it is allowed and set, with the last override before the baseline |
| Shell.Spawn | src/executor/shell.rs:85-112 | The first attempt that is not busy decides, or else the fifth; the error kept for a loop that runs out is never returned |
| Security.SanitizedConcat | src/security.rs:228-242 | Escaping distributes over concatenation |
| Security.SanitizedIsClean | src/security.rs:228-242 | No C0 character but tab and no DEL is left; the C1 characters (U+0080 to U+009F) go through, all of them and in order |
| Security.SanitizedIsPlain | src/security.rs:216-227 | The output has no control character (Unicode Cc) but tab if and only if the input has no C1 character |
| Security.CsiGetsThrough | src/security.rs:235-238 | U+009B, an ANSI control sequence introducer, is left as it is: a concrete input whose output still holds a control character |
| Security.SanitizedFixes | src/security.rs:228-242 | Text is left alone if and only if it has no C0 character but tab and no DEL |
| Security.SanitizedIsIdempotent | src/security.rs:228-242 | Escaping twice is escaping once |
| Security.SanitizeForPersistence | src/security.rs:228-242 | The loop escapes every character in order |
| Security.SanitizeForLog | src/security.rs:180-214 | The full form if it is at most 4090 bytes or no character meets the cap; else a prefix of it ending between whole escapes, of at most 4096 bytes, and the marker, cut at the first character that has no room |
| Security.LogTextIsClean | src/security.rs:168-175 | The capped log form, cut or not, holds the C1 characters of the part it shows and no other control character but tab; so none at all if and only if that part has no C1 |
| Security.CharBoundaryFloor | src/security.rs:272-280 | The greatest boundary not above the index, within three steps |
| Security.CharBoundaryCeil | src/security.rs:282-290 | The least boundary not below the index, within three steps |
| Security.TruncateResponseBody | src/security.rs:255-270 | The escaped text if it fits; else its longest head and tail of whole characters within `max/2` bytes each, around a marker with the count of the bytes between. What is stored is within `max` if and only if nothing is cut |
| Security.BytesAddUp | src/security.rs:263-263 | Head, count and tail add up to the whole, head and tail do not overlap, and the count is at least 1 |
| Security.StoredBodyIsClean | src/security.rs:264-269 | A raw control character besides tab in a cut body is one of the marker's two newlines or a C1 character of the head or the tail |
| Security.StoredC1s | src/security.rs:255-270 | The C1 characters of head, cut and tail are those of the body that came in; head and tail are free of control characters but tab if and only if they have no C1 |
| Security.StoredLen | src/security.rs:263-269 | A cut body is stored in head, tail, digits of the count and 28 bytes, always at least 22 bytes more than the cap |
| Utf8.BoundaryEndsPrefix | src/security.rs:272-280 | Byte boundaries of a string are exactly the ends of its prefixes (section 3 of RFC 3629) |
| Utf8.BoundaryNear | src/security.rs:276-278 | No byte of a string is more than three bytes above a boundary or four below the next |
| Dsn.PercentEncode | src/config.rs:713-723 | The loop encodes every byte of the UTF-8 form in order |
| Dsn.PercentRoundTrip | src/config.rs:713-723 | Percent-decoding (section 2.1 of RFC 3986) gives back the bytes |
| Dsn.PercentAlphabet | src/config.rs:710-712 | Only unreserved characters and `%` come out |
| Dsn.SpliceIs | src/config.rs:683-708 | Splicing keeps scheme, user, host and rest of the parsed URL and replaces the password; a URL without `://` is unchanged |
| Dsn.ParseWithPassword | src/config.rs:683-708 | A URL put together from parts reads back as those parts |
| Dsn.SpliceRoundTrip | src/config.rs:683-708 | Re-reading a spliced URL and decoding gives back the password, and every other part |
| Dsn.SpliceAbsorbs | src/config.rs:676-679 | A second splice absorbs the first |
| Dsn.SpliceIsInjective | src/config.rs:681-682 | Different passwords give different URLs |
| Dsn.RedactSpliced | src/main.rs:182-201 | The text of the log line for every spliced URL: with the scheme `jdbc://`, whose colon is stripped with the prefix, the whole password; else the user up to its first `@`, and everything from the first `@` after the scheme on |
| Dsn.RedactHidesPassword | src/main.rs:176-201 | For every URL with a `://`, the log line does not depend on the password if and only if the user has no `@` and the scheme is not `jdbc://` itself |

## Left out

- Cron expressions and clocks: fire times, time readings and whether a schedule has a next fire
  are inputs.
- Real requests, DNS, TLS, redirects and child processes: an attempt comes back with a result
  (body and code, upstream error, shell timeout, abort, other error). An abort during an
  attempt is an ordinary error, as in the source.
- Panics inside executors and mutex poisoning.
- Postgres and its aggregates: the history is an append-only log; rows carry no clock readings
  or durations.
- YAML, URL, header and IP-literal parsing and the process environment: parsed values and the
  answers of the libraries are inputs (`Loader.World`).
- axum routing, middleware, tokens, CORS, the access log, signal handling, `doctor`, boot
  diagnostics, configuration search and defaults.
- The text of error messages, the warnings, and the minimum-interval warning of the loader.
- Symbolic links and files that change during a walk; the wall-clock limit of a load is an
  input, and a load that outlives it is not followed further.
- The time between the pre-flight look-up and the connection, in which DNS may change.
- Debug builds, where `count + 1` stops with an overflow panic instead of wrapping.
- ReloadGate.Admit: states the comparison for one fixed interval, which is how the server calls
  it; the interval comes from the configuration and never changes.
- SchedulerObject.Scheduler.TriggerNow: the spawned run is an entry of the task list, and its
  steps are those of the step system.
- Executor.ExecutorBundle.Dispatch: the answers of the executors and the aborts are functions of
  the attempt number, fixed beforehand; the step system leaves them open.
- CapForgets: its parameter stands for 1024, the only value it takes.
- The fixture patterns themselves and the display of paths: `isFixture` is any predicate on
  paths.
- Job names inside one file: that they are distinct and sorted is what the YAML map gives and
  is not used.

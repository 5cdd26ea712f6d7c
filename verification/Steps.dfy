/**
 The scheduler of src/scheduler.rs as a step system.

 Every lock section of the source is one atomic step of one task; so is every await point
 of a dispatch. `Act` is what the step does to the shared state. Cron loops, `/execute`
 callers, the runs they spawn, `/stop` and `/reload` callers and plain registrations
 interleave freely, and a caller may appear at any time.

 Dropping a JoinHandle detaches the task, so no step ever takes a cron loop away.
 */
module Steps {
  import opened Wrappers
  import opened Dsl
  import opened Executor

  datatype RuntimeState = RuntimeState(lastExecutionMs: Option<int>, lastResult: string)

  // An `Arc<Mutex<JobRuntimeState>>`: its contents and the registration it was made for.
  datatype Cell = Cell(spec: JobSpec, state: RuntimeState)

  // A RegisteredJob; `cell` is an index into `State.cells`.
  datatype Registered = Registered(spec: JobSpec, cell: nat)

  // A RunningInstance; `cancel` is an index into `State.born`.
  datatype Instance = Instance(startedAtMs: int, schedule: string, cancel: nat)

  datatype Source = FromCron | FromTrigger

  // What a cron loop or a run carries along: the key it takes the slot under, and the
  // registration (spec and cell) it was started from.
  datatype Work = Work(key: JobKey, spec: JobSpec, cell: nat, source: Source)

  // `notify_waiters` stores no permit: it reaches a task only while it is `Listening`. An
  // executor call stops waiting once the response head is there or the child has exited; it
  // is `Closed` for the rest of that attempt.
  datatype Ear = Deaf | Listening | Notified | Closed

  // How a task ended. `RanOut` is the end of the loop that was made for a cell.
  datatype Reply = Finished | RanOut(cell: nat) | NotFound | AlreadyRunning | Triggered | Stopped(signalled: bool) | Reloaded(count: nat)

  datatype Task =
    // scheduling_loop
    | Sleeping(w: Work)
    | Skipping(w: Work, nowMs: int)
    | Firing(w: Work)
    // trigger_now
    | LookingUp(key: JobKey)
    | Beginning(w: Work)
    | Spawning(w: Work, token: nat)
    // a slot is held from here until the end of Releasing, and in Spawning
    | Begun(w: Work)
    | Dispatching(w: Work, token: nat, phase: Phase, rows: seq<HistoryEntry>, ear: Ear)
    | Releasing(w: Work, token: nat, rows: seq<HistoryEntry>, outcome: DispatchOutcome)
    // stop
    | CheckingJob(key: JobKey)
    | Signalling(key: JobKey)
    // reload_from and register_all
    | SignallingAll(list: seq<JobSpec>)
    | Clearing(list: seq<JobSpec>)
    | Registering(list: seq<JobSpec>, count: nat)
    | SpawningLoop(spec: JobSpec, cell: nat, list: seq<JobSpec>, count: nat)
    | Inserting(spec: JobSpec, cell: nat, list: seq<JobSpec>, count: nat)
    | Ended(reply: Reply)

  // A `notify_waiters` call on `token`, found in the running map under `key`.
  datatype Signal = Signal(token: nat, key: JobKey)

  // `born[t]` is the key that cancel token `t` was created for; `log` and `signals` record
  // every `history.record` and every `notify_waiters` call so far.
  datatype State = State(
    offline: bool,
    jobs: map<JobKey, Registered>,
    running: map<JobKey, Instance>,
    cells: seq<Cell>,
    born: seq<JobKey>,
    tasks: seq<Task>,
    log: seq<HistoryEntry>,
    signals: set<Signal>)

  // What the step gets from outside: a clock reading, nothing, a cancel future being created
  // or dropped, what happens to the dispatch, or a schedule without future fires.
  datatype Input = Clock(nowMs: int) | Step | Hear | Close | Happens(e: Event) | NoMoreFires

  const FRESH_STATE := RuntimeState(None, "")

  function ScheduleOf(spec: JobSpec): string {
    if spec.trigger.Cron? then spec.trigger.expr else ""
  }

  // The row recorded for a fire outside the time window.
  function SkippedRow(spec: JobSpec): HistoryEntry {
    HistoryEntry(
      spec.key, spec.kind.TypeLabel(), Skipped, None, None, None, 1, 1, None, Some("outside time window"))
  }

  // An abort is a consequence of the cancel signal having arrived.
  predicate IsAbort(e: Event) {
    e.AbortDelay? || (e.Result? && e.result.Aborted?)
  }

  predicate InCron(t: Task) {
    t.Sleeping? || t.Skipping? || t.Firing?
  }

  predicate InTrigger(t: Task) {
    t.LookingUp? || t.Beginning? || t.Spawning?
  }

  predicate InRun(t: Task) {
    t.Begun? || t.Dispatching? || t.Releasing?
  }

  predicate InStop(t: Task) {
    t.CheckingJob? || t.Signalling?
  }

  predicate InReload(t: Task) {
    t.SignallingAll? || t.Clearing?
  }

  predicate InRegister(t: Task) {
    t.Registering? || t.SpawningLoop? || t.Inserting?
  }

  predicate CanAct(s: State, i: nat, a: Input) {
    && i < |s.tasks|
    && match s.tasks[i]
       case Sleeping(_) => a.Clock? || a.NoMoreFires?
       case Firing(_) => a.Clock?
       case Beginning(_) => a.Clock?
       // `expect("just inserted")`: the task panics if the key is gone
       case Begun(w) => a.Step? && w.key in s.running
       case Dispatching(_, _, p, _, ear) =>
         if p.Returned? then a.Clock?
         else if a.Hear? then (p.Attempting? || p.Delaying?) && ear == Deaf
         else if a.Close? then p.Attempting? && (ear == Listening || ear == Notified)
         else a.Happens? && CanAdvance(p, a.e) && (IsAbort(a.e) ==> ear == Notified)
       case Ended(_) => false
       case _ => a.Step?
  }

  function Put(s: State, i: nat, t: Task): State
    requires i < |s.tasks|
  {
    s.(tasks := s.tasks[i := t])
  }

  // begin_running, once the key is known to be absent.
  function Take(s: State, key: JobKey, nowMs: int, schedule: string): State {
    s.(running := s.running[key := Instance(nowMs, schedule, |s.born|)], born := s.born + [key])
  }

  // What `notify_waiters` on one of `tokens` does to a task.
  function Notify(t: Task, tokens: set<nat>): Task {
    if t.Dispatching? && t.ear == Listening && t.token in tokens then t.(ear := Notified) else t
  }

  function NotifyAll(s: State, tokens: set<nat>): State {
    s.(tasks := seq(|s.tasks|, j requires 0 <= j < |s.tasks| => Notify(s.tasks[j], tokens)))
  }

  function WriteCell(s: State, cell: nat, state: RuntimeState): State {
    if cell < |s.cells| then s.(cells := s.cells[cell := s.cells[cell].(state := state)]) else s
  }

  // The signals that reload_from sends.
  function SignalsFor(running: map<JobKey, Instance>): set<Signal> {
    set k | k in running :: Signal(running[k].cancel, k)
  }

  /******* The steps of each kind of task *******/

  // scheduling_loop, up to the dispatch.
  function ActCron(s: State, i: nat, a: Input): State
    requires CanAct(s, i, a)
    requires InCron(s.tasks[i])
  {
    var w := s.tasks[i].w;
    match s.tasks[i]
    case Sleeping(_) =>
      if a.NoMoreFires? then Put(s, i, Ended(RanOut(w.cell)))
      else if w.spec.window.Allows(a.nowMs) then Put(s, i, Firing(w))
      else Put(s, i, Skipping(w, a.nowMs)).(log := s.log + [SkippedRow(w.spec)])
    case Skipping(_, nowMs) =>
      WriteCell(Put(s, i, Sleeping(w)), w.cell, RuntimeState(Some(nowMs), "SKIPPED"))
    case Firing(_) =>
      if w.key in s.running then Put(s, i, Sleeping(w))
      else Put(Take(s, w.key, a.nowMs, ScheduleOf(w.spec)), i, Begun(w))
  }

  // trigger_now, on the calling task.
  function ActTrigger(s: State, i: nat, a: Input): State
    requires CanAct(s, i, a)
    requires InTrigger(s.tasks[i])
  {
    match s.tasks[i]
    case LookingUp(key) =>
      if key !in s.jobs then Put(s, i, Ended(NotFound))
      else Put(s, i, Beginning(Work(key, s.jobs[key].spec, s.jobs[key].cell, FromTrigger)))
    case Beginning(w) =>
      if w.key in s.running then Put(s, i, Ended(AlreadyRunning))
      else Put(Take(s, w.key, a.nowMs, ScheduleOf(w.spec)), i, Begun(w))
    // the entry goes on as the spawned run; the caller's answer gets an entry of its own
    case Spawning(w, token) =>
      s.(tasks := s.tasks[i := Dispatching(w, token, Entered, [], Deaf)] + [Ended(Triggered)])
  }

  // From the slot being taken to its being given back.
  function ActRun(s: State, i: nat, a: Input): State
    requires CanAct(s, i, a)
    requires InRun(s.tasks[i])
  {
    match s.tasks[i]
    case Begun(w) =>
      var token := s.running[w.key].cancel;
      Put(s, i, if w.source == FromCron then Dispatching(w, token, Entered, [], Deaf) else Spawning(w, token))
    case Dispatching(w, token, p, rows, ear) =>
      if p.Returned? then
        WriteCell(
          Put(s, i, Releasing(w, token, rows, p.outcome)),
          w.cell, RuntimeState(Some(a.nowMs), p.outcome.status.AsStr()))
      else if a.Hear? then Put(s, i, Dispatching(w, token, p, rows, Listening))
      else if a.Close? then Put(s, i, Dispatching(w, token, p, rows, Closed))
      else
        var more := Recorded(w.spec, p);
        Put(s, i, Dispatching(w, token, Advance(w.spec, s.offline, p, a.e), rows + more, Deaf)).(log := s.log + more)
    case Releasing(w, _, _, _) =>
      Put(s, i, if w.source == FromCron then Sleeping(w) else Ended(Finished)).(running := s.running - {w.key})
  }

  function ActStop(s: State, i: nat, a: Input): State
    requires CanAct(s, i, a)
    requires InStop(s.tasks[i])
  {
    match s.tasks[i]
    case CheckingJob(key) => Put(s, i, if key in s.jobs then Signalling(key) else Ended(NotFound))
    case Signalling(key) =>
      if key !in s.running then Put(s, i, Ended(Stopped(false)))
      else
        var token := s.running[key].cancel;
        Put(NotifyAll(s, {token}), i, Ended(Stopped(true))).(signals := s.signals + {Signal(token, key)})
  }

  // reload_from, up to the `register` calls.
  function ActReload(s: State, i: nat, a: Input): State
    requires CanAct(s, i, a)
    requires InReload(s.tasks[i])
  {
    match s.tasks[i]
    case SignallingAll(list) =>
      var tokens := set k | k in s.running :: s.running[k].cancel;
      Put(NotifyAll(s, tokens), i, Clearing(list))
        .(signals := s.signals + SignalsFor(s.running))
    case Clearing(list) => Put(s, i, Registering(list, |list|)).(jobs := map[])
  }

  // `register`, once for each job of the list.
  function ActRegister(s: State, i: nat, a: Input): State
    requires CanAct(s, i, a)
    requires InRegister(s.tasks[i])
  {
    match s.tasks[i]
    case Registering(list, count) =>
      if list == [] then Put(s, i, Ended(Reloaded(count)))
      else
        Put(s, i, SpawningLoop(list[0], |s.cells|, list[1..], count))
          .(jobs := s.jobs - {list[0].key}, cells := s.cells + [Cell(list[0], FRESH_STATE)])
    case SpawningLoop(spec, cell, list, count) =>
      var next := Inserting(spec, cell, list, count);
      if spec.trigger.Cron?
      then s.(tasks := s.tasks[i := next] + [Sleeping(Work(spec.key, spec, cell, FromCron))])
      else Put(s, i, next)
    case Inserting(spec, cell, list, count) =>
      Put(s, i, Registering(list, count)).(jobs := s.jobs[spec.key := Registered(spec, cell)])
  }

  function Act(s: State, i: nat, a: Input): State
    requires CanAct(s, i, a)
  {
    var t := s.tasks[i];
    if InCron(t) then ActCron(s, i, a)
    else if InTrigger(t) then ActTrigger(s, i, a)
    else if InRun(t) then ActRun(s, i, a)
    else if InStop(t) then ActStop(s, i, a)
    else if InReload(t) then ActReload(s, i, a)
    else ActRegister(s, i, a)
  }

  /******* Runs *******/

  // A task of the system takes a step, or a caller arrives.
  datatype Move = Acts(i: nat, a: Input) | Arrives(t: Task)

  predicate IsCaller(t: Task) {
    || t.LookingUp? || t.CheckingJob? || t.SignallingAll?
    || (t.Registering? && t.count == |t.list|)
  }

  predicate CanMove(s: State, m: Move) {
    match m
    case Acts(i, a) => CanAct(s, i, a)
    case Arrives(t) => IsCaller(t)
  }

  function After(s: State, m: Move): State
    requires CanMove(s, m)
  {
    match m
    case Acts(i, a) => Act(s, i, a)
    case Arrives(t) => s.(tasks := s.tasks + [t])
  }

  // `to` is reached from `from` by the given moves.
  ghost predicate Leads(from: State, moves: seq<Move>, to: State)
    decreases |moves|
  {
    if moves == [] then from == to
    else CanMove(from, moves[0]) && Leads(After(from, moves[0]), moves[1..], to)
  }

  function Initial(offline: bool): State {
    State(offline, map[], map[], [], [], [], [], {})
  }

  ghost predicate Reachable(s: State) {
    exists moves :: Leads(Initial(s.offline), moves, s)
  }
}

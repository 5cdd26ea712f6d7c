/**
 The history log over whole runs of the scheduler: restricted to one key, it is a
 concatenation of complete dispatches followed by the rows of at most one still under way.
 */
module Histories {
  import opened Dsl
  import opened Executor
  import opened Steps
  import opened Slots

  /******* What each task may rely on *******/

  ghost predicate WorkOk(cells: seq<Cell>, w: Work) {
    w.key == w.spec.key && w.cell < |cells| && cells[w.cell].spec == w.spec
  }

  ghost predicate TaskOk(offline: bool, cells: seq<Cell>, t: Task) {
    match t
    case Sleeping(w) => WorkOk(cells, w)
    case Skipping(w, _) => WorkOk(cells, w)
    case Firing(w) => WorkOk(cells, w)
    case Beginning(w) => WorkOk(cells, w)
    case Spawning(w, _) => WorkOk(cells, w)
    case Begun(w) => WorkOk(cells, w)
    case Dispatching(w, _, p, rows, _) => WorkOk(cells, w) && PhaseInv(w.spec, offline, p, rows)
    case Releasing(w, _, rows, outcome) => WorkOk(cells, w) && CompleteRun(w.spec, offline, rows, outcome)
    case SpawningLoop(spec, cell, _, _) => cell < |cells| && cells[cell].spec == spec
    case Inserting(spec, cell, _, _) => cell < |cells| && cells[cell].spec == spec
    case _ => true
  }

  ghost predicate JobsOk(cells: seq<Cell>, jobs: map<JobKey, Registered>) {
    forall k :: k in jobs ==>
      jobs[k].spec.key == k && jobs[k].cell < |cells| && cells[jobs[k].cell].spec == jobs[k].spec
  }

  ghost predicate LocalInv(s: State) {
    && (forall i :: 0 <= i < |s.tasks| ==> TaskOk(s.offline, s.cells, s.tasks[i]))
    && JobsOk(s.cells, s.jobs)
  }

  // Cells are only added, and never change the registration they belong to.
  ghost predicate CellsGrow(cells: seq<Cell>, cells': seq<Cell>) {
    && |cells| <= |cells'|
    && forall c :: 0 <= c < |cells| ==> cells'[c].spec == cells[c].spec
  }

  lemma TaskStaysOk(offline: bool, cells: seq<Cell>, cells': seq<Cell>, t: Task, t': Task)
    requires TaskOk(offline, cells, t) && CellsGrow(cells, cells')
    requires t' == t || exists tokens :: t' == Notify(t, tokens)
    ensures TaskOk(offline, cells', t')
  {
  }

  // A step of task `i`: it suffices to look at what the task becomes and what it spawns.
  lemma LocalStep(s: State, s': State, i: nat, tokens: set<nat>)
    requires LocalInv(s) && i < |s.tasks| <= |s'.tasks|
    requires s'.offline == s.offline && CellsGrow(s.cells, s'.cells)
    requires forall j :: 0 <= j < |s.tasks| && j != i ==> s'.tasks[j] == Notify(s.tasks[j], tokens)
    requires TaskOk(s'.offline, s'.cells, s'.tasks[i]) && JobsOk(s'.cells, s'.jobs)
    requires forall j :: |s.tasks| <= j < |s'.tasks| ==> TaskOk(s'.offline, s'.cells, s'.tasks[j])
    ensures LocalInv(s')
  {
    forall j | 0 <= j < |s'.tasks|
      ensures TaskOk(s'.offline, s'.cells, s'.tasks[j])
    {
      if j < |s.tasks| && j != i {
        TaskStaysOk(s.offline, s.cells, s'.cells, s.tasks[j], s'.tasks[j]);
      }
    }
  }

  lemma RunKeepsLocal(s: State, i: nat, a: Input)
    requires LocalInv(s) && CanAct(s, i, a) && InRun(s.tasks[i])
    ensures LocalInv(ActRun(s, i, a))
  {
    var s' := ActRun(s, i, a);
    var t := s.tasks[i];
    assert TaskOk(s.offline, s.cells, t);
    if t.Dispatching? && a.Happens? && !t.phase.Returned? {
      AdvanceKeepsPhaseInv(t.w.spec, s.offline, t.phase, t.rows, a.e);
    }
    LocalStep(s, s', i, {});
  }

  lemma CronKeepsLocal(s: State, i: nat, a: Input)
    requires LocalInv(s) && CanAct(s, i, a) && InCron(s.tasks[i])
    ensures LocalInv(ActCron(s, i, a))
  {
    assert TaskOk(s.offline, s.cells, s.tasks[i]);
    LocalStep(s, ActCron(s, i, a), i, {});
  }

  lemma TriggerKeepsLocal(s: State, i: nat, a: Input)
    requires LocalInv(s) && CanAct(s, i, a) && InTrigger(s.tasks[i])
    ensures LocalInv(ActTrigger(s, i, a))
  {
    assert TaskOk(s.offline, s.cells, s.tasks[i]);
    LocalStep(s, ActTrigger(s, i, a), i, {});
  }

  lemma StopKeepsLocal(s: State, i: nat, a: Input)
    requires LocalInv(s) && CanAct(s, i, a) && InStop(s.tasks[i])
    ensures LocalInv(ActStop(s, i, a))
  {
    var t := s.tasks[i];
    LocalStep(s, ActStop(s, i, a), i,
      if t.Signalling? && t.key in s.running then {s.running[t.key].cancel} else {});
  }

  lemma ReloadKeepsLocal(s: State, i: nat, a: Input)
    requires LocalInv(s) && CanAct(s, i, a) && InReload(s.tasks[i])
    ensures LocalInv(ActReload(s, i, a))
  {
    var tokens := set k | k in s.running :: s.running[k].cancel;
    LocalStep(s, ActReload(s, i, a), i, if s.tasks[i].SignallingAll? then tokens else {});
  }

  lemma SpawningKeepsLocal(s: State, i: nat)
    requires LocalInv(s) && i < |s.tasks| && s.tasks[i].SpawningLoop?
    ensures LocalInv(ActRegister(s, i, Step))
  {
    assert TaskOk(s.offline, s.cells, s.tasks[i]);
    LocalStep(s, ActRegister(s, i, Step), i, {});
  }

  lemma InsertingKeepsLocal(s: State, i: nat)
    requires LocalInv(s) && i < |s.tasks| && s.tasks[i].Inserting?
    ensures LocalInv(ActRegister(s, i, Step))
  {
    assert TaskOk(s.offline, s.cells, s.tasks[i]);
    LocalStep(s, ActRegister(s, i, Step), i, {});
  }

  lemma RegisterKeepsLocal(s: State, i: nat, a: Input)
    requires LocalInv(s) && CanAct(s, i, a) && InRegister(s.tasks[i])
    ensures LocalInv(ActRegister(s, i, a))
  {
    assert a == Step;
    match s.tasks[i]
    case Registering(_, _) => LocalStep(s, ActRegister(s, i, a), i, {});
    case SpawningLoop(_, _, _, _) => SpawningKeepsLocal(s, i);
    case Inserting(_, _, _, _) => InsertingKeepsLocal(s, i);
  }

  lemma MoveKeepsLocal(s: State, m: Move)
    requires LocalInv(s) && CanMove(s, m)
    ensures LocalInv(After(s, m))
  {
    match m
    case Arrives(_) =>
    case Acts(i, a) =>
      var t := s.tasks[i];
      if InCron(t) {
        CronKeepsLocal(s, i, a);
      } else if InTrigger(t) {
        TriggerKeepsLocal(s, i, a);
      } else if InRun(t) {
        RunKeepsLocal(s, i, a);
      } else if InStop(t) {
        StopKeepsLocal(s, i, a);
      } else if InReload(t) {
        ReloadKeepsLocal(s, i, a);
      } else {
        RegisterKeepsLocal(s, i, a);
      }
  }

  /******* The log of one key *******/

  // The rows of key `k`, without those of fires outside the time window.
  function RowsFor(log: seq<HistoryEntry>, k: JobKey): seq<HistoryEntry> {
    if log == [] then []
    else
      var n := |log| - 1;
      if log[n].key == k && log[n].status != Skipped then RowsFor(log[..n], k) + [log[n]] else RowsFor(log[..n], k)
  }

  lemma {:induction false} RowsForMore(log: seq<HistoryEntry>, more: seq<HistoryEntry>, k: JobKey)
    requires |more| <= 1
    ensures RowsFor(log + more, k) ==
      if more != [] && more[0].key == k && more[0].status != Skipped then RowsFor(log, k) + more else RowsFor(log, k)
  {
    if more == [] {
      assert log + more == log;
    } else {
      assert (log + more)[..|log|] == log;
    }
  }

  // A dispatch that has returned: the spec it ran, what it recorded, how it ended.
  datatype Run = Run(spec: JobSpec, rows: seq<HistoryEntry>, outcome: DispatchOutcome)

  ghost predicate AllComplete(offline: bool, runs: seq<Run>, k: JobKey) {
    forall i :: 0 <= i < |runs| ==>
      runs[i].spec.key == k && CompleteRun(runs[i].spec, offline, runs[i].rows, runs[i].outcome)
  }

  function Flat(runs: seq<Run>): seq<HistoryEntry> {
    if runs == [] then [] else Flat(runs[..|runs| - 1]) + runs[|runs| - 1].rows
  }

  // The rows of `k` are those of some complete runs, one after the other, then `current`.
  ghost predicate Splits(offline: bool, log: seq<HistoryEntry>, k: JobKey, current: seq<HistoryEntry>) {
    exists runs :: AllComplete(offline, runs, k) && RowsFor(log, k) == Flat(runs) + current
  }

  lemma SplitsMore(
    offline: bool, log: seq<HistoryEntry>, k: JobKey, current: seq<HistoryEntry>, more: seq<HistoryEntry>, mine: bool)
    requires Splits(offline, log, k, current) && |more| <= 1
    requires more != [] ==> mine == (more[0].key == k && more[0].status != Skipped)
    ensures Splits(offline, log + more, k, if mine then current + more else current)
  {
    RowsForMore(log, more, k);
    var runs :| AllComplete(offline, runs, k) && RowsFor(log, k) == Flat(runs) + current;
    var current' := if mine then current + more else current;
    assert RowsFor(log + more, k) == Flat(runs) + current' by {
      if more == [] {
        assert current + more == current;
      } else if mine {
        assert Flat(runs) + current + more == Flat(runs) + (current + more);
      }
    }
  }

  lemma SplitsDone(
    offline: bool, log: seq<HistoryEntry>, spec: JobSpec, rows: seq<HistoryEntry>, outcome: DispatchOutcome)
    requires Splits(offline, log, spec.key, rows) && CompleteRun(spec, offline, rows, outcome)
    ensures Splits(offline, log, spec.key, [])
  {
    var runs :| AllComplete(offline, runs, spec.key) && RowsFor(log, spec.key) == Flat(runs) + rows;
    var all := runs + [Run(spec, rows, outcome)];
    assert all[..|all| - 1] == runs;
    assert AllComplete(offline, all, spec.key);
    assert RowsFor(log, spec.key) == Flat(all) + [];
  }

  // What the dispatch of this task has recorded so far.
  function Progress(t: Task): seq<HistoryEntry> {
    if t.Dispatching? || t.Releasing? then t.rows else []
  }

  ghost predicate Accounted(offline: bool, log: seq<HistoryEntry>, c: Claim, progress: seq<HistoryEntry>) {
    c.Slot? ==> Splits(offline, log, c.key, progress)
  }

  ghost predicate TasksAccounted(s: State) {
    forall i :: 0 <= i < |s.tasks| ==> Accounted(s.offline, s.log, ClaimOf(s.tasks[i]), Progress(s.tasks[i]))
  }

  ghost predicate HistInv(s: State) {
    && TasksAccounted(s)
    && (forall k :: k !in s.running ==> Splits(s.offline, s.log, k, []))
  }

  ghost predicate AllInv(s: State) {
    SlotInv(s) && LocalInv(s) && HistInv(s)
  }

  // Steps that record nothing, or a row that no key counts, and leave claims and progress
  // alone or let a task take a free slot.
  lemma CalmStep(s: State, s': State, i: nat, more: seq<HistoryEntry>)
    requires HistInv(s) && i < |s.tasks| <= |s'.tasks|
    requires s'.offline == s.offline && s'.log == s.log + more && |more| <= 1
    requires more != [] ==> more[0].status == Skipped
    requires s.running.Keys <= s'.running.Keys
    requires forall j :: 0 <= j < |s.tasks| && j != i ==>
      ClaimOf(s'.tasks[j]) == ClaimOf(s.tasks[j]) && Progress(s'.tasks[j]) == Progress(s.tasks[j])
    requires forall j :: |s.tasks| <= j < |s'.tasks| ==> ClaimOf(s'.tasks[j]).Nothing?
    requires ClaimOf(s'.tasks[i]).Slot? ==>
      var k := ClaimOf(s'.tasks[i]).key;
      && Progress(s'.tasks[i]) == Progress(s.tasks[i])
      && (HoldsKey(ClaimOf(s.tasks[i]), k) || (k !in s.running && Progress(s'.tasks[i]) == []))
    ensures HistInv(s')
  {
    forall j | 0 <= j < |s'.tasks| && ClaimOf(s'.tasks[j]).Slot?
      ensures Splits(s'.offline, s'.log, ClaimOf(s'.tasks[j]).key, Progress(s'.tasks[j]))
    {
      assert j < |s.tasks| ==> Accounted(s.offline, s.log, ClaimOf(s.tasks[j]), Progress(s.tasks[j]));
      SplitsMore(s.offline, s.log, ClaimOf(s'.tasks[j]).key, Progress(s'.tasks[j]), more, false);
    }
    forall k | k !in s'.running
      ensures Splits(s'.offline, s'.log, k, [])
    {
      SplitsMore(s.offline, s.log, k, [], more, false);
    }
  }

  lemma CronKeepsHist(s: State, i: nat, a: Input)
    requires HistInv(s) && CanAct(s, i, a) && InCron(s.tasks[i])
    ensures HistInv(ActCron(s, i, a))
  {
    var s' := ActCron(s, i, a);
    var more := if s'.tasks[i].Skipping? then [SkippedRow(s.tasks[i].w.spec)] else [];
    assert s.log + [] == s.log;
    CalmStep(s, s', i, more);
  }

  lemma StopKeepsHist(s: State, i: nat, a: Input)
    requires HistInv(s) && CanAct(s, i, a) && InStop(s.tasks[i])
    ensures HistInv(ActStop(s, i, a))
  {
    assert s.log + [] == s.log;
    CalmStep(s, ActStop(s, i, a), i, []);
  }

  lemma ReloadKeepsHist(s: State, i: nat, a: Input)
    requires HistInv(s) && CanAct(s, i, a) && InReload(s.tasks[i])
    ensures HistInv(ActReload(s, i, a))
  {
    assert s.log + [] == s.log;
    CalmStep(s, ActReload(s, i, a), i, []);
  }

  lemma RegisterKeepsHist(s: State, i: nat, a: Input)
    requires HistInv(s) && CanAct(s, i, a) && InRegister(s.tasks[i])
    ensures HistInv(ActRegister(s, i, a))
  {
    assert s.log + [] == s.log;
    CalmStep(s, ActRegister(s, i, a), i, []);
  }

  lemma TriggerKeepsHist(s: State, i: nat, a: Input)
    requires HistInv(s) && CanAct(s, i, a) && InTrigger(s.tasks[i])
    ensures HistInv(ActTrigger(s, i, a))
  {
    assert s.log + [] == s.log;
    CalmStep(s, ActTrigger(s, i, a), i, []);
  }

  // The dispatch of task `i` records `more`; it is the only one that may write rows of its key.
  lemma RecordingStep(s: State, s': State, i: nat, more: seq<HistoryEntry>)
    requires HistInv(s) && Exclusive(Claims(s)) && i < |s.tasks| == |s'.tasks| && s.tasks[i].Dispatching?
    requires s'.offline == s.offline && s'.log == s.log + more && s'.running == s.running
    requires s.tasks[i].w.key in s.running
    requires |more| <= 1 && (more != [] ==> more[0].key == s.tasks[i].w.key && more[0].status != Skipped)
    requires forall j :: 0 <= j < |s.tasks| && j != i ==> s'.tasks[j] == s.tasks[j]
    requires ClaimOf(s'.tasks[i]) == ClaimOf(s.tasks[i]) && Progress(s'.tasks[i]) == s.tasks[i].rows + more
    ensures HistInv(s')
  {
    var k := s.tasks[i].w.key;
    assert Claims(s)[i] == ClaimOf(s.tasks[i]);
    forall j | 0 <= j < |s'.tasks| && ClaimOf(s'.tasks[j]).Slot?
      ensures Splits(s'.offline, s'.log, ClaimOf(s'.tasks[j]).key, Progress(s'.tasks[j]))
    {
      assert Claims(s)[j] == ClaimOf(s.tasks[j]);
      assert Accounted(s.offline, s.log, ClaimOf(s.tasks[j]), Progress(s.tasks[j]));
      SplitsMore(s.offline, s.log, ClaimOf(s'.tasks[j]).key, Progress(s.tasks[j]), more, j == i);
    }
    forall k' | k' !in s'.running
      ensures Splits(s'.offline, s'.log, k', [])
    {
      SplitsMore(s.offline, s.log, k', [], more, false);
    }
  }

  lemma ReleasingAccounts(s: State, i: nat)
    requires TasksAccounted(s) && CanAct(s, i, Step) && s.tasks[i].Releasing?
    ensures TasksAccounted(ActRun(s, i, Step))
  {
    var s' := ActRun(s, i, Step);
    forall j | 0 <= j < |s'.tasks|
      ensures Accounted(s'.offline, s'.log, ClaimOf(s'.tasks[j]), Progress(s'.tasks[j]))
    {
      assert j != i ==> s'.tasks[j] == s.tasks[j];
    }
  }

  lemma ReleasingStep(s: State, i: nat)
    requires HistInv(s) && CanAct(s, i, Step) && s.tasks[i].Releasing?
    requires TaskOk(s.offline, s.cells, s.tasks[i])
    ensures HistInv(ActRun(s, i, Step))
  {
    var t := s.tasks[i];
    assert Accounted(s.offline, s.log, ClaimOf(t), Progress(t));
    SplitsDone(s.offline, s.log, t.w.spec, t.rows, t.outcome);
    ReleasingAccounts(s, i);
  }

  // The row that the step of a dispatch records, if any.
  function RecordedBy(t: Task, a: Input): seq<HistoryEntry>
    requires t.Dispatching?
  {
    if a.Happens? && !t.phase.Returned? then Recorded(t.w.spec, t.phase) else []
  }

  lemma DispatchShape(s: State, i: nat, a: Input)
    requires CanAct(s, i, a) && s.tasks[i].Dispatching?
    ensures var s', t, more := ActRun(s, i, a), s.tasks[i], RecordedBy(s.tasks[i], a);
      && s'.offline == s.offline && s'.log == s.log + more && s'.running == s.running && |s'.tasks| == |s.tasks|
      && (forall j :: 0 <= j < |s.tasks| && j != i ==> s'.tasks[j] == s.tasks[j])
      && ClaimOf(s'.tasks[i]) == ClaimOf(t) && Progress(s'.tasks[i]) == t.rows + more
  {
    assert s.log + [] == s.log && s.tasks[i].rows + [] == s.tasks[i].rows;
  }

  lemma DispatchKeepsHist(s: State, i: nat, a: Input)
    requires HistInv(s) && Exclusive(Claims(s)) && CanAct(s, i, a) && s.tasks[i].Dispatching?
    requires WorkOk(s.cells, s.tasks[i].w) && s.tasks[i].w.key in s.running
    ensures HistInv(ActRun(s, i, a))
  {
    DispatchShape(s, i, a);
    RecordingStep(s, ActRun(s, i, a), i, RecordedBy(s.tasks[i], a));
  }

  lemma RunKeepsHist(s: State, i: nat, a: Input)
    requires HistInv(s) && Exclusive(Claims(s)) && CanAct(s, i, a) && InRun(s.tasks[i])
    requires TaskOk(s.offline, s.cells, s.tasks[i]) && s.tasks[i].w.key in s.running
    ensures HistInv(ActRun(s, i, a))
  {
    match s.tasks[i]
    case Releasing(_, _, _, _) => ReleasingStep(s, i);
    case Dispatching(_, _, _, _, _) => DispatchKeepsHist(s, i, a);
    case Begun(_) =>
      assert s.log + [] == s.log;
      CalmStep(s, ActRun(s, i, a), i, []);
  }

  lemma ArrivalKeepsHist(s: State, t: Task)
    requires HistInv(s) && IsCaller(t)
    ensures HistInv(After(s, Arrives(t)))
  {
  }

  lemma MoveKeepsAll(s: State, m: Move)
    requires AllInv(s) && CanMove(s, m)
    ensures AllInv(After(s, m))
  {
    MoveKeepsSlots(s, m);
    MoveKeepsLocal(s, m);
    match m
    case Arrives(t) => ArrivalKeepsHist(s, t);
    case Acts(i, a) =>
      var t := s.tasks[i];
      if InCron(t) {
        CronKeepsHist(s, i, a);
      } else if InTrigger(t) {
        TriggerKeepsHist(s, i, a);
      } else if InRun(t) {
        assert Claims(s)[i] == ClaimOf(t) && TaskOk(s.offline, s.cells, t);
        RunKeepsHist(s, i, a);
      } else if InStop(t) {
        StopKeepsHist(s, i, a);
      } else if InReload(t) {
        ReloadKeepsHist(s, i, a);
      } else {
        RegisterKeepsHist(s, i, a);
      }
  }

  lemma {:induction false} AllAlways(from: State, moves: seq<Move>, s: State)
    requires AllInv(from) && Leads(from, moves, s)
    ensures AllInv(s)
    decreases |moves|
  {
    if moves != [] {
      MoveKeepsAll(from, moves[0]);
      AllAlways(After(from, moves[0]), moves[1..], s);
    }
  }

  lemma ReachableAll(s: State)
    requires Reachable(s)
    ensures AllInv(s)
  {
    var moves :| Leads(Initial(s.offline), moves, s);
    forall k
      ensures Splits(s.offline, [], k, [])
    {
      assert AllComplete(s.offline, [], k) && RowsFor([], k) == Flat([]) + [];
    }
    AllAlways(Initial(s.offline), moves, s);
  }

  // `rows` are those of the dispatch of `t`: all RETRYING, or a complete run that has not yet
  // given its slot back.
  ghost predicate UnderWay(s: State, t: Task, rows: seq<HistoryEntry>) {
    && (t.Dispatching? || t.Releasing?) && t.rows == rows
    && (AllRetrying(t.w.spec, rows) || exists outcome :: CompleteRun(t.w.spec, s.offline, rows, outcome))
  }

  lemma ProgressIsUnderWay(s: State, i: nat)
    requires LocalInv(s) && i < |s.tasks| && Progress(s.tasks[i]) != []
    ensures UnderWay(s, s.tasks[i], Progress(s.tasks[i]))
  {
    var t := s.tasks[i];
    assert TaskOk(s.offline, s.cells, t);
    if t.Dispatching? {
      match t.phase
      case Returned(outcome) => assert CompleteRun(t.w.spec, s.offline, t.rows, outcome);
      case _ =>
    } else {
      assert CompleteRun(t.w.spec, s.offline, t.rows, t.outcome);
    }
  }

  // The history of a key in any reachable state: complete runs, then the rows of the run
  // that holds the slot, if there is one, which are those of a dispatch under way or of one
  // that has returned and not yet given the slot back.
  lemma HistoryOfAKey(s: State, k: JobKey) returns (runs: seq<Run>, current: seq<HistoryEntry>)
    requires Reachable(s)
    ensures AllComplete(s.offline, runs, k) && RowsFor(s.log, k) == Flat(runs) + current
    ensures k !in s.running ==> current == []
    ensures current != [] ==> exists i :: 0 <= i < |s.tasks| && Holds(s.tasks[i], k) && UnderWay(s, s.tasks[i], current)
  {
    ReachableAll(s);
    current := [];
    if k in s.running {
      RunningIsHeldOnce(s, k);
      var i :| 0 <= i < |s.tasks| && Holds(s.tasks[i], k);
      current := Progress(s.tasks[i]);
      assert Accounted(s.offline, s.log, ClaimOf(s.tasks[i]), current);
      if current != [] {
        ProgressIsUnderWay(s, i);
      }
    }
    runs :| AllComplete(s.offline, runs, k) && RowsFor(s.log, k) == Flat(runs) + current;
  }
}

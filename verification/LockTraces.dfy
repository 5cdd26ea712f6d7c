/**
 The lock programs are those of the steps: over any run of the scheduler, the locks that a
 task takes are the acquires of the programs of its calls, in their order.
 */
module LockTraces {
  import opened Dsl
  import opened Steps
  import opened Registrations
  import opened Loops
  import L = Locks

  /******* What a program acquires *******/

  function Acquires(ops: seq<L.Op>): seq<L.Lock> {
    if ops == [] then []
    else (if ops[0].Acquire? then [ops[0].lock] else []) + Acquires(ops[1..])
  }

  function AcquiresAll(calls: seq<L.Call>): seq<L.Lock> {
    if calls == [] then [] else Acquires(L.Program(calls[0])) + AcquiresAll(calls[1..])
  }

  // The `jobs` sections of `n` registrations.
  function JobsTwice(n: nat): seq<L.Lock> {
    if n == 0 then [] else [L.Jobs, L.Jobs] + JobsTwice(n - 1)
  }

  lemma {:induction false} AcquiresConcat(a: seq<L.Op>, b: seq<L.Op>)
    ensures Acquires(a + b) == Acquires(a) + Acquires(b)
  {
    if a == [] {
      assert a + b == b;
    } else {
      assert (a + b)[0] == a[0] && (a + b)[1..] == a[1..] + b;
      AcquiresConcat(a[1..], b);
      var first := if a[0].Acquire? then [a[0].lock] else [];
      assert first + (Acquires(a[1..]) + Acquires(b)) == first + Acquires(a[1..]) + Acquires(b);
    }
  }

  lemma AcquiresSection(l: L.Lock)
    ensures Acquires(L.Section(l)) == [l]
  {
    var release := [L.Release(l)];
    assert release[1..] == [];
    assert Acquires(release) == [];
    assert L.Section(l)[1..] == release;
  }

  lemma AcquiresThen(ops: seq<L.Op>, l: L.Lock)
    ensures Acquires(ops + L.Section(l)) == Acquires(ops) + [l]
  {
    AcquiresSection(l);
    AcquiresConcat(ops, L.Section(l));
  }

  lemma {:induction false} AcquiresRegisters(n: nat)
    ensures Acquires(L.Registers(n)) == JobsTwice(n)
  {
    if n > 0 {
      AcquiresRegisters(n - 1);
      AcquiresSection(L.Jobs);
      AcquiresThen(L.Section(L.Jobs), L.Jobs);
      AcquiresConcat(L.Section(L.Jobs) + L.Section(L.Jobs), L.Registers(n - 1));
    }
  }

  lemma RegisterAcquires()
    ensures Acquires(L.Program(L.Register)) == [L.Jobs, L.Jobs]
  {
    AcquiresRegisters(1);
    assert JobsTwice(1) == [L.Jobs, L.Jobs] + JobsTwice(0);
  }

  lemma TriggerAcquires()
    ensures Acquires(L.Program(L.TriggerNow(false, false))) == [L.Jobs]
    ensures Acquires(L.Program(L.TriggerNow(true, false))) == [L.Jobs, L.Running]
    ensures Acquires(L.Program(L.TriggerNow(true, true))) == [L.Jobs, L.Running, L.Running]
  {
    AcquiresSection(L.Jobs);
    AcquiresThen(L.Section(L.Jobs), L.Running);
    AcquiresThen(L.Section(L.Jobs) + L.Section(L.Running), L.Running);
  }

  lemma FinishAcquires(c: nat)
    ensures Acquires(L.Program(L.FinishRun(c))) == [L.RuntimeState(c), L.Running]
  {
    AcquiresSection(L.RuntimeState(c));
    AcquiresThen(L.Section(L.RuntimeState(c)), L.Running);
  }

  lemma CronAcquires(c: nat)
    ensures Acquires(L.Program(L.CronSkip(c))) == [L.RuntimeState(c)]
    ensures Acquires(L.Program(L.CronFire(false, c))) == [L.Running]
    ensures Acquires(L.Program(L.CronFire(true, c))) == [L.Running, L.Running, L.RuntimeState(c), L.Running]
  {
    var two := L.Section(L.Running) + L.Section(L.Running);
    AcquiresSection(L.RuntimeState(c));
    AcquiresSection(L.Running);
    AcquiresThen(L.Section(L.Running), L.Running);
    AcquiresThen(two, L.RuntimeState(c));
    AcquiresThen(two + L.Section(L.RuntimeState(c)), L.Running);
  }

  lemma StopAcquires()
    ensures Acquires(L.Program(L.Stop(false))) == [L.Jobs]
    ensures Acquires(L.Program(L.Stop(true))) == [L.Jobs, L.Running]
  {
    AcquiresSection(L.Jobs);
    AcquiresThen(L.Section(L.Jobs), L.Running);
  }

  lemma ReloadAcquires(n: nat)
    ensures Acquires(L.Program(L.ReloadFrom(n))) == [L.Running, L.Jobs] + JobsTwice(n)
  {
    AcquiresSection(L.Running);
    AcquiresThen(L.Section(L.Running), L.Jobs);
    AcquiresRegisters(n);
    AcquiresConcat(L.Section(L.Running) + L.Section(L.Jobs), L.Registers(n));
  }

  /******* What a task may still take *******/

  // Turns of the cron loop of a cell.
  ghost predicate AllTurns(calls: seq<L.Call>, c: nat) {
    forall k :: 0 <= k < |calls| ==> (calls[k].CronSkip? || calls[k].CronFire?) && calls[k].cell == c
  }

  ghost predicate Turns(c: nat, ls: seq<L.Lock>) {
    exists calls :: AllTurns(calls, c) && ls == AcquiresAll(calls)
  }

  // After the slot has been given back: a loop goes on turning, a triggered run has ended.
  ghost predicate Tail(w: Work, ls: seq<L.Lock>) {
    if w.source == FromCron then Turns(w.cell, ls) else ls == []
  }

  ghost predicate Then(first: seq<L.Lock>, w: Work, ls: seq<L.Lock>) {
    first <= ls && Tail(w, ls[|first|..])
  }

  ghost predicate Rest(t: Task, ls: seq<L.Lock>) {
    match t
    case Sleeping(w) => Then([], w, ls)
    case Skipping(w, _) => Then([L.RuntimeState(w.cell)], w, ls)
    case Firing(w) =>
      Then([L.Running], w, ls) || Then([L.Running, L.Running, L.RuntimeState(w.cell), L.Running], w, ls)
    case LookingUp(_) =>
      || ls == [L.Jobs] || ls == [L.Jobs, L.Running]
      || exists c :: ls == [L.Jobs, L.Running, L.Running, L.RuntimeState(c), L.Running]
    case Beginning(w) => ls == [L.Running] || Then([L.Running, L.Running, L.RuntimeState(w.cell), L.Running], w, ls)
    case Begun(w) => Then([L.Running, L.RuntimeState(w.cell), L.Running], w, ls)
    case Spawning(w, _) => Then([L.RuntimeState(w.cell), L.Running], w, ls)
    case Dispatching(w, _, _, _, _) => Then([L.RuntimeState(w.cell), L.Running], w, ls)
    case Releasing(w, _, _, _) => Then([L.Running], w, ls)
    case CheckingJob(_) => ls == [L.Jobs] || ls == [L.Jobs, L.Running]
    case Signalling(_) => ls == [L.Running]
    case SignallingAll(list) => ls == [L.Running, L.Jobs] + JobsTwice(|list|)
    case Clearing(list) => ls == [L.Jobs] + JobsTwice(|list|)
    case Registering(list, _) => ls == JobsTwice(|list|)
    case SpawningLoop(_, _, list, _) => ls == [L.Jobs] + JobsTwice(|list|)
    case Inserting(_, _, list, _) => ls == [L.Jobs] + JobsTwice(|list|)
    case Ended(_) => ls == []
  }

  /******* Each step takes the next lock *******/

  function Taken(t: Task): seq<L.Lock> {
    match L.LockOf(t)
    case None => []
    case Some(l) => [l]
  }

  lemma ThenMore(l: L.Lock, first: seq<L.Lock>, w: Work, ls: seq<L.Lock>)
    requires Then(first, w, ls)
    ensures Then([l] + first, w, [l] + ls)
  {
    assert ([l] + ls)[|[l] + first|..] == ls[|first|..];
  }

  lemma NoTurns(c: nat)
    ensures Turns(c, [])
  {
    assert AllTurns([], c) && AcquiresAll([]) == [];
  }

  lemma TurnMore(call: L.Call, first: seq<L.Lock>, w: Work, ls: seq<L.Lock>)
    requires (call.CronSkip? || call.CronFire?) && call.cell == w.cell && first == Acquires(L.Program(call))
    requires w.source == FromCron && Then(first, w, ls)
    ensures Then([], w, ls)
  {
    var calls :| AllTurns(calls, w.cell) && ls[|first|..] == AcquiresAll(calls);
    var more := [call] + calls;
    assert more[1..] == calls && AllTurns(more, w.cell);
    assert ls == first + ls[|first|..];
    assert ls[0..] == ls == AcquiresAll(more);
  }

  // What a task can become by a step of its own.
  ghost predicate Follows(t: Task, t': Task) {
    match t
    case Sleeping(w) => (t'.Ended? || t'.Skipping? || t'.Firing?) && (!t'.Ended? ==> t'.w == w)
    case Skipping(w, _) => t' == Sleeping(w)
    case Firing(w) => t' == Sleeping(w) || t' == Begun(w)
    case LookingUp(_) => t'.Ended? || (t'.Beginning? && t'.w.source == FromTrigger)
    case Beginning(w) => t'.Ended? || t' == Begun(w)
    case Begun(w) => (t'.Dispatching? || t'.Spawning?) && t'.w == w
    case Spawning(w, _) => t'.Dispatching? && t'.w == w
    case Dispatching(w, _, p, _, _) => if p.Returned? then t'.Releasing? && t'.w == w else t'.Dispatching? && t'.w == w
    case Releasing(w, _, _, _) => t' == if w.source == FromCron then Sleeping(w) else Ended(Finished)
    case CheckingJob(_) => t'.Ended? || t'.Signalling?
    case Signalling(_) => t'.Ended?
    case SignallingAll(list) => t' == Clearing(list)
    case Clearing(list) => t'.Registering? && t'.list == list
    case Registering(list, _) => if list == [] then t'.Ended? else t'.SpawningLoop? && t'.list == list[1..]
    case SpawningLoop(_, _, list, _) => t'.Inserting? && t'.list == list
    case Inserting(_, _, list, _) => t'.Registering? && t'.list == list
    case Ended(_) => false
  }

  lemma OwnStepFollows(s: State, i: nat, a: Input)
    requires CanAct(s, i, a)
    ensures i < |Act(s, i, a).tasks| && Follows(s.tasks[i], Act(s, i, a).tasks[i])
  {
    var t := s.tasks[i];
    if InCron(t) {
    } else if InTrigger(t) {
    } else if InRun(t) {
    } else if InStop(t) {
    } else if InReload(t) {
    } else {
      assert InRegister(t);
    }
  }

  // `ls` being possible after the step, the lock of the step and `ls` were before.
  lemma CronTakes(t: Task, t': Task, ls: seq<L.Lock>)
    requires InCron(t) && SourceOk(t) && Follows(t, t') && Rest(t', ls)
    ensures Rest(t, Taken(t) + ls)
  {
    var w, c := t.w, t.w.cell;
    assert [] + ls == ls && ls[0..] == ls;
    match t
    case Sleeping(_) => SleeperTakes(w, t', ls);
    case Skipping(_, _) => ThenMore(L.RuntimeState(c), [], w, ls);
    case Firing(_) => FiringTakes(w, t', ls);
  }

  lemma FiringTakes(w: Work, t': Task, ls: seq<L.Lock>)
    requires Follows(Firing(w), t') && Rest(t', ls)
    ensures Rest(Firing(w), [L.Running] + ls)
  {
    if t'.Sleeping? {
      ThenMore(L.Running, [], w, ls);
    } else {
      ThenMore(L.Running, [L.Running, L.RuntimeState(w.cell), L.Running], w, ls);
    }
  }

  lemma SleeperTakes(w: Work, t': Task, ls: seq<L.Lock>)
    requires w.source == FromCron && Follows(Sleeping(w), t') && Rest(t', ls)
    ensures Then([], w, ls)
  {
    var c := w.cell;
    CronAcquires(c);
    if t'.Ended? {
      NoTurns(c);
      assert ls[0..] == [];
    } else if t'.Skipping? {
      TurnMore(L.CronSkip(c), [L.RuntimeState(c)], w, ls);
    } else if Then([L.Running], w, ls) {
      TurnMore(L.CronFire(false, c), [L.Running], w, ls);
    } else {
      TurnMore(L.CronFire(true, c), [L.Running, L.Running, L.RuntimeState(c), L.Running], w, ls);
    }
  }

  lemma TriggerTakes(t: Task, t': Task, ls: seq<L.Lock>)
    requires InTrigger(t) && SourceOk(t) && Follows(t, t') && Rest(t', ls)
    ensures Rest(t, Taken(t) + ls)
  {
    match t
    case LookingUp(_) =>
      if t'.Beginning? && ls != [L.Running] {
        var first := [L.Running, L.Running, L.RuntimeState(t'.w.cell), L.Running];
        assert ls == first + ls[4..];
        assert [L.Jobs] + ls == [L.Jobs, L.Running, L.Running, L.RuntimeState(t'.w.cell), L.Running];
      }
    case Beginning(w) =>
      if t'.Begun? {
        ThenMore(L.Running, [L.Running, L.RuntimeState(w.cell), L.Running], w, ls);
      }
    case Spawning(_, _) => assert [] + ls == ls;
  }

  lemma RunTakes(t: Task, t': Task, ls: seq<L.Lock>)
    requires InRun(t) && Follows(t, t') && Rest(t', ls)
    ensures Rest(t, Taken(t) + ls)
  {
    var c := t.w.cell;
    match t
    case Begun(w) => ThenMore(L.Running, [L.RuntimeState(c), L.Running], w, ls);
    case Dispatching(w, _, p, _, _) =>
      if p.Returned? {
        ThenMore(L.RuntimeState(c), [L.Running], w, ls);
      } else {
        assert [] + ls == ls;
      }
    case Releasing(w, _, _, _) =>
      assert ls[0..] == ls;
      ThenMore(L.Running, [], w, ls);
  }

  lemma StopTakes(t: Task, t': Task, ls: seq<L.Lock>)
    requires InStop(t) && Follows(t, t') && Rest(t', ls)
    ensures Rest(t, Taken(t) + ls)
  {
  }

  lemma ReloadTakes(t: Task, t': Task, ls: seq<L.Lock>)
    requires InReload(t) && Follows(t, t') && Rest(t', ls)
    ensures Rest(t, Taken(t) + ls)
  {
    if t.SignallingAll? {
      assert [L.Running] + ([L.Jobs] + JobsTwice(|t.list|)) == [L.Running, L.Jobs] + JobsTwice(|t.list|);
    }
  }

  lemma RegisterTakes(t: Task, t': Task, ls: seq<L.Lock>)
    requires InRegister(t) && Follows(t, t') && Rest(t', ls)
    ensures Rest(t, Taken(t) + ls)
  {
    assert [] + ls == ls;
    if t.Registering? && t.list != [] {
      assert [L.Jobs] + ([L.Jobs] + JobsTwice(|t.list| - 1)) == [L.Jobs, L.Jobs] + JobsTwice(|t.list| - 1);
    }
  }

  lemma OwnStepTakes(t: Task, t': Task, ls: seq<L.Lock>)
    requires SourceOk(t) && Follows(t, t') && Rest(t', ls)
    ensures Rest(t, Taken(t) + ls)
  {
    if InCron(t) {
      CronTakes(t, t', ls);
    } else if InTrigger(t) {
      TriggerTakes(t, t', ls);
    } else if InRun(t) {
      RunTakes(t, t', ls);
    } else if InStop(t) {
      StopTakes(t, t', ls);
    } else if InReload(t) {
      ReloadTakes(t, t', ls);
    } else {
      RegisterTakes(t, t', ls);
    }
  }

  /******* Over any run *******/

  // What a move makes task `i` take, and all that it takes in a run.
  function Mine(t: Task, m: Move, i: nat): seq<L.Lock> {
    if m.Acts? && m.i == i then Taken(t) else []
  }

  ghost function LocksTaken(s: State, moves: seq<Move>, i: nat): seq<L.Lock>
    requires i < |s.tasks|
    decreases |moves|
  {
    if moves == [] || !CanMove(s, moves[0]) || i >= |After(s, moves[0]).tasks| then []
    else Mine(s.tasks[i], moves[0], i) + LocksTaken(After(s, moves[0]), moves[1..], i)
  }

  predicate RestIsKept(t: Task, t': Task) {
    t' == t || (t.Dispatching? && t' == t.(ear := Notified))
  }

  lemma OthersKeepRest(s: State, m: Move, i: nat)
    requires CanMove(s, m) && i < |s.tasks| && !(m.Acts? && m.i == i)
    ensures i < |After(s, m).tasks| && RestIsKept(s.tasks[i], After(s, m).tasks[i])
  {
    if m.Acts? {
      OthersKeepTasks(s, m.i, m.a, i);
    }
  }

  lemma MoveTakes(s: State, m: Move, i: nat, ls: seq<L.Lock>)
    requires CanMove(s, m) && i < |s.tasks| && SourceOk(s.tasks[i])
    ensures i < |After(s, m).tasks|
    ensures Rest(After(s, m).tasks[i], ls) ==> Rest(s.tasks[i], Mine(s.tasks[i], m, i) + ls)
  {
    if m.Acts? && m.i == i {
      OwnStepFollows(s, i, m.a);
      if Rest(After(s, m).tasks[i], ls) {
        OwnStepTakes(s.tasks[i], After(s, m).tasks[i], ls);
      }
    } else {
      OthersKeepRest(s, m, i);
      assert [] + ls == ls;
    }
  }

  lemma {:induction false} TraceFits(s: State, moves: seq<Move>, s': State, i: nat, ls: seq<L.Lock>)
    requires LoopInv(s) && Leads(s, moves, s') && i < |s.tasks|
    ensures i < |s'.tasks|
    ensures Rest(s'.tasks[i], ls) ==> Rest(s.tasks[i], LocksTaken(s, moves, i) + ls)
    decreases |moves|
  {
    if moves == [] {
      assert [] + ls == ls;
    } else {
      var m, mid := moves[0], After(s, moves[0]);
      MoveTakes(s, m, i, []);
      var mine, later := Mine(s.tasks[i], m, i), LocksTaken(mid, moves[1..], i);
      MoveKeepsLoops(s, m);
      TraceFits(mid, moves[1..], s', i, ls);
      MoveTakes(s, m, i, later + ls);
      assert mine + (later + ls) == mine + later + ls;
    }
  }

  /******* The calls behind a trace *******/

  // What a task does from its arrival, or a cron loop from one sleep: the calls of Locks.dfy. A
  // triggered run goes on as the task of its trigger.
  ghost predicate Performs(t: Task, calls: seq<L.Call>) {
    match t
    case LookingUp(_) =>
      || calls == [L.TriggerNow(false, false)] || calls == [L.TriggerNow(true, false)]
      || exists c :: calls == [L.TriggerNow(true, true), L.FinishRun(c)]
    case CheckingJob(_) => calls == [L.Stop(false)] || calls == [L.Stop(true)]
    case SignallingAll(list) => calls == [L.ReloadFrom(|list|)]
    case Registering(list, _) => calls == RegisterCalls(|list|)
    case Sleeping(w) => AllTurns(calls, w.cell)
    case _ => false
  }

  function RegisterCalls(n: nat): seq<L.Call> {
    if n == 0 then [] else [L.Register] + RegisterCalls(n - 1)
  }

  lemma {:induction false} RegisterCallsAcquire(n: nat)
    ensures AcquiresAll(RegisterCalls(n)) == JobsTwice(n)
  {
    if n > 0 {
      RegisterCallsAcquire(n - 1);
      RegisterAcquires();
      assert RegisterCalls(n)[1..] == RegisterCalls(n - 1);
    }
  }

  lemma OneCall(call: L.Call)
    ensures AcquiresAll([call]) == Acquires(L.Program(call))
  {
    assert [call][1..] == [];
    assert Acquires(L.Program(call)) + [] == Acquires(L.Program(call));
  }

  lemma TwoCalls(first: L.Call, second: L.Call)
    ensures AcquiresAll([first, second]) == Acquires(L.Program(first)) + Acquires(L.Program(second))
  {
    assert [first, second][1..] == [second];
    OneCall(second);
  }

  lemma RestIsOfCalls(t: Task, ls: seq<L.Lock>) returns (calls: seq<L.Call>)
    requires (IsCaller(t) || t.Sleeping?) && SourceOk(t) && Rest(t, ls)
    ensures Performs(t, calls) && ls == AcquiresAll(calls)
  {
    match t
    case LookingUp(_) => calls := TriggerCalls(ls);
    case CheckingJob(_) =>
      calls := [L.Stop(ls != [L.Jobs])];
      StopAcquires();
      OneCall(calls[0]);
    case SignallingAll(list) =>
      calls := [L.ReloadFrom(|list|)];
      ReloadAcquires(|list|);
      OneCall(calls[0]);
    case Registering(list, _) =>
      calls := RegisterCalls(|list|);
      RegisterCallsAcquire(|list|);
    case Sleeping(w) =>
      assert ls[0..] == ls;
      calls :| AllTurns(calls, w.cell) && ls == AcquiresAll(calls);
  }

  lemma TriggerCalls(ls: seq<L.Lock>) returns (calls: seq<L.Call>)
    requires Rest(LookingUp(JobKey("", "")), ls)
    ensures forall k :: Performs(LookingUp(k), calls)
    ensures ls == AcquiresAll(calls)
  {
    if ls == [L.Jobs] || ls == [L.Jobs, L.Running] {
      calls := [L.TriggerNow(ls != [L.Jobs], false)];
      TriggerAcquires();
      OneCall(calls[0]);
    } else {
      var c :| ls == [L.Jobs, L.Running, L.Running, L.RuntimeState(c), L.Running];
      calls := [L.TriggerNow(true, true), L.FinishRun(c)];
      TriggerAcquires();
      FinishAcquires(c);
      TwoCalls(calls[0], calls[1]);
    }
  }

  // Every task can come to rest.
  lemma SomeRest(t: Task) returns (ls: seq<L.Lock>)
    requires SourceOk(t)
    ensures Rest(t, ls)
    ensures t.Ended? || t.Sleeping? ==> ls == []
  {
    match t
    case Sleeping(w) =>
      NoTurns(w.cell);
      ls := [];
      assert ls[0..] == [];
    case Skipping(w, _) => ls := SomeThen([L.RuntimeState(w.cell)], w);
    case Firing(w) => ls := SomeThen([L.Running], w);
    case LookingUp(_) => ls := [L.Jobs];
    case Beginning(_) => ls := [L.Running];
    case Begun(w) => ls := SomeThen([L.Running, L.RuntimeState(w.cell), L.Running], w);
    case Spawning(w, _) => ls := SomeThen([L.RuntimeState(w.cell), L.Running], w);
    case Dispatching(w, _, _, _, _) => ls := SomeThen([L.RuntimeState(w.cell), L.Running], w);
    case Releasing(w, _, _, _) => ls := SomeThen([L.Running], w);
    case CheckingJob(_) => ls := [L.Jobs];
    case Signalling(_) => ls := [L.Running];
    case SignallingAll(list) => ls := [L.Running, L.Jobs] + JobsTwice(|list|);
    case Clearing(list) => ls := [L.Jobs] + JobsTwice(|list|);
    case Registering(list, _) => ls := JobsTwice(|list|);
    case SpawningLoop(_, _, list, _) => ls := [L.Jobs] + JobsTwice(|list|);
    case Inserting(_, _, list, _) => ls := [L.Jobs] + JobsTwice(|list|);
    case Ended(_) => ls := [];
  }

  lemma SomeThen(first: seq<L.Lock>, w: Work) returns (ls: seq<L.Lock>)
    ensures Then(first, w, ls)
  {
    NoTurns(w.cell);
    ls := first;
    assert ls[|first|..] == [];
  }

  // In every run, the locks a task has taken so far begin the acquires of the programs of its
  // calls, and are all of them once it has ended or sleeps.
  lemma TasksFollowPrograms(s: State, moves: seq<Move>, s': State, i: nat) returns (calls: seq<L.Call>)
    requires Reachable(s) && Leads(s, moves, s') && i < |s.tasks| && (IsCaller(s.tasks[i]) || s.tasks[i].Sleeping?)
    ensures i < |s'.tasks| && Performs(s.tasks[i], calls)
    ensures LocksTaken(s, moves, i) <= AcquiresAll(calls)
    ensures s'.tasks[i].Ended? || s'.tasks[i].Sleeping? ==> LocksTaken(s, moves, i) == AcquiresAll(calls)
  {
    ReachableLoops(s);
    ReachableFurther(s, moves, s');
    ReachableLoops(s');
    TraceFits(s, moves, s', i, []);
    var ls := SomeRest(s'.tasks[i]);
    TraceFits(s, moves, s', i, ls);
    calls := RestIsOfCalls(s.tasks[i], LocksTaken(s, moves, i) + ls);
    assert ls == [] ==> LocksTaken(s, moves, i) + ls == LocksTaken(s, moves, i);
  }
}

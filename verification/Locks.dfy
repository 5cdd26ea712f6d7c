/**
 The locks of src/scheduler.rs, taken and given back explicitly: `jobs`, `running`, and one
 per registration for its runtime state. The locks are not reentrant.
 */
module Locks {
  import opened Wrappers
  import Steps

  datatype Lock = Jobs | Running | RuntimeState(cell: nat)

  datatype Op = Acquire(lock: Lock) | Release(lock: Lock)

  // The calls that take locks, and how far they get. One turn of a cron loop is a call;
  // `cells` are the registrations a listing goes through.
  datatype Call =
    | Register
    | TriggerNow(found: bool, free: bool)
    | FinishRun(cell: nat)
    | CronSkip(cell: nat)
    | CronFire(free: bool, cell: nat)
    | Stop(found: bool)
    | Describe(cells: seq<nat>)
    | DescribeRunning(cells: seq<nat>)
    | ReloadFrom(count: nat)
    | JobCount

  // A guard that is dropped before the next lock is touched.
  function Section(l: Lock): seq<Op> {
    [Acquire(l), Release(l)]
  }

  function Sections(cells: seq<nat>): seq<Op> {
    if cells == [] then [] else Section(RuntimeState(cells[0])) + Sections(cells[1..])
  }

  function Registers(count: nat): seq<Op> {
    if count == 0 then [] else Section(Jobs) + Section(Jobs) + Registers(count - 1)
  }

  // The `jobs` guard is held while each state is read.
  function Listing(cells: seq<nat>): seq<Op> {
    [Acquire(Jobs)] + Sections(cells) + [Release(Jobs)]
  }

  function Program(call: Call): seq<Op> {
    match call
    case Register => Registers(1)
    case TriggerNow(found, free) =>
      if !found then Section(Jobs)
      else if !free then Section(Jobs) + Section(Running)
      else Section(Jobs) + Section(Running) + Section(Running)
    case FinishRun(cell) => Section(RuntimeState(cell)) + Section(Running)
    case CronSkip(cell) => Section(RuntimeState(cell))
    case CronFire(free, cell) =>
      if free then Section(Running) + Section(Running) + Section(RuntimeState(cell)) + Section(Running)
      else Section(Running)
    case Stop(found) => if found then Section(Jobs) + Section(Running) else Section(Jobs)
    case Describe(cells) => Listing(cells)
    case DescribeRunning(cells) => Section(Running) + Listing(cells)
    case ReloadFrom(count) => Section(Running) + Section(Jobs) + Registers(count)
    case JobCount => Section(Jobs)
  }

  /******* The discipline *******/

  // `jobs` and `running` are on one tier, so holding either forbids taking the other.
  function Rank(l: Lock): nat {
    if l.RuntimeState? then 1 else 0
  }

  // Holding `held`, the operations take locks upwards only, give back only what is held, and
  // end with nothing held.
  predicate Ordered(held: set<Lock>, ops: seq<Op>)
    decreases |ops|
  {
    if ops == [] then held == {}
    else
      match ops[0]
      case Acquire(l) => (forall h :: h in held ==> Rank(h) < Rank(l)) && Ordered(held + {l}, ops[1..])
      case Release(l) => l in held && Ordered(held - {l}, ops[1..])
  }

  lemma {:induction false} OrderedThen(held: set<Lock>, ops: seq<Op>, more: seq<Op>)
    requires Ordered(held, ops) && Ordered({}, more)
    ensures Ordered(held, ops + more)
    decreases |ops|
  {
    if ops == [] {
      assert ops + more == more;
    } else {
      assert (ops + more)[1..] == ops[1..] + more;
      match ops[0]
      case Acquire(l) => OrderedThen(held + {l}, ops[1..], more);
      case Release(l) => OrderedThen(held - {l}, ops[1..], more);
    }
  }

  lemma SectionOrdered(l: Lock)
    ensures Ordered({}, Section(l))
  {
    assert Section(l)[1..] == [Release(l)];
    assert {} + {l} - {l} == {};
  }

  lemma SectionThen(l: Lock, more: seq<Op>)
    requires Ordered({}, more)
    ensures Ordered({}, Section(l) + more)
  {
    SectionOrdered(l);
    OrderedThen({}, Section(l), more);
  }

  lemma {:induction false} RegistersOrdered(count: nat)
    ensures Ordered({}, Registers(count))
  {
    if count > 0 {
      RegistersOrdered(count - 1);
      SectionThen(Jobs, Registers(count - 1));
      SectionThen(Jobs, Section(Jobs) + Registers(count - 1));
      assert Section(Jobs) + (Section(Jobs) + Registers(count - 1)) == Registers(count);
    }
  }

  lemma {:induction false} SectionsUnderJobs(cells: seq<nat>)
    ensures Ordered({Jobs}, Sections(cells) + [Release(Jobs)])
  {
    var ops := Sections(cells) + [Release(Jobs)];
    if cells == [] {
      assert ops == [Release(Jobs)];
      assert {Jobs} - {Jobs} == {};
    } else {
      var c := RuntimeState(cells[0]);
      SectionsUnderJobs(cells[1..]);
      assert ops[1..] == [Release(c)] + (Sections(cells[1..]) + [Release(Jobs)]);
      assert ops[1..][1..] == Sections(cells[1..]) + [Release(Jobs)];
      assert {Jobs} + {c} - {c} == {Jobs};
    }
  }

  lemma ListingOrdered(cells: seq<nat>)
    ensures Ordered({}, Listing(cells))
  {
    SectionsUnderJobs(cells);
    assert Listing(cells)[1..] == Sections(cells) + [Release(Jobs)];
    assert {} + {Jobs} == {Jobs};
  }

  lemma ProgramsAreOrdered(call: Call)
    ensures Ordered({}, Program(call))
  {
    SectionOrdered(Jobs);
    SectionOrdered(Running);
    match call
    case Register => RegistersOrdered(1);
    case TriggerNow(_, _) =>
      SectionThen(Jobs, Section(Running));
      OrderedThen({}, Section(Jobs) + Section(Running), Section(Running));
    case FinishRun(cell) => SectionThen(RuntimeState(cell), Section(Running));
    case CronSkip(cell) => SectionOrdered(RuntimeState(cell));
    case CronFire(_, cell) =>
      SectionOrdered(RuntimeState(cell));
      SectionThen(Running, Section(Running));
      OrderedThen({}, Section(Running) + Section(Running), Section(RuntimeState(cell)));
      OrderedThen({}, Section(Running) + Section(Running) + Section(RuntimeState(cell)), Section(Running));
    case Stop(_) => SectionThen(Jobs, Section(Running));
    case Describe(cells) => ListingOrdered(cells);
    case DescribeRunning(cells) =>
      ListingOrdered(cells);
      SectionThen(Running, Listing(cells));
    case ReloadFrom(count) =>
      RegistersOrdered(count);
      SectionThen(Running, Section(Jobs));
      OrderedThen({}, Section(Running) + Section(Jobs), Registers(count));
    case JobCount =>
  }

  /******* Threads *******/

  datatype Thread = Thread(held: set<Lock>, todo: seq<Op>)

  type System = seq<Thread>

  predicate IsFree(s: System, l: Lock) {
    forall i :: 0 <= i < |s| ==> l !in s[i].held
  }

  predicate CanStep(s: System, i: nat) {
    && i < |s| && s[i].todo != []
    && (s[i].todo[0].Acquire? ==> IsFree(s, s[i].todo[0].lock))
  }

  function StepOf(t: Thread): Thread
    requires t.todo != []
  {
    match t.todo[0]
    case Acquire(l) => Thread(t.held + {l}, t.todo[1..])
    case Release(l) => Thread(t.held - {l}, t.todo[1..])
  }

  // A thread takes its next lock step, or a call arrives.
  datatype Move = Steps(i: nat) | Calls(call: Call)

  predicate CanMove(s: System, m: Move) {
    m.Steps? ==> CanStep(s, m.i)
  }

  function After(s: System, m: Move): System
    requires CanMove(s, m)
  {
    match m
    case Steps(i) => s[i := StepOf(s[i])]
    case Calls(call) => s + [Thread({}, Program(call))]
  }

  ghost predicate Leads(s: System, moves: seq<Move>, s': System)
    decreases |moves|
  {
    if moves == [] then s == s' else CanMove(s, moves[0]) && Leads(After(s, moves[0]), moves[1..], s')
  }

  ghost predicate Reachable(s: System) {
    exists moves :: Leads([], moves, s)
  }

  ghost predicate OneTierEach(held: set<Lock>) {
    forall a, b :: a in held && b in held && a != b ==> Rank(a) != Rank(b)
  }

  ghost predicate Inv(s: System) {
    && (forall i :: 0 <= i < |s| ==> Ordered(s[i].held, s[i].todo) && OneTierEach(s[i].held))
    && (forall i, j :: 0 <= i < j < |s| ==> s[i].held !! s[j].held)
  }

  // A step of a thread keeps its discipline, and touches the locks of nobody else.
  lemma ThreadStep(t: Thread)
    requires Ordered(t.held, t.todo) && OneTierEach(t.held) && t.todo != []
    ensures Ordered(StepOf(t).held, StepOf(t).todo) && OneTierEach(StepOf(t).held)
    ensures StepOf(t).held <= if t.todo[0].Acquire? then t.held + {t.todo[0].lock} else t.held
  {
  }

  lemma StepKeepsInv(s: System, i: nat)
    requires Inv(s) && CanStep(s, i)
    ensures Inv(s[i := StepOf(s[i])])
  {
    ThreadStep(s[i]);
    var s' := s[i := StepOf(s[i])];
    forall j, k | 0 <= j < k < |s'|
      ensures s'[j].held !! s'[k].held
    {
      assert s[j].held !! s[k].held;
    }
  }

  lemma MoveKeepsInv(s: System, m: Move)
    requires Inv(s) && CanMove(s, m)
    ensures Inv(After(s, m))
  {
    match m
    case Calls(call) => ProgramsAreOrdered(call);
    case Steps(i) => StepKeepsInv(s, i);
  }

  lemma {:induction false} InvAlways(from: System, moves: seq<Move>, s: System)
    requires Inv(from) && Leads(from, moves, s)
    ensures Inv(s)
    decreases |moves|
  {
    if moves != [] {
      MoveKeepsInv(from, moves[0]);
      InvAlways(After(from, moves[0]), moves[1..], s);
    }
  }

  lemma ReachableInv(s: System)
    requires Reachable(s)
    ensures Inv(s)
  {
    var moves :| Leads([], moves, s);
    InvAlways([], moves, s);
  }

  /******* What it means *******/

  // No thread ever holds `jobs` and `running` together, nor two runtime states, and no lock
  // is held twice.
  lemma NeverBoth(s: System, i: nat, j: nat, l: Lock)
    requires Reachable(s) && i < |s| && j < |s|
    ensures !(Jobs in s[i].held && Running in s[i].held)
    ensures i != j ==> !(l in s[i].held && l in s[j].held)
  {
    ReachableInv(s);
    assert s[if i < j then i else j].held !! s[if i < j then j else i].held || i == j;
  }

  ghost predicate Unfinished(s: System) {
    exists i :: 0 <= i < |s| && s[i].todo != []
  }

  // Whoever holds the lock that an unfinished thread waits for is unfinished itself.
  lemma HolderOf(s: System, l: Lock) returns (j: nat)
    requires Inv(s) && !IsFree(s, l)
    ensures j < |s| && l in s[j].held && s[j].todo != []
  {
    j :| 0 <= j < |s| && l in s[j].held;
    assert Ordered(s[j].held, s[j].todo);
  }

  lemma SomeoneCanStep(s: System) returns (i: nat)
    requires Inv(s) && Unfinished(s)
    ensures CanStep(s, i)
  {
    i :| 0 <= i < |s| && s[i].todo != [];
    if !CanStep(s, i) {
      i := HolderOf(s, s[i].todo[0].lock);
      assert Ordered(s[i].held, s[i].todo);
      if !CanStep(s, i) {
        i := HolderOf(s, s[i].todo[0].lock);
        assert Ordered(s[i].held, s[i].todo);
      }
    }
  }

  // In every reachable state with unfinished lock users some lock step is enabled.
  lemma NoDeadlock(s: System)
    requires Reachable(s) && Unfinished(s)
    ensures exists i :: 0 <= i < |s| && CanStep(s, i)
  {
    ReachableInv(s);
    var i := SomeoneCanStep(s);
  }

  function Remaining(s: System): nat {
    if s == [] then 0 else |s[0].todo| + Remaining(s[1..])
  }

  lemma {:induction false} StepShrinks(s: System, i: nat)
    requires i < |s| && s[i].todo != []
    ensures Remaining(s[i := StepOf(s[i])]) == Remaining(s) - 1
  {
    var s' := s[i := StepOf(s[i])];
    if i == 0 {
      assert s'[1..] == s[1..];
    } else {
      assert s'[1..] == s[1..][i - 1 := StepOf(s[i])];
      StepShrinks(s[1..], i - 1);
    }
  }

  // So every lock user can finish: once calls stop arriving, each step shortens what is left
  // and some step is always there until nothing is.
  lemma {:induction false} EveryoneCanFinish(s: System) returns (moves: seq<Move>, s': System)
    requires Inv(s)
    ensures Leads(s, moves, s') && |s'| == |s| && !Unfinished(s')
    ensures |moves| == Remaining(s) && forall m :: m in moves ==> m.Steps?
    decreases Remaining(s)
  {
    if Unfinished(s) {
      var i := SomeoneCanStep(s);
      StepShrinks(s, i);
      MoveKeepsInv(s, Steps(i));
      var rest;
      rest, s' := EveryoneCanFinish(After(s, Steps(i)));
      moves := [Steps(i)] + rest;
      assert moves[1..] == rest;
    } else {
      NothingRemains(s);
      moves, s' := [], s;
    }
  }

  lemma {:induction false} NothingRemains(s: System)
    requires !Unfinished(s)
    ensures Remaining(s) == 0
  {
    if s != [] {
      assert s[0].todo == [];
      assert forall i :: 0 <= i < |s| - 1 ==> s[1..][i] == s[i + 1];
      NothingRemains(s[1..]);
    }
  }

  /******* The steps of the scheduler are lock sections *******/

  // The lock under which the next step of a task runs.
  function LockOf(t: Steps.Task): Option<Lock> {
    match t
    case Skipping(w, _) => Some(RuntimeState(w.cell))
    case Firing(_) => Some(Running)
    case LookingUp(_) => Some(Jobs)
    case Beginning(_) => Some(Running)
    case Begun(_) => Some(Running)
    case Dispatching(w, _, p, _, _) => if p.Returned? then Some(RuntimeState(w.cell)) else None
    case Releasing(_, _, _, _) => Some(Running)
    case CheckingJob(_) => Some(Jobs)
    case Signalling(_) => Some(Running)
    case SignallingAll(_) => Some(Running)
    case Clearing(_) => Some(Jobs)
    case Registering(list, _) => if list == [] then None else Some(Jobs)
    case Inserting(_, _, _, _) => Some(Jobs)
    case _ => None
  }

  // What a step may change under a lock.
  ghost predicate Guarded(s: Steps.State, s': Steps.State, l: Option<Lock>, c: nat)
    requires c < |s.cells|
  {
    && (s'.jobs != s.jobs ==> l == Some(Jobs))
    && (s'.running != s.running || s'.signals != s.signals ==> l == Some(Running))
    && c < |s'.cells| && (s'.cells[c] != s.cells[c] ==> l == Some(RuntimeState(c)))
  }

  // A step of the scheduler changes only what its one lock guards.
  lemma StepsAreLockSections(s: Steps.State, i: nat, a: Steps.Input, c: nat)
    requires Steps.CanAct(s, i, a) && c < |s.cells|
    ensures Guarded(s, Steps.Act(s, i, a), LockOf(s.tasks[i]), c)
  {
    var t := s.tasks[i];
    if Steps.InCron(t) {
      CronGuarded(s, i, a, c);
    } else if Steps.InTrigger(t) {
    } else if Steps.InRun(t) {
      RunGuarded(s, i, a, c);
    } else if Steps.InStop(t) {
    } else if Steps.InReload(t) {
    } else {
      assert Steps.InRegister(t);
    }
  }

  lemma CronGuarded(s: Steps.State, i: nat, a: Steps.Input, c: nat)
    requires Steps.CanAct(s, i, a) && Steps.InCron(s.tasks[i]) && c < |s.cells|
    ensures Guarded(s, Steps.ActCron(s, i, a), LockOf(s.tasks[i]), c)
  {
  }

  lemma RunGuarded(s: Steps.State, i: nat, a: Steps.Input, c: nat)
    requires Steps.CanAct(s, i, a) && Steps.InRun(s.tasks[i]) && c < |s.cells|
    ensures Guarded(s, Steps.ActRun(s, i, a), LockOf(s.tasks[i]), c)
  {
  }
}

/**
 How many cron loops a key has: one for every cron registration of it that was ever made and
 whose schedule has not run out. No reload or later registration ends one.
 */
module Loops {
  import opened Wrappers
  import opened Dsl
  import opened Steps
  import opened Histories
  import opened Registrations

  // The registration that a task is the loop of, is about to spawn the loop of, or was the
  // loop of until its schedule ran out.
  function LoopCell(t: Task): Option<nat> {
    match t
    case SpawningLoop(spec, cell, _, _) => if spec.trigger.Cron? then Some(cell) else None
    case Ended(reply) => if reply.RanOut? then Some(reply.cell) else None
    case Sleeping(w) => OfCron(w)
    case Skipping(w, _) => OfCron(w)
    case Firing(w) => OfCron(w)
    case Begun(w) => OfCron(w)
    case Dispatching(w, _, _, _, _) => OfCron(w)
    case Releasing(w, _, _, _) => OfCron(w)
    case _ => None
  }

  function OfCron(w: Work): Option<nat> {
    if w.source == FromCron then Some(w.cell) else None
  }

  // Cron loops carry a loop's work, triggered runs do not.
  predicate SourceOk(t: Task) {
    && (InCron(t) ==> t.w.source == FromCron)
    && (t.Beginning? || t.Spawning? ==> t.w.source == FromTrigger)
  }

  function LoopCells(s: State): (cs: seq<Option<nat>>)
    ensures |cs| == |s.tasks| && forall i :: 0 <= i < |cs| ==> cs[i] == LoopCell(s.tasks[i])
  {
    seq(|s.tasks|, i requires 0 <= i < |s.tasks| => LoopCell(s.tasks[i]))
  }

  function Crons(s: State): (crons: seq<bool>)
    ensures |crons| == |s.cells| && forall c :: 0 <= c < |crons| ==> crons[c] == s.cells[c].spec.trigger.Cron?
  {
    seq(|s.cells|, c requires 0 <= c < |s.cells| => s.cells[c].spec.trigger.Cron?)
  }

  // Every cron registration, and no other, has exactly one task.
  ghost predicate OneEach(cs: seq<Option<nat>>, crons: seq<bool>) {
    && (forall i :: 0 <= i < |cs| && cs[i].Some? ==> cs[i].value < |crons| && crons[cs[i].value])
    && (forall i, j :: 0 <= i < j < |cs| && cs[i].Some? ==> cs[i] != cs[j])
    && (forall c :: 0 <= c < |crons| && crons[c] ==> Some(c) in cs)
  }

  ghost predicate LoopInv(s: State) {
    (forall i :: 0 <= i < |s.tasks| ==> SourceOk(s.tasks[i])) && OneEach(LoopCells(s), Crons(s))
  }

  /******* The three things a step can do *******/

  lemma Kept(cs: seq<Option<nat>>, cs': seq<Option<nat>>, crons: seq<bool>)
    requires OneEach(cs, crons) && cs <= cs' && forall i :: |cs| <= i < |cs'| ==> cs'[i] == None
    ensures OneEach(cs', crons)
  {
    forall c | 0 <= c < |crons| && crons[c]
      ensures Some(c) in cs'
    {
      var i :| 0 <= i < |cs| && cs[i] == Some(c);
      assert cs'[i] == Some(c);
    }
  }

  lemma Made(cs: seq<Option<nat>>, crons: seq<bool>, i: nat, cron: bool)
    requires OneEach(cs, crons) && i < |cs| && cs[i] == None
    ensures OneEach(cs[i := if cron then Some(|crons|) else None], crons + [cron])
  {
    var cs', crons' := cs[i := if cron then Some(|crons|) else None], crons + [cron];
    forall c | 0 <= c < |crons'| && crons'[c]
      ensures Some(c) in cs'
    {
      if c < |crons| {
        var j :| 0 <= j < |cs| && cs[j] == Some(c);
        assert cs'[j] == Some(c);
      } else {
        assert cs'[i] == Some(c);
      }
    }
  }

  lemma Moved(cs: seq<Option<nat>>, crons: seq<bool>, i: nat)
    requires OneEach(cs, crons) && i < |cs| && cs[i].Some?
    ensures OneEach(cs[i := None] + [cs[i]], crons)
  {
    var cs' := cs[i := None] + [cs[i]];
    forall c | 0 <= c < |crons| && crons[c]
      ensures Some(c) in cs'
    {
      var j :| 0 <= j < |cs| && cs[j] == Some(c);
      assert cs'[if j == i then |cs| else j] == Some(c);
    }
  }

  /******* Every step keeps the invariant *******/

  // A step that leaves the loops alone.
  lemma QuietStep(s: State, s': State, i: nat, tokens: set<nat>)
    requires LoopInv(s) && i < |s.tasks| <= |s'.tasks| && Crons(s') == Crons(s)
    requires LoopCell(s'.tasks[i]) == LoopCell(s.tasks[i]) && SourceOk(s'.tasks[i])
    requires forall j :: 0 <= j < |s.tasks| && j != i ==> s'.tasks[j] == Notify(s.tasks[j], tokens)
    requires forall j :: |s.tasks| <= j < |s'.tasks| ==> LoopCell(s'.tasks[j]) == None && SourceOk(s'.tasks[j])
    ensures LoopInv(s')
  {
    assert forall j :: 0 <= j < |s.tasks| ==> LoopCells(s')[j] == LoopCells(s)[j];
    Kept(LoopCells(s), LoopCells(s'), Crons(s));
    forall j | 0 <= j < |s'.tasks|
      ensures SourceOk(s'.tasks[j])
    {
      if j < |s.tasks| && j != i {
        assert SourceOk(s.tasks[j]);
      }
    }
  }

  lemma CronKeepsLoops(s: State, i: nat, a: Input)
    requires LoopInv(s) && CanAct(s, i, a) && InCron(s.tasks[i])
    ensures LoopInv(ActCron(s, i, a))
  {
    assert SourceOk(s.tasks[i]);
    QuietStep(s, ActCron(s, i, a), i, {});
  }

  lemma TriggerKeepsLoops(s: State, i: nat, a: Input)
    requires LoopInv(s) && CanAct(s, i, a) && InTrigger(s.tasks[i])
    ensures LoopInv(ActTrigger(s, i, a))
  {
    assert SourceOk(s.tasks[i]);
    QuietStep(s, ActTrigger(s, i, a), i, {});
  }

  lemma RunKeepsLoops(s: State, i: nat, a: Input)
    requires LoopInv(s) && CanAct(s, i, a) && InRun(s.tasks[i])
    ensures LoopInv(ActRun(s, i, a))
  {
    QuietStep(s, ActRun(s, i, a), i, {});
  }

  lemma StopKeepsLoops(s: State, i: nat, a: Input)
    requires LoopInv(s) && CanAct(s, i, a) && InStop(s.tasks[i])
    ensures LoopInv(ActStop(s, i, a))
  {
    var t := s.tasks[i];
    QuietStep(s, ActStop(s, i, a), i, if t.Signalling? && t.key in s.running then {s.running[t.key].cancel} else {});
  }

  lemma ReloadKeepsLoops(s: State, i: nat, a: Input)
    requires LoopInv(s) && CanAct(s, i, a) && InReload(s.tasks[i])
    ensures LoopInv(ActReload(s, i, a))
  {
    var tokens := set k | k in s.running :: s.running[k].cancel;
    QuietStep(s, ActReload(s, i, a), i, if s.tasks[i].SignallingAll? then tokens else {});
  }

  // The start of a registration: a new cell, and the loop still to come.
  lemma RegisteringKeepsLoops(s: State, i: nat)
    requires LoopInv(s) && i < |s.tasks| && s.tasks[i].Registering? && s.tasks[i].list != []
    ensures LoopInv(ActRegister(s, i, Step))
  {
    var s', cron := ActRegister(s, i, Step), s.tasks[i].list[0].trigger.Cron?;
    Made(LoopCells(s), Crons(s), i, cron);
    assert Crons(s') == Crons(s) + [cron];
    assert LoopCells(s') == LoopCells(s)[i := if cron then Some(|Crons(s)|) else None];
  }

  lemma SpawningKeepsLoops(s: State, i: nat)
    requires LoopInv(s) && i < |s.tasks| && s.tasks[i].SpawningLoop? && s.tasks[i].spec.trigger.Cron?
    ensures LoopInv(ActRegister(s, i, Step))
  {
    var s' := ActRegister(s, i, Step);
    Moved(LoopCells(s), Crons(s), i);
    assert Crons(s') == Crons(s);
    assert LoopCells(s') == LoopCells(s)[i := None] + [LoopCells(s)[i]];
  }

  lemma RegisterKeepsLoops(s: State, i: nat, a: Input)
    requires LoopInv(s) && CanAct(s, i, a) && InRegister(s.tasks[i])
    ensures LoopInv(ActRegister(s, i, a))
  {
    var t := s.tasks[i];
    assert a == Step;
    if t.Registering? && t.list != [] {
      RegisteringKeepsLoops(s, i);
    } else if t.SpawningLoop? && t.spec.trigger.Cron? {
      SpawningKeepsLoops(s, i);
    } else {
      QuietStep(s, ActRegister(s, i, a), i, {});
    }
  }

  lemma MoveKeepsLoops(s: State, m: Move)
    requires LoopInv(s) && CanMove(s, m)
    ensures LoopInv(After(s, m))
  {
    match m
    case Arrives(t) => Kept(LoopCells(s), LoopCells(After(s, m)), Crons(s));
    case Acts(i, a) =>
      var t := s.tasks[i];
      if InCron(t) {
        CronKeepsLoops(s, i, a);
      } else if InTrigger(t) {
        TriggerKeepsLoops(s, i, a);
      } else if InRun(t) {
        RunKeepsLoops(s, i, a);
      } else if InStop(t) {
        StopKeepsLoops(s, i, a);
      } else if InReload(t) {
        ReloadKeepsLoops(s, i, a);
      } else {
        RegisterKeepsLoops(s, i, a);
      }
  }

  lemma {:induction false} LoopsAlways(from: State, moves: seq<Move>, s: State)
    requires LoopInv(from) && LocalInv(from) && Leads(from, moves, s)
    ensures LoopInv(s) && LocalInv(s)
    decreases |moves|
  {
    if moves != [] {
      MoveKeepsLoops(from, moves[0]);
      MoveKeepsLocal(from, moves[0]);
      LoopsAlways(After(from, moves[0]), moves[1..], s);
    }
  }

  lemma ReachableLoops(s: State)
    requires Reachable(s)
    ensures LoopInv(s) && LocalInv(s)
  {
    var moves :| Leads(Initial(s.offline), moves, s);
    LoopsAlways(Initial(s.offline), moves, s);
  }

  /******* What it means *******/

  // Every cron registration has exactly one task and no other registration has any.
  lemma OneTaskPerRegistration(s: State, c: nat)
    requires Reachable(s) && c < |s.cells|
    ensures s.cells[c].spec.trigger.Cron? <==> exists i :: 0 <= i < |s.tasks| && LoopCell(s.tasks[i]) == Some(c)
    ensures forall i, j :: 0 <= i < j < |s.tasks| && LoopCell(s.tasks[i]) == Some(c) ==> LoopCell(s.tasks[j]) != Some(c)
  {
    ReachableLoops(s);
    var cs := LoopCells(s);
    if Crons(s)[c] {
      var i :| 0 <= i < |cs| && cs[i] == Some(c);
      assert LoopCell(s.tasks[i]) == Some(c);
    }
    forall i | 0 <= i < |s.tasks| && LoopCell(s.tasks[i]) == Some(c)
      ensures Crons(s)[c]
    {
      assert cs[i] == Some(c);
    }
    forall i, j | 0 <= i < j < |s.tasks| && LoopCell(s.tasks[i]) == Some(c)
      ensures LoopCell(s.tasks[j]) != Some(c)
    {
      assert cs[i] != cs[j];
    }
  }

  // A loop that runs or is about to be spawned, and its key.
  predicate IsLoop(t: Task) {
    LoopCell(t).Some? && !t.Ended?
  }

  function LoopKey(t: Task): JobKey
    requires IsLoop(t)
  {
    if t.SpawningLoop? then t.spec.key else t.w.key
  }

  ghost predicate HasRunOut(s: State, c: nat) {
    Ended(RanOut(c)) in s.tasks
  }

  ghost function LoopsOf(s: State, k: JobKey): set<nat> {
    set i: nat | i < |s.tasks| && IsLoop(s.tasks[i]) && LoopKey(s.tasks[i]) == k
  }

  // The cron registrations of a key, whenever they were made and whether or not they are still
  // in the registry, whose schedules have not run out.
  ghost function RegistrationsOf(s: State, k: JobKey): set<nat> {
    set c: nat | c < |s.cells| && s.cells[c].spec.trigger.Cron? && s.cells[c].spec.key == k && !HasRunOut(s, c)
  }

  lemma EndedLoop(t: Task, c: nat)
    ensures LoopCell(t) == Some(c) && t.Ended? <==> t == Ended(RanOut(c))
  {
  }

  lemma LoopIsRegistered(s: State, k: JobKey, i: nat)
    requires Reachable(s) && i in LoopsOf(s, k)
    ensures LoopCell(s.tasks[i]).value in RegistrationsOf(s, k)
    ensures forall j :: j in LoopsOf(s, k) && LoopCell(s.tasks[i]) == LoopCell(s.tasks[j]) ==> i == j
  {
    ReachableLoops(s);
    var t := s.tasks[i];
    var c := LoopCell(t).value;
    assert TaskOk(s.offline, s.cells, t) && LoopCells(s)[i] == Some(c);
    OneTaskPerRegistration(s, c);
    forall j | 0 <= j < |s.tasks|
      ensures s.tasks[j] != Ended(RanOut(c))
    {
      EndedLoop(s.tasks[j], c);
    }
  }

  lemma RegistrationHasLoop(s: State, k: JobKey, c: nat) returns (i: nat)
    requires Reachable(s) && c in RegistrationsOf(s, k)
    ensures i in LoopsOf(s, k) && LoopCell(s.tasks[i]) == Some(c)
  {
    ReachableLoops(s);
    OneTaskPerRegistration(s, c);
    i :| 0 <= i < |s.tasks| && LoopCell(s.tasks[i]) == Some(c);
    assert TaskOk(s.offline, s.cells, s.tasks[i]);
    EndedLoop(s.tasks[i], c);
  }

  // One to one: each loop has its registration, each registration its loop, and no two loops
  // the same.
  ghost predicate Paired(s: State, loops: set<nat>, cells: set<nat>) {
    && (forall i :: i in loops ==> i < |s.tasks| && LoopCell(s.tasks[i]).Some? && LoopCell(s.tasks[i]).value in cells)
    && (forall c :: c in cells ==> exists i :: i in loops && LoopCell(s.tasks[i]) == Some(c))
    && (forall i, j :: i in loops && j in loops && LoopCell(s.tasks[i]) == LoopCell(s.tasks[j]) ==> i == j)
  }

  // The loops of a key and its cron registrations that have not run out correspond one to one.
  // So there is one loop exactly when one such registration was made, whatever a reload or a
  // later registration has since replaced.
  lemma LoopsAreRegistrations(s: State, k: JobKey)
    requires Reachable(s)
    ensures Paired(s, LoopsOf(s, k), RegistrationsOf(s, k))
    ensures |LoopsOf(s, k)| == |RegistrationsOf(s, k)|
  {
    forall i | i in LoopsOf(s, k)
      ensures LoopCell(s.tasks[i]).value in RegistrationsOf(s, k)
      ensures forall j :: j in LoopsOf(s, k) && LoopCell(s.tasks[i]) == LoopCell(s.tasks[j]) ==> i == j
    {
      LoopIsRegistered(s, k, i);
    }
    forall c | c in RegistrationsOf(s, k)
      ensures exists i :: i in LoopsOf(s, k) && LoopCell(s.tasks[i]) == Some(c)
    {
      var i := RegistrationHasLoop(s, k, c);
    }
    PairedSize(s, LoopsOf(s, k), RegistrationsOf(s, k));
  }

  lemma {:induction false} PairedSize(s: State, loops: set<nat>, cells: set<nat>)
    requires Paired(s, loops, cells)
    ensures |loops| == |cells|
  {
    if loops == {} {
      assert forall c :: c !in cells;
      assert cells == {};
    } else {
      var i :| i in loops;
      var rest, others := loops - {i}, cells - {LoopCell(s.tasks[i]).value};
      forall c | c in others
        ensures exists j :: j in rest && LoopCell(s.tasks[j]) == Some(c)
      {
        var j :| j in loops && LoopCell(s.tasks[j]) == Some(c);
        assert j in rest;
      }
      PairedSize(s, rest, others);
    }
  }

  /******* How a loop ends *******/

  // A running loop, from its spawning on, and its work.
  predicate Runs(t: Task, w: Work) {
    IsLoop(t) && HasWork(t) && t.w == w
  }

  // A running loop keeps its work under every move but one: its own, when the schedule has no
  // more fires.
  lemma LoopGoesOn(s: State, m: Move, i: nat, w: Work)
    requires CanMove(s, m) && i < |s.tasks| && Runs(s.tasks[i], w)
    ensures i < |After(s, m).tasks|
    ensures if m == Acts(i, NoMoreFires) then s.tasks[i].Sleeping? && After(s, m).tasks[i] == Ended(RanOut(w.cell))
            else Runs(After(s, m).tasks[i], w)
  {
    if m.Acts? {
      if m.i == i {
        OwnStepKeepsWork(s, i, m.a);
      } else {
        OthersKeepTasks(s, m.i, m.a, i);
      }
    }
  }

  // Over any run, reloads and registrations included, a loop has ended exactly if it took that
  // step.
  lemma {:induction false} LoopEndsByItself(s: State, moves: seq<Move>, s': State, i: nat, w: Work)
    requires Leads(s, moves, s') && i < |s.tasks| && Runs(s.tasks[i], w)
    ensures i < |s'.tasks|
    ensures if Acts(i, NoMoreFires) in moves then s'.tasks[i].Ended? else Runs(s'.tasks[i], w)
    decreases |moves|
  {
    if moves != [] {
      var m, rest := moves[0], moves[1..];
      assert moves == [m] + rest;
      LoopGoesOn(s, m, i, w);
      if m == Acts(i, NoMoreFires) {
        EndedStays(After(s, m), rest, s', i);
      } else {
        LoopEndsByItself(After(s, m), rest, s', i, w);
      }
    }
  }
}

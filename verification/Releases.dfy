/**
 Slots can always be given back: from every reachable state the holders alone can go on until
 `running` is empty, so `JobAlreadyRunning` is never for good.
 */
module Releases {
  import opened Dsl
  import opened Executor
  import opened Steps
  import opened Slots

  // How many steps a holder needs if its next attempt succeeds.
  function Left(t: Task): nat {
    match t
    case Releasing(_, _, _, _) => 1
    case Dispatching(w, _, p, _, _) => LeftIn(w.spec, p)
    case Spawning(_, _) => 8
    case Begun(_) => 9
    case _ => 0
  }

  function LeftIn(spec: JobSpec, p: Phase): nat {
    match p
    case Returned(_) => 2
    case RecordingOffline => 3
    case Recording(_, r) => if Digest(spec.kind, r).ok then 3 else 6
    case Attempting(_) => 4
    case Delaying(_) => 5
    case Entered => 7
  }

  // The step that leads there.
  function Next(t: Task): Input {
    if t.Dispatching? then
      match t.phase
      case Returned(_) => Clock(0)
      case Attempting(_) => Happens(Result(DONE))
      case Delaying(_) => Happens(DelayElapsed)
      case _ => Happens(Go)
    else Step
  }

  // `s'` has the tasks and the registry of `s` but for task `i`, and tasks without a slot.
  ghost predicate OnlyOwn(s: State, s': State, i: nat) {
    && i < |s.tasks| <= |s'.tasks| && s'.jobs == s.jobs
    && (forall j :: 0 <= j < |s.tasks| && j != i ==> s'.tasks[j] == s.tasks[j])
    && (forall j :: |s.tasks| <= j < |s'.tasks| ==> ClaimOf(s'.tasks[j]).Nothing?)
  }

  lemma HolderCanAct(s: State, i: nat)
    requires SlotInv(s) && i < |s.tasks| && ClaimOf(s.tasks[i]).Slot?
    ensures CanAct(s, i, Next(s.tasks[i]))
  {
    assert Claims(s)[i] == ClaimOf(s.tasks[i]);
  }

  // Each such step brings the holder closer to giving its slot back, which the last one does.
  lemma HolderGoesOn(s: State, i: nat)
    requires i < |s.tasks| && ClaimOf(s.tasks[i]).Slot? && CanAct(s, i, Next(s.tasks[i]))
    ensures var s', t := Act(s, i, Next(s.tasks[i])), s.tasks[i];
      && OnlyOwn(s, s', i)
      && Left(s'.tasks[i]) < Left(t)
      && (if t.Releasing? then ClaimOf(s'.tasks[i]).Nothing? && s'.running == s.running - {t.w.key}
          else HoldsKey(ClaimOf(s'.tasks[i]), t.w.key) && s'.running == s.running)
  {
  }

  // All moves are those of tasks that hold a slot in `s`.
  ghost predicate ByHolders(s: State, moves: seq<Move>) {
    forall m :: m in moves ==> m.Acts? && m.i < |s.tasks| && ClaimOf(s.tasks[m.i]).Slot?
  }


  lemma HoldersStay(s: State, mid: State, i: nat, moves: seq<Move>)
    requires OnlyOwn(s, mid, i) && ClaimOf(s.tasks[i]).Slot? && ByHolders(mid, moves)
    ensures forall a :: ByHolders(s, [Acts(i, a)] + moves)
  {
    forall m | m in moves
      ensures m.i < |s.tasks| && ClaimOf(s.tasks[m.i]).Slot?
    {
      assert ClaimOf(mid.tasks[m.i]).Slot?;
    }
  }

  // From every state that can be reached, some moves of the holders, and of nobody else, lead
  // to a state with no slot taken.
  lemma {:induction false} SlotsCanBeGivenBack(s: State) returns (moves: seq<Move>, s': State)
    requires SlotInv(s)
    ensures Leads(s, moves, s') && s'.running == map[] && s'.jobs == s.jobs && ByHolders(s, moves)
    decreases |s.running|, 10
  {
    if s.running == map[] {
      moves, s' := [], s;
    } else {
      var k :| k in s.running;
      assert Held(Claims(s), k);
      var i :| 0 <= i < |Claims(s)| && HoldsKey(Claims(s)[i], k);
      moves, s' := GivenBackFrom(s, i);
    }
  }

  // One such step, in a state that keeps the slots in order.
  lemma HolderStep(s: State, i: nat) returns (s': State)
    requires SlotInv(s) && i < |s.tasks| && ClaimOf(s.tasks[i]).Slot?
    ensures CanMove(s, Acts(i, Next(s.tasks[i]))) && s' == After(s, Acts(i, Next(s.tasks[i])))
    ensures SlotInv(s') && OnlyOwn(s, s', i) && Left(s'.tasks[i]) < Left(s.tasks[i])
    ensures if s.tasks[i].Releasing? then |s'.running| < |s.running|
            else ClaimOf(s'.tasks[i]).Slot? && s'.running == s.running
  {
    var t, m := s.tasks[i], Acts(i, Next(s.tasks[i]));
    HolderCanAct(s, i);
    HolderGoesOn(s, i);
    MoveKeepsSlots(s, m);
    assert Claims(s)[i] == ClaimOf(t) && t.w.key in s.running;
    s' := After(s, m);
  }

  // The same, task `i` going first.
  lemma {:induction false} GivenBackFrom(s: State, i: nat) returns (moves: seq<Move>, s': State)
    requires SlotInv(s) && i < |s.tasks| && ClaimOf(s.tasks[i]).Slot?
    ensures Leads(s, moves, s') && s'.running == map[] && s'.jobs == s.jobs && ByHolders(s, moves)
    decreases |s.running|, Left(s.tasks[i])
  {
    var m := Acts(i, Next(s.tasks[i]));
    var mid := HolderStep(s, i);
    var rest;
    if s.tasks[i].Releasing? {
      rest, s' := SlotsCanBeGivenBack(mid);
    } else {
      rest, s' := GivenBackFrom(mid, i);
    }
    HoldersStay(s, mid, i, rest);
    moves := [m] + rest;
    assert moves[1..] == rest;
  }

  // So a trigger that is refused can be let through later, without a reload or a `/stop`.
  lemma AlreadyRunningIsNotForGood(s: State, key: JobKey) returns (moves: seq<Move>, s': State)
    requires Reachable(s) && key in s.jobs
    ensures Leads(s, moves, s') && ByHolders(s, moves)
    ensures key in s'.jobs && key !in s'.running
  {
    ReachableSlots(s);
    moves, s' := SlotsCanBeGivenBack(s);
  }
}

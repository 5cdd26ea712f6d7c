/**
 The registry after any run, whoever else registers or reloads meanwhile: under each key, the
 last entry inserted since the registry was last cleared.
 */
module RegistryWrites {
  import opened Wrappers
  import opened Dsl
  import opened Steps
  import opened Registrations

  // What a step does to the `jobs` map.
  datatype Write = Cleared | Removed(key: JobKey) | Inserted(key: JobKey, entry: Registered)

  function WriteOf(s: State, m: Move): seq<Write> {
    if m.Arrives? || m.i >= |s.tasks| then []
    else
      match s.tasks[m.i]
      case Clearing(_) => [Cleared]
      case Registering(list, _) => if list == [] then [] else [Removed(list[0].key)]
      case Inserting(spec, cell, _, _) => [Inserted(spec.key, Registered(spec, cell))]
      case _ => []
  }

  ghost function Writes(s: State, moves: seq<Move>): seq<Write>
    decreases |moves|
  {
    if moves == [] || !CanMove(s, moves[0]) then []
    else WriteOf(s, moves[0]) + Writes(After(s, moves[0]), moves[1..])
  }

  predicate Concerns(w: Write, k: JobKey) {
    w.Cleared? || w.key == k
  }

  // The last write that concerns a key.
  function LastWrite(ws: seq<Write>, k: JobKey): Option<Write> {
    if ws == [] then None
    else if Concerns(ws[|ws| - 1], k) then Some(ws[|ws| - 1])
    else LastWrite(ws[..|ws| - 1], k)
  }

  function Lookup(jobs: map<JobKey, Registered>, k: JobKey): Option<Registered> {
    if k in jobs then Some(jobs[k]) else None
  }

  function Left(w: Option<Write>, before: Option<Registered>): Option<Registered> {
    match w
    case None => before
    case Some(Inserted(_, entry)) => Some(entry)
    case Some(_) => None
  }

  lemma {:induction false} LastWriteConcat(a: seq<Write>, b: seq<Write>, k: JobKey)
    ensures LastWrite(a + b, k) == if LastWrite(b, k).Some? then LastWrite(b, k) else LastWrite(a, k)
  {
    if b == [] {
      assert a + b == a;
    } else {
      assert (a + b)[|a + b| - 1] == b[|b| - 1] && (a + b)[..|a + b| - 1] == a + b[..|b| - 1];
      LastWriteConcat(a, b[..|b| - 1], k);
    }
  }

  lemma OneWrite(s: State, m: Move, k: JobKey)
    requires CanMove(s, m)
    ensures Lookup(After(s, m).jobs, k) == Left(LastWrite(WriteOf(s, m), k), Lookup(s.jobs, k))
  {
    if m.Acts? {
      StepWrites(s, m.i, m.a, k);
    }
  }

  lemma StepWrites(s: State, i: nat, a: Input, k: JobKey)
    requires CanAct(s, i, a)
    ensures Lookup(Act(s, i, a).jobs, k) == Left(LastWrite(WriteOf(s, Acts(i, a)), k), Lookup(s.jobs, k))
  {
    var t := s.tasks[i];
    if InRegister(t) {
      RegisterWrites(s, i, a, k);
    } else if InReload(t) {
    } else if InStop(t) {
    } else if InRun(t) {
    } else if InTrigger(t) {
    } else {
      assert InCron(t);
    }
  }

  lemma RegisterWrites(s: State, i: nat, a: Input, k: JobKey)
    requires CanAct(s, i, a) && InRegister(s.tasks[i])
    ensures Lookup(ActRegister(s, i, a).jobs, k) == Left(LastWrite(WriteOf(s, Acts(i, a)), k), Lookup(s.jobs, k))
  {
  }

  // Over any run the registry holds, under each key, what the last write of that key left.
  lemma {:induction false} RegistryIsLastWrite(s: State, moves: seq<Move>, s': State, k: JobKey)
    requires Leads(s, moves, s')
    ensures Lookup(s'.jobs, k) == Left(LastWrite(Writes(s, moves), k), Lookup(s.jobs, k))
    decreases |moves|
  {
    if moves != [] {
      var mid := After(s, moves[0]);
      OneWrite(s, moves[0], k);
      RegistryIsLastWrite(mid, moves[1..], s', k);
      LastWriteConcat(WriteOf(s, moves[0]), Writes(mid, moves[1..]), k);
    }
  }

  /******* At rest *******/

  // A registration of the key that has removed the old entry and not yet inserted its own.
  predicate IsPending(t: Task, k: JobKey) {
    (t.SpawningLoop? || t.Inserting?) && t.spec.key == k
  }

  ghost predicate Pending(s: State, k: JobKey) {
    exists i :: 0 <= i < |s.tasks| && IsPending(s.tasks[i], k)
  }

  lemma PendingStays(s: State, m: Move, i: nat, k: JobKey)
    requires CanMove(s, m) && i < |s.tasks| && IsPending(s.tasks[i], k)
    requires LastWrite(WriteOf(s, m), k) == None
    ensures i < |After(s, m).tasks| && IsPending(After(s, m).tasks[i], k)
  {
    if m.Acts? {
      if m.i == i {
        assert s.tasks[i].SpawningLoop?;
      } else {
        OthersKeepTasks(s, m.i, m.a, i);
      }
    }
  }

  lemma {:induction false} PendingStaysOn(s: State, moves: seq<Move>, s': State, i: nat, k: JobKey)
    requires Leads(s, moves, s') && i < |s.tasks| && IsPending(s.tasks[i], k)
    requires LastWrite(Writes(s, moves), k) == None
    ensures Pending(s', k)
    decreases |moves|
  {
    if moves != [] {
      var mid := After(s, moves[0]);
      LastWriteConcat(WriteOf(s, moves[0]), Writes(mid, moves[1..]), k);
      PendingStays(s, moves[0], i, k);
      PendingStaysOn(mid, moves[1..], s', i, k);
    }
  }

  lemma RemovalIsPending(s: State, m: Move, k: JobKey)
    requires CanMove(s, m) && LastWrite(WriteOf(s, m), k) == Some(Removed(k))
    ensures m.Acts? && m.i < |After(s, m).tasks| && IsPending(After(s, m).tasks[m.i], k)
  {
    var w := WriteOf(s, m);
    assert |w| == 1 && w[0] == Removed(k);
    var t := s.tasks[m.i];
    assert t.Registering? && t.list != [] && t.list[0].key == k;
  }

  // If a removal was the last write of a key, its registration is still under way.
  lemma {:induction false} RemovedIsUnderWay(s: State, moves: seq<Move>, s': State, k: JobKey)
    requires Leads(s, moves, s') && LastWrite(Writes(s, moves), k) == Some(Removed(k))
    ensures Pending(s', k)
    decreases |moves|
  {
    if moves != [] {
      var m, mid := moves[0], After(s, moves[0]);
      LastWriteConcat(WriteOf(s, m), Writes(mid, moves[1..]), k);
      if LastWrite(Writes(mid, moves[1..]), k).Some? {
        RemovedIsUnderWay(mid, moves[1..], s', k);
      } else {
        RemovalIsPending(s, m, k);
        PendingStaysOn(mid, moves[1..], s', m.i, k);
      }
    }
  }

  // The last entry inserted under a key since the registry was last cleared.
  function LastInserted(ws: seq<Write>, k: JobKey): Option<Registered> {
    if ws == [] then None
    else
      match ws[|ws| - 1]
      case Cleared => None
      case Inserted(key, entry) => if key == k then Some(entry) else LastInserted(ws[..|ws| - 1], k)
      case Removed(_) => LastInserted(ws[..|ws| - 1], k)
  }

  lemma {:induction false} LastInsertedIs(ws: seq<Write>, k: JobKey)
    requires LastWrite(ws, k) != Some(Removed(k))
    ensures LastInserted(ws, k) == Left(LastWrite(ws, k), None)
  {
    if ws != [] && !Concerns(ws[|ws| - 1], k) {
      LastInsertedIs(ws[..|ws| - 1], k);
    }
  }

  // From the empty scheduler, over any interleaving of reloads and registrations: a key that no
  // registration is just replacing holds the entry inserted last since the last clearing.
  lemma RegistryIsLastInserted(offline: bool, moves: seq<Move>, s: State, k: JobKey)
    requires Leads(Initial(offline), moves, s) && !Pending(s, k)
    ensures Lookup(s.jobs, k) == LastInserted(Writes(Initial(offline), moves), k)
  {
    var ws := Writes(Initial(offline), moves);
    RegistryIsLastWrite(Initial(offline), moves, s, k);
    if LastWrite(ws, k) == Some(Removed(k)) {
      RemovedIsUnderWay(Initial(offline), moves, s, k);
    }
    LastInsertedIs(ws, k);
  }

  /******* Two reloads at once *******/

  lemma TwoSignalAndClear(s: State, first: seq<JobSpec>, second: seq<JobSpec>) returns (moves: seq<Move>, s': State)
    ensures Leads(s, moves, s') && s'.jobs == map[] && |s'.tasks| == |s.tasks| + 2
    ensures s'.tasks[|s.tasks|] == Registering(first, |first|) && s'.tasks[|s.tasks| + 1] == Registering(second, |second|)
  {
    var i, j := |s.tasks|, |s.tasks| + 1;
    var a, b := Arrives(SignallingAll(first)), Arrives(SignallingAll(second));
    assert Leads(s, [], s);
    LeadsBy(s, [], s, a);
    var s1 := After(s, a);
    LeadsBy(s, [] + [a], s1, b);
    var s2 := After(s1, b);
    var m3, s3 := StepOn(s, [] + [a] + [b], s2, i);
    var m4, s4 := StepOn(s, m3, s3, j);
    var m5, s5 := StepOn(s, m4, s4, i);
    moves, s' := StepOn(s, m5, s5, j);
  }

  lemma StepOn(s0: State, before: seq<Move>, s: State, i: nat) returns (moves: seq<Move>, s': State)
    requires Leads(s0, before, s) && i < |s.tasks| && InReload(s.tasks[i])
    ensures Leads(s0, moves, s') && |s'.tasks| == |s.tasks|
    ensures match s.tasks[i]
            case SignallingAll(list) => s'.tasks[i] == Clearing(list) && s'.jobs == s.jobs
            case Clearing(list) => s'.tasks[i] == Registering(list, |list|) && s'.jobs == map[]
    ensures forall j :: 0 <= j < |s.tasks| && j != i && !s.tasks[j].Dispatching? ==> s'.tasks[j] == s.tasks[j]
  {
    s' := After(s, Acts(i, Step));
    LeadsBy(s0, before, s, Acts(i, Step));
    moves := before + [Acts(i, Step)];
  }

  // Two reloads that have both cleared before either registers leave both lists in the registry.
  lemma InterleavedReloads(s: State, first: seq<JobSpec>, second: seq<JobSpec>) returns (moves: seq<Move>, s': State)
    ensures Leads(s, moves, s') && |s'.tasks| >= |s.tasks| + 2
    ensures s'.tasks[|s.tasks|] == Ended(Reloaded(|first|)) && s'.tasks[|s.tasks| + 1] == Ended(Reloaded(|second|))
    ensures SpecsOf(s'.jobs) == FoldJobs(FoldJobs(map[], first), second)
  {
    var m1, s1 := TwoSignalAndClear(s, first, second);
    assert SpecsOf(s1.jobs) == map[];
    var m2, s2 := RegisterAllAlone(s1, |s.tasks|);
    var m3, s3 := RegisterAllAlone(s2, |s.tasks| + 1);
    LeadsOn(s, m1, s1, m2, s2);
    LeadsOn(s, m1 + m2, s2, m3, s3);
    moves, s' := m1 + m2 + m3, s3;
  }

  // So, if each list has a key that the other has not, the registry is neither list.
  lemma NeitherList(first: seq<JobSpec>, second: seq<JobSpec>, a: JobKey, b: JobKey)
    requires Listed(first, a) && !Listed(second, a) && Listed(second, b) && !Listed(first, b)
    ensures FoldJobs(FoldJobs(map[], first), second) != FoldJobs(map[], first)
    ensures FoldJobs(FoldJobs(map[], first), second) != FoldJobs(map[], second)
  {
    FoldIsLastWins(map[], first);
    FoldIsLastWins(map[], second);
    FoldIsLastWins(FoldJobs(map[], first), second);
  }
}

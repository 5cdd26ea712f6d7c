/**
 Registrations and the work started from them: runtime state is written by its own
 registration's work only, and work outlives its registration.
 */
module Registrations {
  import opened Wrappers
  import opened Dsl
  import opened Executor
  import opened Steps
  import opened Histories

  // The cell that the next step of the task writes: `record_skip` or `record_outcome`.
  predicate Writes(t: Task, c: nat) {
    (t.Skipping? || (t.Dispatching? && t.phase.Returned?)) && t.w.cell == c
  }

  // What a step of task `i` may do to cell `c`.
  ghost predicate WrittenByOwner(s: State, s': State, i: nat, a: Input, c: nat)
    requires i < |s.tasks| && c < |s.cells|
  {
    && c < |s'.cells| && s'.cells[c].spec == s.cells[c].spec
    && (s'.cells[c] != s.cells[c] ==>
          && Writes(s.tasks[i], c)
          && s.tasks[i].w.spec == s.cells[c].spec
          && s'.cells[c].state ==
             if s.tasks[i].Skipping? then RuntimeState(Some(s.tasks[i].nowMs), "SKIPPED")
             else if a.Clock? then RuntimeState(Some(a.nowMs), s.tasks[i].phase.outcome.status.AsStr())
             else s.cells[c].state)
  }

  lemma CronCells(s: State, i: nat, a: Input, c: nat)
    requires CanAct(s, i, a) && c < |s.cells| && InCron(s.tasks[i]) && TaskOk(s.offline, s.cells, s.tasks[i])
    ensures WrittenByOwner(s, ActCron(s, i, a), i, a, c)
  {
  }

  lemma RunCells(s: State, i: nat, a: Input, c: nat)
    requires CanAct(s, i, a) && c < |s.cells| && InRun(s.tasks[i]) && WorkOk(s.cells, s.tasks[i].w)
    ensures WrittenByOwner(s, ActRun(s, i, a), i, a, c)
  {
  }

  lemma OtherCells(s: State, i: nat, a: Input, c: nat)
    requires CanAct(s, i, a) && c < |s.cells| && !InCron(s.tasks[i]) && !InRun(s.tasks[i])
    ensures WrittenByOwner(s, Act(s, i, a), i, a, c)
  {
    var t := s.tasks[i];
    if InTrigger(t) {
    } else if InStop(t) {
    } else if InReload(t) {
    } else {
      assert InRegister(t);
    }
  }

  // The runtime state of a registration changes only by a skip or a run started from it, and
  // then records how that ended; the registration it belongs to never changes.
  lemma CellsAreWrittenByTheirOwn(s: State, i: nat, a: Input, c: nat)
    requires Reachable(s) && CanAct(s, i, a) && c < |s.cells|
    ensures WrittenByOwner(s, Act(s, i, a), i, a, c)
  {
    ReachableAll(s);
    assert TaskOk(s.offline, s.cells, s.tasks[i]);
    if InCron(s.tasks[i]) {
      CronCells(s, i, a, c);
    } else if InRun(s.tasks[i]) {
      RunCells(s, i, a, c);
    } else {
      OtherCells(s, i, a, c);
    }
  }

  // The registry holds, under each key, a registration of that key with its own cell.
  lemma RegistryIsSound(s: State, k: JobKey, k': JobKey)
    requires Reachable(s) && k in s.jobs && k' in s.jobs
    ensures s.jobs[k].spec.key == k
    ensures s.jobs[k].cell < |s.cells| && s.cells[s.jobs[k].cell].spec == s.jobs[k].spec
    ensures k != k' ==> s.jobs[k].cell != s.jobs[k'].cell
  {
    ReachableAll(s);
  }

  /******* Work outlives its registration *******/

  // A cron loop, or a run from the moment its registration has been looked up.
  predicate HasWork(t: Task) {
    InCron(t) || InRun(t) || t.Beginning? || t.Spawning?
  }

  // The task goes on with the same work, or has ended.
  ghost predicate SameWork(t: Task, t': Task)
    requires HasWork(t)
  {
    t'.Ended? || (HasWork(t') && t'.w == t.w)
  }

  lemma OwnStepKeepsWork(s: State, i: nat, a: Input)
    requires CanAct(s, i, a) && HasWork(s.tasks[i])
    ensures i < |Act(s, i, a).tasks| && SameWork(s.tasks[i], Act(s, i, a).tasks[i])
  {
  }

  // Nobody else's step, a reload's included, does more to a task than signal it: this is
  // what dropping the JoinHandle of a registration amounts to.
  lemma OthersKeepTasks(s: State, i: nat, a: Input, j: nat)
    requires CanAct(s, i, a) && j < |s.tasks| && j != i
    ensures j < |Act(s, i, a).tasks|
    ensures Act(s, i, a).tasks[j] == s.tasks[j]
         || (s.tasks[j].Dispatching? && Act(s, i, a).tasks[j] == s.tasks[j].(ear := Notified)
             && (s.tasks[i].Signalling? || s.tasks[i].SignallingAll?))
  {
    var t := s.tasks[i];
    if InCron(t) {
    } else if InTrigger(t) {
    } else if InRun(t) {
    } else if InStop(t) {
    } else if InReload(t) {
    } else {
      assert InRegister(t);
    }
  }

  lemma {:induction false} WorkIsForLife(s: State, moves: seq<Move>, s': State, i: nat)
    requires Leads(s, moves, s') && i < |s.tasks| && HasWork(s.tasks[i])
    ensures i < |s'.tasks| && SameWork(s.tasks[i], s'.tasks[i])
    decreases |moves|
  {
    if moves != [] {
      var m := moves[0];
      var mid := After(s, m);
      if m.Acts? {
        if m.i == i {
          OwnStepKeepsWork(s, i, m.a);
        } else {
          OthersKeepTasks(s, m.i, m.a, i);
        }
      }
      assert SameWork(s.tasks[i], mid.tasks[i]);
      if mid.tasks[i].Ended? {
        EndedStays(mid, moves[1..], s', i);
      } else {
        WorkIsForLife(mid, moves[1..], s', i);
      }
    }
  }

  lemma {:induction false} EndedStays(s: State, moves: seq<Move>, s': State, i: nat)
    requires Leads(s, moves, s') && i < |s.tasks| && s.tasks[i].Ended?
    ensures i < |s'.tasks| && s'.tasks[i].Ended?
    decreases |moves|
  {
    if moves != [] {
      var m := moves[0];
      if m.Acts? {
        OthersKeepTasks(s, m.i, m.a, i);
      }
      EndedStays(After(s, m), moves[1..], s', i);
    }
  }

  // A run or loop that existed before a reload (at `s`) may act long after it (at `s'`), but
  // never changes the state of a registration made since.
  lemma OldWorkLeavesNewRegistrationsAlone(s: State, moves: seq<Move>, s': State, i: nat, a: Input, c: nat)
    requires Reachable(s) && Leads(s, moves, s') && i < |s.tasks| && HasWork(s.tasks[i])
    requires CanAct(s', i, a) && |s.cells| <= c < |s'.cells|
    ensures c < |Act(s', i, a).cells| && Act(s', i, a).cells[c] == s'.cells[c]
  {
    ReachableAll(s);
    assert TaskOk(s.offline, s.cells, s.tasks[i]);
    WorkIsForLife(s, moves, s', i);
    ReachableFurther(s, moves, s');
    CellsAreWrittenByTheirOwn(s', i, a, c);
  }

  lemma {:induction false} LeadsOn(s0: State, first: seq<Move>, s1: State, second: seq<Move>, s2: State)
    requires Leads(s0, first, s1) && Leads(s1, second, s2)
    ensures Leads(s0, first + second, s2)
    decreases |first|
  {
    if first == [] {
      assert first + second == second;
    } else {
      LeadsOn(After(s0, first[0]), first[1..], s1, second, s2);
      assert (first + second)[1..] == first[1..] + second;
    }
  }

  lemma {:induction false} OfflineIsConstant(s: State, moves: seq<Move>, s': State)
    requires Leads(s, moves, s')
    ensures s'.offline == s.offline
    decreases |moves|
  {
    if moves != [] {
      var m := moves[0];
      assert After(s, m).offline == s.offline;
      OfflineIsConstant(After(s, m), moves[1..], s');
    }
  }

  lemma ReachableFurther(s: State, moves: seq<Move>, s': State)
    requires Reachable(s) && Leads(s, moves, s')
    ensures Reachable(s')
  {
    var first :| Leads(Initial(s.offline), first, s);
    LeadsOn(Initial(s.offline), first, s, moves, s');
    OfflineIsConstant(s, moves, s');
  }

  lemma ReachableNext(s: State, m: Move)
    requires Reachable(s) && CanMove(s, m)
    ensures Reachable(After(s, m))
  {
    assert Leads(s, [m], After(s, m)) by {
      assert Leads(After(s, m), [m][1..], After(s, m));
    }
    ReachableFurther(s, [m], After(s, m));
  }

  lemma LeadsBy(s0: State, moves: seq<Move>, s: State, m: Move)
    requires Leads(s0, moves, s) && CanMove(s, m)
    ensures Leads(s0, moves + [m], After(s, m))
  {
    assert Leads(s, [m], After(s, m)) by {
      assert Leads(After(s, m), [m][1..], After(s, m));
    }
    LeadsOn(s0, moves, s, [m], After(s, m));
  }

  /******* register, undisturbed *******/

  // The loop that register spawns for the job, if any.
  function LoopOf(spec: JobSpec, cell: nat): seq<Task> {
    if spec.trigger.Cron? then [Sleeping(Work(spec.key, spec, cell, FromCron))] else []
  }

  // What one `register` call does if nothing comes in between.
  function RegisterIn(s: State, spec: JobSpec): State {
    s.(jobs := s.jobs[spec.key := Registered(spec, |s.cells|)],
       cells := s.cells + [Cell(spec, FRESH_STATE)],
       tasks := s.tasks + LoopOf(spec, |s.cells|))
  }

  function RegisterAllIn(s: State, list: seq<JobSpec>): State
    decreases |list|
  {
    if list == [] then s else RegisterAllIn(RegisterIn(s, list[0]), list[1..])
  }

  // The same, as a stretch of task `i`.
  function Registers(s: State, i: nat, spec: JobSpec, rest: seq<JobSpec>, count: nat): State
    requires i < |s.tasks|
  {
    RegisterIn(Put(s, i, Registering(rest, count)), spec)
  }

  lemma RegisterAlone(s: State, i: nat) returns (moves: seq<Move>)
    requires i < |s.tasks| && s.tasks[i].Registering? && s.tasks[i].list != []
    ensures var t := s.tasks[i];
      Leads(s, moves, Registers(s, i, t.list[0], t.list[1..], t.count))
  {
    var t := s.tasks[i];
    var spec, cell := t.list[0], |s.cells|;
    var s1 := After(s, Acts(i, Step));
    assert s1.tasks == s.tasks[i := SpawningLoop(spec, cell, t.list[1..], t.count)];
    var s2 := After(s1, Acts(i, Step));
    assert s2.tasks == s.tasks[i := Inserting(spec, cell, t.list[1..], t.count)] + LoopOf(spec, cell);
    var s3 := After(s2, Acts(i, Step));
    assert s3 == Registers(s, i, spec, t.list[1..], t.count);
    assert Leads(s, [], s);
    LeadsBy(s, [], s, Acts(i, Step));
    LeadsBy(s, [] + [Acts(i, Step)], s1, Acts(i, Step));
    LeadsBy(s, [] + [Acts(i, Step)] + [Acts(i, Step)], s2, Acts(i, Step));
    moves := [] + [Acts(i, Step)] + [Acts(i, Step)] + [Acts(i, Step)];
  }

  // Registering a list leaves the registry folded over it, the last job of a key winning, and
  // leaves every other task alone.
  lemma {:induction false} RegisterAllAlone(s: State, i: nat) returns (moves: seq<Move>, s': State)
    requires i < |s.tasks| && s.tasks[i].Registering?
    ensures Leads(s, moves, s')
    ensures SpecsOf(s'.jobs) == FoldJobs(SpecsOf(s.jobs), s.tasks[i].list)
    ensures s'.running == s.running && s'.log == s.log && s'.signals == s.signals
    ensures |s'.tasks| >= |s.tasks| && s'.tasks[i] == Ended(Reloaded(s.tasks[i].count))
    ensures forall j :: 0 <= j < |s.tasks| && j != i ==> s'.tasks[j] == s.tasks[j]
    decreases |s.tasks[i].list|
  {
    var t := s.tasks[i];
    if t.list == [] {
      s' := After(s, Acts(i, Step));
      assert Leads(s, [], s);
      LeadsBy(s, [], s, Acts(i, Step));
      moves := [] + [Acts(i, Step)];
    } else {
      var first := RegisterAlone(s, i);
      var mid := Registers(s, i, t.list[0], t.list[1..], t.count);
      assert SpecsOf(mid.jobs) == SpecsOf(s.jobs)[t.list[0].key := t.list[0]];
      var second, last := RegisterAllAlone(mid, i);
      LeadsOn(s, first, mid, second, last);
      moves, s' := first + second, last;
    }
  }

  /******* Last wins *******/

  function SpecsOf(jobs: map<JobKey, Registered>): map<JobKey, JobSpec> {
    map k | k in jobs :: jobs[k].spec
  }

  function FoldJobs(specs: map<JobKey, JobSpec>, list: seq<JobSpec>): map<JobKey, JobSpec>
    decreases |list|
  {
    if list == [] then specs else FoldJobs(specs[list[0].key := list[0]], list[1..])
  }

  // Job `i` is the last of the list with its key.
  ghost predicate LastOfKey(list: seq<JobSpec>, i: int) {
    0 <= i < |list| && forall j :: i < j < |list| ==> list[j].key != list[i].key
  }

  ghost predicate Listed(list: seq<JobSpec>, k: JobKey) {
    exists i :: 0 <= i < |list| && list[i].key == k
  }

  lemma {:induction false} FoldIsLastWins(specs: map<JobKey, JobSpec>, list: seq<JobSpec>)
    ensures forall k :: k in FoldJobs(specs, list) <==> k in specs || Listed(list, k)
    ensures forall i :: LastOfKey(list, i) ==>
      list[i].key in FoldJobs(specs, list) && FoldJobs(specs, list)[list[i].key] == list[i]
    ensures forall k :: k in specs && !Listed(list, k) ==> FoldJobs(specs, list)[k] == specs[k]
    decreases |list|
  {
    if list != [] {
      var rest := list[1..];
      FoldIsLastWins(specs[list[0].key := list[0]], rest);
      forall k
        ensures Listed(list, k) <==> k == list[0].key || Listed(rest, k)
      {
        if Listed(rest, k) {
          var i :| 0 <= i < |rest| && rest[i].key == k;
          assert list[i + 1].key == k;
        }
        if Listed(list, k) && k != list[0].key {
          var i :| 0 <= i < |list| && list[i].key == k;
          assert rest[i - 1].key == k;
        }
      }
      forall i | LastOfKey(list, i)
        ensures list[i].key in FoldJobs(specs, list) && FoldJobs(specs, list)[list[i].key] == list[i]
      {
        if i > 0 {
          assert LastOfKey(rest, i - 1);
        } else {
          assert !Listed(rest, list[0].key);
        }
      }
    }
  }

  function KeySet(list: seq<JobSpec>): set<JobKey> {
    set i | 0 <= i < |list| :: list[i].key
  }

  ghost predicate DistinctKeys(list: seq<JobSpec>) {
    forall i, j :: 0 <= i < j < |list| ==> list[i].key != list[j].key
  }

  // `/reload` reports the length of the list; the registry is that large exactly when no two
  // files gave a job the same key.
  lemma {:induction false} RegistrySize(list: seq<JobSpec>)
    ensures |FoldJobs(map[], list)| == |KeySet(list)| <= |list|
    ensures |KeySet(list)| == |list| <==> DistinctKeys(list)
  {
    FoldIsLastWins(map[], list);
    assert FoldJobs(map[], list).Keys == KeySet(list);
    KeySetSize(list);
  }

  lemma {:induction false} KeySetSize(list: seq<JobSpec>)
    ensures |KeySet(list)| <= |list|
    ensures |KeySet(list)| == |list| <==> DistinctKeys(list)
  {
    if list != [] {
      var n := |list| - 1;
      KeySetSize(list[..n]);
      KeySetMore(list, n);
    }
  }

  lemma KeySetMore(list: seq<JobSpec>, n: nat)
    requires n == |list| - 1
    ensures KeySet(list) == KeySet(list[..n]) + {list[n].key}
    ensures DistinctKeys(list) <==> DistinctKeys(list[..n]) && list[n].key !in KeySet(list[..n])
  {
    var front, key := list[..n], list[n].key;
    assert forall i :: 0 <= i < n ==> front[i] == list[i];
    assert key in KeySet(front) <==> exists i :: 0 <= i < n && front[i].key == key;
  }

  // `reload_from`, undisturbed: the registry becomes the last-wins fold of the list, whatever
  // it was, and running dispatches keep their slots.
  lemma ReloadAlone(s: State, i: nat, list: seq<JobSpec>) returns (moves: seq<Move>, s': State)
    requires i < |s.tasks| && s.tasks[i] == SignallingAll(list)
    ensures Leads(s, moves, s')
    ensures SpecsOf(s'.jobs) == FoldJobs(map[], list) && s'.running == s.running && s'.log == s.log
    ensures |s'.tasks| >= |s.tasks| && s'.tasks[i] == Ended(Reloaded(|list|))
    ensures forall j :: 0 <= j < |s.tasks| && j != i ==>
      s'.tasks[j] == s.tasks[j] || (s.tasks[j].Dispatching? && s'.tasks[j] == s.tasks[j].(ear := Notified))
  {
    var s1 := After(s, Acts(i, Step));
    assert s1.tasks[i] == Clearing(list);
    var s2 := After(s1, Acts(i, Step));
    assert SpecsOf(s2.jobs) == map[];
    var more, last := RegisterAllAlone(s2, i);
    assert Leads(s, [], s);
    LeadsBy(s, [], s, Acts(i, Step));
    LeadsBy(s, [] + [Acts(i, Step)], s1, Acts(i, Step));
    LeadsOn(s, [] + [Acts(i, Step)] + [Acts(i, Step)], s2, more, last);
    moves, s' := [] + [Acts(i, Step)] + [Acts(i, Step)] + more, last;
  }

  // `trigger_now`, undisturbed: the slot is taken with a fresh token, and the spawned run
  // carries that token and the registration that was looked up.
  lemma TriggerAlone(s: State, key: JobKey, nowMs: int) returns (moves: seq<Move>, s': State)
    requires key in s.jobs && key !in s.running
    ensures Leads(s, moves, s')
    ensures var w := Work(key, s.jobs[key].spec, s.jobs[key].cell, FromTrigger);
      s' == Take(s, key, nowMs, ScheduleOf(w.spec))
              .(tasks := s.tasks + [Dispatching(w, |s.born|, Entered, [], Deaf), Ended(Triggered)])
  {
    var first := LookUpAlone(s, key);
    var second;
    second, s' := BeginAlone(Looked(s, key), |s.tasks|, nowMs);
    LeadsOn(s, first, Looked(s, key), second, s');
    moves := first + second;
  }

  function Looked(s: State, key: JobKey): State
    requires key in s.jobs
  {
    s.(tasks := s.tasks + [Beginning(Work(key, s.jobs[key].spec, s.jobs[key].cell, FromTrigger))])
  }

  lemma LookUpAlone(s: State, key: JobKey) returns (moves: seq<Move>)
    requires key in s.jobs
    ensures Leads(s, moves, Looked(s, key))
  {
    var i, arrives := |s.tasks|, Arrives(LookingUp(key));
    var s1 := After(s, arrives);
    assert After(s1, Acts(i, Step)).tasks == Looked(s, key).tasks;
    assert Leads(s, [], s);
    LeadsBy(s, [], s, arrives);
    LeadsBy(s, [] + [arrives], s1, Acts(i, Step));
    moves := [] + [arrives] + [Acts(i, Step)];
  }

  lemma BeginAlone(s: State, i: nat, nowMs: int) returns (moves: seq<Move>, s': State)
    requires i == |s.tasks| - 1 && s.tasks[i].Beginning? && s.tasks[i].w.source == FromTrigger
    requires s.tasks[i].w.key !in s.running
    ensures Leads(s, moves, s')
    ensures var w := s.tasks[i].w;
      s' == Take(s, w.key, nowMs, ScheduleOf(w.spec))
              .(tasks := s.tasks[..i] + [Dispatching(w, |s.born|, Entered, [], Deaf), Ended(Triggered)])
  {
    var w, clock, step := s.tasks[i].w, Acts(i, Clock(nowMs)), Acts(i, Step);
    var taken := Take(s, w.key, nowMs, ScheduleOf(w.spec));
    var s1 := After(s, clock);
    assert s1.tasks == s.tasks[i := Begun(w)];
    var s2 := After(s1, step);
    assert s2.tasks == s.tasks[i := Spawning(w, |s.born|)];
    s' := After(s2, step);
    assert s'.tasks == s.tasks[..i] + [Dispatching(w, |s.born|, Entered, [], Deaf), Ended(Triggered)];
    assert Leads(s, [], s);
    LeadsBy(s, [], s, clock);
    LeadsBy(s, [] + [clock], s1, step);
    LeadsBy(s, [] + [clock] + [step], s2, step);
    moves := [] + [clock] + [step] + [step];
  }

  // A reload to an empty list empties the registry, yet every cron loop lives on: the comment
  // at src/scheduler.rs:42-45 says otherwise.
  lemma LoopsOutliveReload(s: State, j: nat) returns (s': State)
    requires Reachable(s) && j < |s.tasks| && s.tasks[j].Sleeping?
    ensures Reachable(s') && s'.jobs == map[] && j < |s'.tasks| && s'.tasks[j] == s.tasks[j]
  {
    var s0 := After(s, Arrives(SignallingAll([])));
    ReachableNext(s, Arrives(SignallingAll([])));
    var moves, last := ReloadAlone(s0, |s.tasks|, []);
    ReachableFurther(s0, moves, last);
    s' := last;
    assert SpecsOf(s'.jobs).Keys == s'.jobs.Keys;
  }

  // So registering a cron job twice leaves two loops for one key.
  lemma TwoLoopsForOneKey(spec: JobSpec, offline: bool) returns (s: State)
    requires spec.trigger.Cron?
    ensures Reachable(s) && SpecsOf(s.jobs) == map[spec.key := spec]
    ensures exists i, j :: 0 <= i < j < |s.tasks| && s.tasks[i].Sleeping? && s.tasks[j].Sleeping?
              && s.tasks[i].w.key == s.tasks[j].w.key
  {
    var s0 := After(Initial(offline), Arrives(Registering([spec, spec], 2)));
    assert Leads(Initial(offline), [], Initial(offline));
    ReachableNext(Initial(offline), Arrives(Registering([spec, spec], 2)));
    var first := RegisterAlone(s0, 0);
    var s1 := Registers(s0, 0, spec, [spec, spec][1..], 2);
    var second := RegisterAlone(s1, 0);
    s := Registers(s1, 0, spec, [spec, spec][1..][1..], 2);
    LeadsOn(s0, first, s1, second, s);
    ReachableFurther(s0, first + second, s);
    assert s.tasks[1].Sleeping? && s.tasks[2].Sleeping?;
    assert SpecsOf(s.jobs) == map[spec.key := spec];
  }
}

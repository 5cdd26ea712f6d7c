/**
 The running slots: in every reachable state `running` is in bijection with the tasks
 between their `begin_running` and their own `remove`.
 */
module Slots {
  import opened Wrappers
  import opened Dsl
  import opened Steps

  // What a task lays claim to: nothing, or the slot of a key, and the cancel token once it
  // has read it back.
  datatype Claim = Nothing | Slot(key: JobKey, token: Option<nat>)

  function ClaimOf(t: Task): Claim {
    match t
    case Begun(w) => Slot(w.key, None)
    case Spawning(w, token) => Slot(w.key, Some(token))
    case Dispatching(w, token, _, _, _) => Slot(w.key, Some(token))
    case Releasing(w, token, _, _) => Slot(w.key, Some(token))
    case _ => Nothing
  }

  predicate HoldsKey(c: Claim, k: JobKey) {
    c.Slot? && c.key == k
  }

  function Claims(s: State): (cs: seq<Claim>)
    ensures |cs| == |s.tasks|
    ensures forall i :: 0 <= i < |cs| ==> cs[i] == ClaimOf(s.tasks[i])
  {
    seq(|s.tasks|, i requires 0 <= i < |s.tasks| => ClaimOf(s.tasks[i]))
  }

  // Every claim is backed by the running map, token included.
  ghost predicate Backed(running: map<JobKey, Instance>, cs: seq<Claim>) {
    forall i :: 0 <= i < |cs| && cs[i].Slot? ==>
      cs[i].key in running && (cs[i].token.Some? ==> cs[i].token.value == running[cs[i].key].cancel)
  }

  ghost predicate Exclusive(cs: seq<Claim>) {
    forall i, j :: 0 <= i < j < |cs| && cs[i].Slot? && cs[j].Slot? ==> cs[i].key != cs[j].key
  }

  ghost predicate Held(cs: seq<Claim>, k: JobKey) {
    exists i :: 0 <= i < |cs| && HoldsKey(cs[i], k)
  }

  // Each slot's token was created for that slot, so no two slots share one.
  ghost predicate OwnTokens(running: map<JobKey, Instance>, born: seq<JobKey>) {
    forall k :: k in running ==> running[k].cancel < |born| && born[running[k].cancel] == k
  }

  ghost predicate Inv(running: map<JobKey, Instance>, born: seq<JobKey>, cs: seq<Claim>) {
    && Backed(running, cs)
    && Exclusive(cs)
    && (forall k :: k in running ==> Held(cs, k))
    && OwnTokens(running, born)
  }

  ghost predicate SlotInv(s: State) {
    Inv(s.running, s.born, Claims(s))
  }

  /******* The three things a step can do to the claims *******/

  // `cs'` is `cs` with claim `i` replaced and claimless tasks added.
  ghost predicate Replaced(cs: seq<Claim>, cs': seq<Claim>, i: nat, c: Claim) {
    && i < |cs| <= |cs'|
    && cs'[i] == c
    && (forall j :: 0 <= j < |cs| && j != i ==> cs'[j] == cs[j])
    && (forall j :: |cs| <= j < |cs'| ==> cs'[j].Nothing?)
  }

  lemma HeldStays(cs: seq<Claim>, cs': seq<Claim>, i: nat, c: Claim, k: JobKey)
    requires Replaced(cs, cs', i, c) && Held(cs, k)
    requires !HoldsKey(cs[i], k) || HoldsKey(c, k)
    ensures Held(cs', k)
  {
    var j :| 0 <= j < |cs| && HoldsKey(cs[j], k);
    assert HoldsKey(cs'[j], k);
  }

  // Claims stay, except that a token may be read back.
  lemma Quiet(running: map<JobKey, Instance>, born: seq<JobKey>, cs: seq<Claim>, cs': seq<Claim>, i: nat, c: Claim)
    requires Inv(running, born, cs) && Replaced(cs, cs', i, c)
    requires c == cs[i] || (cs[i].Slot? && c == Slot(cs[i].key, Some(running[cs[i].key].cancel)))
    ensures Inv(running, born, cs')
  {
    forall k | k in running
      ensures Held(cs', k)
    {
      HeldStays(cs, cs', i, c, k);
    }
  }

  lemma Taken(
    running: map<JobKey, Instance>, born: seq<JobKey>, cs: seq<Claim>, cs': seq<Claim>, i: nat, k: JobKey, inst: Instance)
    requires Inv(running, born, cs) && Replaced(cs, cs', i, Slot(k, None))
    requires cs[i].Nothing? && k !in running && inst.cancel == |born|
    ensures Inv(running[k := inst], born + [k], cs')
  {
    assert HoldsKey(cs'[i], k);
    forall k' | k' in running
      ensures Held(cs', k')
    {
      HeldStays(cs, cs', i, Slot(k, None), k');
    }
  }

  lemma Released(running: map<JobKey, Instance>, born: seq<JobKey>, cs: seq<Claim>, cs': seq<Claim>, i: nat)
    requires Inv(running, born, cs) && Replaced(cs, cs', i, Nothing) && cs[i].Slot?
    ensures Inv(running - {cs[i].key}, born, cs')
  {
    forall k | k in running && k != cs[i].key
      ensures Held(cs', k)
    {
      HeldStays(cs, cs', i, Nothing, k);
    }
  }

  /******* Every step keeps the invariant *******/

  lemma CronKeepsSlots(s: State, i: nat, a: Input)
    requires SlotInv(s) && CanAct(s, i, a)
    requires InCron(s.tasks[i])
    ensures SlotInv(ActCron(s, i, a))
  {
    var s' := ActCron(s, i, a);
    var w := s.tasks[i].w;
    if s.tasks[i].Firing? && w.key !in s.running {
      Taken(s.running, s.born, Claims(s), Claims(s'), i, w.key, s'.running[w.key]);
    } else {
      Quiet(s.running, s.born, Claims(s), Claims(s'), i, Nothing);
    }
  }

  lemma TriggerKeepsSlots(s: State, i: nat, a: Input)
    requires SlotInv(s) && CanAct(s, i, a)
    requires InTrigger(s.tasks[i])
    ensures SlotInv(ActTrigger(s, i, a))
  {
    var s' := ActTrigger(s, i, a);
    match s.tasks[i]
    case LookingUp(_) =>
      Quiet(s.running, s.born, Claims(s), Claims(s'), i, Nothing);
    case Beginning(w) =>
      if w.key in s.running {
        Quiet(s.running, s.born, Claims(s), Claims(s'), i, Nothing);
      } else {
        Taken(s.running, s.born, Claims(s), Claims(s'), i, w.key, s'.running[w.key]);
      }
    case Spawning(_, _) =>
      Quiet(s.running, s.born, Claims(s), Claims(s'), i, Claims(s)[i]);
  }

  lemma RunKeepsSlots(s: State, i: nat, a: Input)
    requires SlotInv(s) && CanAct(s, i, a)
    requires InRun(s.tasks[i])
    ensures SlotInv(ActRun(s, i, a))
  {
    var s' := ActRun(s, i, a);
    assert Claims(s)[i] == ClaimOf(s.tasks[i]);
    if s.tasks[i].Releasing? {
      Released(s.running, s.born, Claims(s), Claims(s'), i);
    } else {
      Quiet(s.running, s.born, Claims(s), Claims(s'), i, ClaimOf(s'.tasks[i]));
    }
  }

  lemma NotifyKeepsClaims(s: State, tokens: set<nat>)
    ensures Claims(NotifyAll(s, tokens)) == Claims(s)
  {
  }

  // A step of task `i` that leaves slots, tokens and the claims of others alone.
  lemma QuietAct(s: State, tokens: set<nat>, s': State, i: nat, t: Task)
    requires SlotInv(s) && i < |s.tasks| && ClaimOf(s.tasks[i]).Nothing? && ClaimOf(t).Nothing?
    requires s'.running == s.running && s'.born == s.born
    requires |s'.tasks| >= |s.tasks| && s'.tasks[..|s.tasks|] == NotifyAll(s, tokens).tasks[i := t]
    requires forall j :: |s.tasks| <= j < |s'.tasks| ==> ClaimOf(s'.tasks[j]).Nothing?
    ensures SlotInv(s')
  {
    NotifyKeepsClaims(s, tokens);
    var n := NotifyAll(s, tokens);
    assert forall j :: 0 <= j < |s.tasks| ==> s'.tasks[j] == s'.tasks[..|s.tasks|][j];
    assert forall j :: 0 <= j < |s.tasks| && j != i ==> Claims(s')[j] == Claims(n)[j];
    Quiet(s.running, s.born, Claims(s), Claims(s'), i, Nothing);
  }

  lemma NotifyNobody(s: State)
    ensures NotifyAll(s, {}) == s
  {
    assert NotifyAll(s, {}).tasks == s.tasks;
  }

  lemma StopKeepsSlots(s: State, i: nat, a: Input)
    requires SlotInv(s) && CanAct(s, i, a) && InStop(s.tasks[i])
    ensures SlotInv(ActStop(s, i, a))
  {
    NotifyNobody(s);
    var s' := ActStop(s, i, a);
    var signals := s.tasks[i].Signalling? && s.tasks[i].key in s.running;
    QuietAct(s, if signals then {s.running[s.tasks[i].key].cancel} else {}, s', i, s'.tasks[i]);
  }

  lemma ReloadKeepsSlots(s: State, i: nat, a: Input)
    requires SlotInv(s) && CanAct(s, i, a) && InReload(s.tasks[i])
    ensures SlotInv(ActReload(s, i, a))
  {
    NotifyNobody(s);
    var s' := ActReload(s, i, a);
    match s.tasks[i]
    case SignallingAll(_) => QuietAct(s, set k | k in s.running :: s.running[k].cancel, s', i, s'.tasks[i]);
    case Clearing(_) => QuietAct(s, {}, s', i, s'.tasks[i]);
  }

  lemma RegisterKeepsSlots(s: State, i: nat, a: Input)
    requires SlotInv(s) && CanAct(s, i, a) && InRegister(s.tasks[i])
    ensures SlotInv(ActRegister(s, i, a))
  {
    NotifyNobody(s);
    var s' := ActRegister(s, i, a);
    match s.tasks[i]
    case Registering(_, _) => QuietAct(s, {}, s', i, s'.tasks[i]);
    case SpawningLoop(spec, cell, list, count) => QuietAct(s, {}, s', i, Inserting(spec, cell, list, count));
    case Inserting(_, _, list, count) => QuietAct(s, {}, s', i, Task.Registering(list, count));
  }

  lemma ArrivalKeepsSlots(s: State, t: Task)
    requires SlotInv(s) && IsCaller(t)
    ensures SlotInv(After(s, Arrives(t)))
  {
    var cs := Claims(After(s, Arrives(t)));
    forall k | k in s.running
      ensures Held(cs, k)
    {
      var j :| 0 <= j < |s.tasks| && HoldsKey(Claims(s)[j], k);
      assert HoldsKey(cs[j], k);
    }
  }

  lemma MoveKeepsSlots(s: State, m: Move)
    requires SlotInv(s) && CanMove(s, m)
    ensures SlotInv(After(s, m))
  {
    match m
    case Arrives(t) => ArrivalKeepsSlots(s, t);
    case Acts(i, a) =>
      var t := s.tasks[i];
      if InCron(t) {
        CronKeepsSlots(s, i, a);
      } else if InTrigger(t) {
        TriggerKeepsSlots(s, i, a);
      } else if InRun(t) {
        RunKeepsSlots(s, i, a);
      } else if InStop(t) {
        StopKeepsSlots(s, i, a);
      } else if InReload(t) {
        ReloadKeepsSlots(s, i, a);
      } else {
        RegisterKeepsSlots(s, i, a);
      }
  }

  lemma {:induction false} SlotsAlways(from: State, moves: seq<Move>, s: State)
    requires SlotInv(from) && Leads(from, moves, s)
    ensures SlotInv(s)
    decreases |moves|
  {
    if moves != [] {
      MoveKeepsSlots(from, moves[0]);
      SlotsAlways(After(from, moves[0]), moves[1..], s);
    }
  }

  lemma ReachableSlots(s: State)
    requires Reachable(s)
    ensures SlotInv(s)
  {
    var moves :| Leads(Initial(s.offline), moves, s);
    SlotsAlways(Initial(s.offline), moves, s);
  }

  /******* What it means *******/

  predicate Holds(t: Task, k: JobKey) {
    HoldsKey(ClaimOf(t), k)
  }

  // `running` and the tasks that hold a slot correspond one to one.
  lemma RunningIsHeldOnce(s: State, k: JobKey)
    requires Reachable(s)
    ensures k in s.running <==> exists i :: 0 <= i < |s.tasks| && Holds(s.tasks[i], k)
    ensures forall i, j :: 0 <= i < |s.tasks| && 0 <= j < |s.tasks| && Holds(s.tasks[i], k) && Holds(s.tasks[j], k)
              ==> i == j
  {
    ReachableSlots(s);
    if k in s.running {
      assert Held(Claims(s), k);
      var i :| 0 <= i < |s.tasks| && HoldsKey(Claims(s)[i], k);
      assert Holds(s.tasks[i], k);
    }
    forall i | 0 <= i < |s.tasks| && Holds(s.tasks[i], k)
      ensures k in s.running
    {
      assert Claims(s)[i] == Slot(k, ClaimOf(s.tasks[i]).token);
    }
    forall i, j | 0 <= i < j < |s.tasks| && Holds(s.tasks[i], k)
      ensures !Holds(s.tasks[j], k)
    {
      assert Claims(s)[i].Slot? && Claims(s)[i].key == k;
      assert Claims(s)[j] == ClaimOf(s.tasks[j]);
    }
  }

  // So no two dispatches of one key are ever in flight together ...
  lemma OneDispatchPerKey(s: State, i: nat, j: nat)
    requires Reachable(s) && i < |s.tasks| && j < |s.tasks| && i != j
    requires s.tasks[i].Dispatching? && s.tasks[j].Dispatching?
    ensures s.tasks[i].w.key != s.tasks[j].w.key
  {
    RunningIsHeldOnce(s, s.tasks[i].w.key);
    assert Holds(s.tasks[i], s.tasks[i].w.key);
  }

  // ... the two `expect("just inserted")` calls always find the key ...
  lemma JustInserted(s: State, i: nat)
    requires Reachable(s) && i < |s.tasks| && s.tasks[i].Begun?
    ensures CanAct(s, i, Step)
  {
    RunningIsHeldOnce(s, s.tasks[i].w.key);
    assert Holds(s.tasks[i], s.tasks[i].w.key);
  }

  // ... and the map is empty exactly when nothing is in flight.
  lemma RunningIsEmptyWhenIdle(s: State)
    requires Reachable(s)
    ensures s.running == map[] <==> forall i :: 0 <= i < |s.tasks| ==> ClaimOf(s.tasks[i]).Nothing?
  {
    if s.running == map[] {
      forall i | 0 <= i < |s.tasks|
        ensures ClaimOf(s.tasks[i]).Nothing?
      {
        if ClaimOf(s.tasks[i]).Slot? {
          RunningIsHeldOnce(s, s.tasks[i].w.key);
          assert Holds(s.tasks[i], s.tasks[i].w.key);
        }
      }
    } else {
      var k :| k in s.running;
      RunningIsHeldOnce(s, k);
    }
  }
}

/** Where the signals of `/stop` and `/reload` go. */
module Signals {
  import opened Wrappers
  import opened Dsl
  import opened Executor
  import opened Steps
  import opened Slots

  // Signals name tokens that exist, under the key the token was created for, and a task
  // that has heard one was sent one.
  ghost predicate SignalsSound(s: State) {
    forall sig :: sig in s.signals ==> sig.token < |s.born| && s.born[sig.token] == sig.key
  }

  predicate Heard(t: Task) {
    t.Dispatching? && t.ear == Notified
  }

  ghost predicate HeardWasSent(s: State) {
    forall i :: 0 <= i < |s.tasks| && Heard(s.tasks[i]) ==> Signal(s.tasks[i].token, s.tasks[i].w.key) in s.signals
  }

  ghost predicate SignalInv(s: State) {
    SignalsSound(s) && HeardWasSent(s)
  }

  // Steps of task `i` that send nothing.
  lemma SilentStep(s: State, s': State, i: nat)
    requires SignalInv(s) && i < |s.tasks| <= |s'.tasks| && s'.signals == s.signals
    requires |s.born| <= |s'.born| && s'.born[..|s.born|] == s.born
    requires forall j :: 0 <= j < |s.tasks| && j != i ==> s'.tasks[j] == s.tasks[j]
    requires forall j :: |s.tasks| <= j < |s'.tasks| ==> !Heard(s'.tasks[j])
    requires Heard(s'.tasks[i]) ==> s'.tasks[i] == s.tasks[i]
    ensures SignalInv(s')
  {
    forall sig | sig in s'.signals
      ensures sig.token < |s'.born| && s'.born[sig.token] == sig.key
    {
      assert s'.born[..|s.born|][sig.token] == s'.born[sig.token];
    }
  }

  lemma CronKeepsSignals(s: State, i: nat, a: Input)
    requires SignalInv(s) && CanAct(s, i, a) && InCron(s.tasks[i])
    ensures SignalInv(ActCron(s, i, a))
  {
    SilentStep(s, ActCron(s, i, a), i);
  }

  lemma TriggerKeepsSignals(s: State, i: nat, a: Input)
    requires SignalInv(s) && CanAct(s, i, a) && InTrigger(s.tasks[i])
    ensures SignalInv(ActTrigger(s, i, a))
  {
    SilentStep(s, ActTrigger(s, i, a), i);
  }

  lemma RunKeepsSignals(s: State, i: nat, a: Input)
    requires SignalInv(s) && CanAct(s, i, a) && InRun(s.tasks[i])
    ensures SignalInv(ActRun(s, i, a))
  {
    SilentStep(s, ActRun(s, i, a), i);
  }

  lemma RegisterKeepsSignals(s: State, i: nat, a: Input)
    requires SignalInv(s) && CanAct(s, i, a) && InRegister(s.tasks[i])
    ensures SignalInv(ActRegister(s, i, a))
  {
    SilentStep(s, ActRegister(s, i, a), i);
  }

  // The token of a task that can be signalled is that of the slot it holds.
  lemma TokenIsCurrent(s: State, i: nat)
    requires SlotInv(s) && i < |s.tasks| && s.tasks[i].Dispatching?
    ensures s.tasks[i].w.key in s.running && s.running[s.tasks[i].w.key].cancel == s.tasks[i].token
  {
    assert Claims(s)[i] == Slot(s.tasks[i].w.key, Some(s.tasks[i].token));
  }

  // `notify_waiters` on the token of `k` reaches the holder of `k`, no other task.
  lemma NotifyReaches(s: State, i: nat, k: JobKey)
    requires SlotInv(s) && i < |s.tasks| && k in s.running
    ensures Notify(s.tasks[i], {s.running[k].cancel}) ==
      if s.tasks[i].Dispatching? && s.tasks[i].ear == Listening && s.tasks[i].w.key == k
      then s.tasks[i].(ear := Notified) else s.tasks[i]
  {
    if s.tasks[i].Dispatching? {
      TokenIsCurrent(s, i);
    }
  }

  lemma StopKeepsSignals(s: State, i: nat, a: Input)
    requires SignalInv(s) && SlotInv(s) && CanAct(s, i, a) && InStop(s.tasks[i])
    ensures SignalInv(ActStop(s, i, a))
  {
    var s' := ActStop(s, i, a);
    if s.tasks[i].Signalling? && s.tasks[i].key in s.running {
      var k := s.tasks[i].key;
      forall j | 0 <= j < |s'.tasks| && Heard(s'.tasks[j])
        ensures Signal(s'.tasks[j].token, s'.tasks[j].w.key) in s'.signals
      {
        NotifyReaches(s, j, k);
        if s.tasks[j].Dispatching? {
          TokenIsCurrent(s, j);
        }
      }
    } else {
      SilentStep(s, s', i);
    }
  }

  lemma ReloadKeepsSignals(s: State, i: nat, a: Input)
    requires SignalInv(s) && SlotInv(s) && CanAct(s, i, a) && InReload(s.tasks[i])
    ensures SignalInv(ActReload(s, i, a))
  {
    var s' := ActReload(s, i, a);
    if s.tasks[i].SignallingAll? {
      forall j | 0 <= j < |s'.tasks| && Heard(s'.tasks[j])
        ensures Signal(s'.tasks[j].token, s'.tasks[j].w.key) in s'.signals
      {
        if s.tasks[j].Dispatching? {
          TokenIsCurrent(s, j);
          assert Signal(s.tasks[j].token, s.tasks[j].w.key) in SignalsFor(s.running);
        }
      }
    } else {
      SilentStep(s, s', i);
    }
  }

  lemma MoveKeepsSignals(s: State, m: Move)
    requires SignalInv(s) && SlotInv(s) && CanMove(s, m)
    ensures SignalInv(After(s, m))
  {
    match m
    case Arrives(_) =>
    case Acts(i, a) =>
      var t := s.tasks[i];
      if InCron(t) {
        CronKeepsSignals(s, i, a);
      } else if InTrigger(t) {
        TriggerKeepsSignals(s, i, a);
      } else if InRun(t) {
        RunKeepsSignals(s, i, a);
      } else if InStop(t) {
        StopKeepsSignals(s, i, a);
      } else if InReload(t) {
        ReloadKeepsSignals(s, i, a);
      } else {
        RegisterKeepsSignals(s, i, a);
      }
  }

  lemma {:induction false} SignalsAlways(from: State, moves: seq<Move>, s: State)
    requires SignalInv(from) && SlotInv(from) && Leads(from, moves, s)
    ensures SignalInv(s)
    decreases |moves|
  {
    if moves != [] {
      MoveKeepsSlots(from, moves[0]);
      MoveKeepsSignals(from, moves[0]);
      SignalsAlways(After(from, moves[0]), moves[1..], s);
    }
  }

  lemma ReachableSignals(s: State)
    requires Reachable(s)
    ensures SignalInv(s)
  {
    var moves :| Leads(Initial(s.offline), moves, s);
    SignalsAlways(Initial(s.offline), moves, s);
  }

  /******* What it means *******/

  // `stop` answers whether the key holds a slot at that step, and signals the holder of that
  // slot and nobody else, provided the holder is waiting at that moment.
  lemma StopReachesTheHolder(s: State, i: nat, k: JobKey)
    requires Reachable(s) && i < |s.tasks| && s.tasks[i] == Signalling(k)
    ensures var s' := Act(s, i, Step);
      && s'.tasks[i] == Ended(Stopped(k in s.running))
      && forall j :: 0 <= j < |s.tasks| && j != i ==>
           s'.tasks[j] ==
           if Holds(s.tasks[j], k) && s.tasks[j].Dispatching? && s.tasks[j].ear == Listening
           then s.tasks[j].(ear := Notified) else s.tasks[j]
  {
    ReachableSlots(s);
    var s' := Act(s, i, Step);
    forall j | 0 <= j < |s.tasks| && j != i
      ensures s'.tasks[j] ==
        if Holds(s.tasks[j], k) && s.tasks[j].Dispatching? && s.tasks[j].ear == Listening
        then s.tasks[j].(ear := Notified) else s.tasks[j]
    {
      if k in s.running {
        NotifyReaches(s, j, k);
      } else if s.tasks[j].Dispatching? {
        TokenIsCurrent(s, j);
      }
    }
  }

  // `reload_from` signals every dispatch that is waiting at that moment.
  lemma ReloadReachesEveryHolder(s: State, i: nat, list: seq<JobSpec>)
    requires Reachable(s) && i < |s.tasks| && s.tasks[i] == SignallingAll(list)
    ensures var s' := Act(s, i, Step);
      forall j :: 0 <= j < |s.tasks| && j != i ==>
        s'.tasks[j] ==
        if s.tasks[j].Dispatching? && s.tasks[j].ear == Listening
        then s.tasks[j].(ear := Notified) else s.tasks[j]
  {
    ReachableSlots(s);
    forall j | 0 <= j < |s.tasks| && s.tasks[j].Dispatching?
      ensures s.tasks[j].token in set k | k in s.running :: s.running[k].cancel
    {
      TokenIsCurrent(s, j);
    }
  }

  // A dispatch ends by an abort only after a signal on its own token, sent under its own key.
  lemma AbortNeedsOwnSignal(s: State, i: nat, e: Event)
    requires Reachable(s) && CanAct(s, i, Happens(e)) && s.tasks[i].Dispatching? && IsAbort(e)
    ensures Signal(s.tasks[i].token, s.tasks[i].w.key) in s.signals
    ensures s.tasks[i].token < |s.born| && s.born[s.tasks[i].token] == s.tasks[i].w.key
  {
    ReachableSignals(s);
  }

  // What a move can do to the shared maps: slots are kept, dropped or taken with the next
  // token, and signals are sent on current tokens only.
  ghost predicate Footprint(s: State, s': State) {
    && |s.born| <= |s'.born| <= |s.born| + 1
    && (forall k :: k in s'.running ==>
          (k in s.running && s'.running[k] == s.running[k])
          || (s'.running[k].cancel == |s.born| && |s'.born| > |s.born|))
    && (forall sig :: sig in s'.signals ==>
          sig in s.signals || (sig.key in s.running && sig.token == s.running[sig.key].cancel))
  }

  lemma TakingFootprint(s: State, i: nat, a: Input)
    requires CanAct(s, i, a) && (InCron(s.tasks[i]) || InTrigger(s.tasks[i]))
    ensures Footprint(s, Act(s, i, a))
    ensures |Act(s, i, a).born| > |s.born| ==>
      var s' := Act(s, i, a);
      && s'.tasks[i].Begun? && ClaimOf(s.tasks[i]).Nothing? && s'.signals == s.signals
      && s'.tasks[i].w.key in s'.running && s'.running[s'.tasks[i].w.key].cancel == |s.born|
  {
  }

  lemma OtherFootprint(s: State, i: nat, a: Input)
    requires CanAct(s, i, a) && !InCron(s.tasks[i]) && !InTrigger(s.tasks[i])
    ensures Footprint(s, Act(s, i, a)) && Act(s, i, a).born == s.born
  {
    var t := s.tasks[i];
    if InRun(t) {
    } else if InStop(t) {
    } else if InReload(t) {
    } else {
      assert InRegister(t);
    }
  }

  lemma MoveFootprint(s: State, m: Move)
    requires CanMove(s, m)
    ensures Footprint(s, After(s, m))
  {
    match m
    case Arrives(_) =>
    case Acts(i, a) =>
      if InCron(s.tasks[i]) || InTrigger(s.tasks[i]) {
        TakingFootprint(s, i, a);
      } else {
        OtherFootprint(s, i, a);
      }
  }

  // Every slot is taken with a token that no task has and no signal was ever sent on.
  lemma TokensAreFresh(s: State, i: nat, a: Input)
    requires Reachable(s) && CanAct(s, i, a) && |Act(s, i, a).born| > |s.born|
    ensures var s', t := Act(s, i, a), |s.born|;
      && s'.tasks[i].Begun? && s'.tasks[i].w.key in s'.running && s'.running[s'.tasks[i].w.key].cancel == t
      && (forall sig :: sig in s'.signals ==> sig.token != t)
      && (forall j :: 0 <= j < |s.tasks| && ClaimOf(s.tasks[j]).Slot? ==> ClaimOf(s.tasks[j]).token != Some(t))
  {
    if InCron(s.tasks[i]) || InTrigger(s.tasks[i]) {
      TakingFootprint(s, i, a);
    } else {
      OtherFootprint(s, i, a);
    }
    ReachableSignals(s);
    OldTokens(s);
  }

  lemma OldTokens(s: State)
    requires Reachable(s)
    ensures forall j :: 0 <= j < |s.tasks| && ClaimOf(s.tasks[j]).Slot? ==> ClaimOf(s.tasks[j]).token != Some(|s.born|)
  {
    ReachableSlots(s);
    forall j | 0 <= j < |s.tasks| && ClaimOf(s.tasks[j]).Slot?
      ensures ClaimOf(s.tasks[j]).token != Some(|s.born|)
    {
      assert Claims(s)[j] == ClaimOf(s.tasks[j]);
    }
  }

  ghost predicate Dead(s: State, t: nat) {
    t < |s.born| && forall k :: k in s.running ==> s.running[k].cancel != t
  }

  lemma MoveKeepsDead(s: State, m: Move, t: nat)
    requires CanMove(s, m) && Dead(s, t)
    ensures Dead(After(s, m), t)
    ensures forall sig :: sig in After(s, m).signals && sig.token == t ==> sig in s.signals
  {
    MoveFootprint(s, m);
  }

  // Once the instance that held a token has given its slot back, no signal is sent on that
  // token again: a later instance of the key is signalled on its own.
  lemma {:induction false} DeadTokensStayDead(s: State, moves: seq<Move>, s': State, t: nat)
    requires Dead(s, t) && Leads(s, moves, s')
    ensures Dead(s', t)
    ensures forall sig :: sig in s'.signals && sig.token == t ==> sig in s.signals
    decreases |moves|
  {
    if moves != [] {
      MoveKeepsDead(s, moves[0], t);
      DeadTokensStayDead(After(s, moves[0]), moves[1..], s', t);
    }
  }

  lemma ReleaseKillsToken(s: State, i: nat)
    requires Reachable(s) && i < |s.tasks| && s.tasks[i].Releasing?
    ensures Dead(Act(s, i, Step), s.tasks[i].token)
  {
    ReachableSlots(s);
    assert Claims(s)[i] == ClaimOf(s.tasks[i]);
  }
}

/**
 What a `/stop` that answered true does to the run: only an abort taken in a retry delay or in
 the last attempt ends it. An abort during any earlier attempt is an ordinary error.
 */
module Stops {
  import opened Wrappers
  import opened Dsl
  import opened Executor
  import opened Steps
  import opened Slots
  import opened Signals
  import opened Registrations

  // The phase after the abort has been taken, and recorded if it came from an executor call.
  function AfterAbort(spec: JobSpec, p: Phase, message: string): Phase
    requires p.Attempting? || p.Delaying?
  {
    if p.Delaying? then Advance(spec, false, p, AbortDelay)
    else Advance(spec, false, Advance(spec, false, p, Result(Aborted(message))), Go)
  }

  // An abort ends the run exactly in a delay or in the last attempt. Any other leaves a RETRYING
  // row and the run in the delay before its next attempt.
  lemma AbortEndsTheRun(spec: JobSpec, p: Phase, message: string)
    requires p.Attempting? || p.Delaying?
    ensures AfterAbort(spec, p, message).Returned? <==> p.Delaying? || p.k >= MaxAttempts(spec)
    ensures p.Attempting? && p.k < MaxAttempts(spec) ==>
      && AfterAbort(spec, p, message) == Delaying(p.k)
      && RowFor(spec, p.k, Aborted(message)).status == Retrying
    ensures p.Attempting? && p.k >= MaxAttempts(spec) ==>
      && AfterAbort(spec, p, message) == Returned(Exhausted(spec, p.k, Some(message)))
      && RowFor(spec, p.k, Aborted(message)).status == Failed
    ensures p.Delaying? ==> AfterAbort(spec, p, message) == Returned(AbortedInDelay(p.k))
  {
  }

  /******* A run that goes on *******/

  // `s'` is `s` with the dispatch of task `i` moved on and its rows recorded.
  ghost predicate MovedOn(s: State, s': State, i: nat, p: Phase, more: seq<HistoryEntry>)
    requires i < |s.tasks| && s.tasks[i].Dispatching?
  {
    var t := s.tasks[i];
    && s' == s.(tasks := s.tasks[i := Dispatching(t.w, t.token, p, t.rows + more, Deaf)], log := s.log + more)
  }

  lemma OneEvent(s: State, i: nat, e: Event) returns (s': State)
    requires CanAct(s, i, Happens(e)) && s.tasks[i].Dispatching?
    ensures Leads(s, [Acts(i, Happens(e))], s')
    ensures var t := s.tasks[i]; MovedOn(s, s', i, Advance(t.w.spec, s.offline, t.phase, e), Recorded(t.w.spec, t.phase))
  {
    var m := Acts(i, Happens(e));
    s' := After(s, m);
    assert Leads(s, [], s);
    LeadsBy(s, [], s, m);
    assert [] + [m] == [m];
  }

  lemma MovedTwice(s: State, mid: State, s': State, i: nat, p: Phase, q: Phase, more: seq<HistoryEntry>, most: seq<HistoryEntry>)
    requires i < |s.tasks| && s.tasks[i].Dispatching? && MovedOn(s, mid, i, p, more)
    requires MovedOn(mid, s', i, q, most)
    ensures MovedOn(s, s', i, q, more + most)
  {
    var t := s.tasks[i];
    assert t.rows + more + most == t.rows + (more + most) && s.log + more + most == s.log + (more + most);
    assert s'.tasks == s.tasks[i := Dispatching(t.w, t.token, q, t.rows + (more + most), Deaf)];
  }

  // An executor call and the recording of its row.
  lemma OneCall(s: State, i: nat, r: ExecutorResult) returns (moves: seq<Move>, s': State)
    requires i < |s.tasks| && s.tasks[i].Dispatching? && s.tasks[i].phase.Attempting?
    requires r.Aborted? ==> s.tasks[i].ear == Notified
    ensures Leads(s, moves, s') && forall m :: m in moves ==> m.Acts? && m.i == i
    ensures var t := s.tasks[i];
      var spec, k := t.w.spec, t.phase.k;
      MovedOn(s, s', i, Advance(spec, s.offline, Recording(k, r), Go), [RowFor(spec, k, r)])
  {
    var t := s.tasks[i];
    var mid := OneEvent(s, i, Result(r));
    s' := OneEvent(mid, i, Go);
    LeadsOn(s, [Acts(i, Happens(Result(r)))], mid, [Acts(i, Happens(Go))], s');
    moves := [Acts(i, Happens(Result(r)))] + [Acts(i, Happens(Go))];
    MovedTwice(s, mid, s', i, Recording(t.phase.k, r), s'.tasks[i].phase, [], [RowFor(t.w.spec, t.phase.k, r)]);
    assert [] + [RowFor(t.w.spec, t.phase.k, r)] == [RowFor(t.w.spec, t.phase.k, r)];
  }

  // The aborted attempt, its row and the delay after it.
  lemma AbortedAttempt(s: State, i: nat, message: string) returns (moves: seq<Move>, s': State)
    requires i < |s.tasks| && s.tasks[i].Dispatching? && s.tasks[i].ear == Notified
    requires s.tasks[i].phase.Attempting? && s.tasks[i].phase.k < MaxAttempts(s.tasks[i].w.spec)
    ensures Leads(s, moves, s') && forall m :: m in moves ==> m.Acts? && m.i == i
    ensures var t := s.tasks[i]; MovedOn(s, s', i, Attempting(t.phase.k + 1), [RowFor(t.w.spec, t.phase.k, Aborted(message))])
  {
    var t := s.tasks[i];
    var aborted := [RowFor(t.w.spec, t.phase.k, Aborted(message))];
    var first, mid := OneCall(s, i, Aborted(message));
    s' := OneEvent(mid, i, DelayElapsed);
    LeadsOn(s, first, mid, [Acts(i, Happens(DelayElapsed))], s');
    moves := first + [Acts(i, Happens(DelayElapsed))];
    MovedTwice(s, mid, s', i, Delaying(t.phase.k), Attempting(t.phase.k + 1), aborted, []);
    assert aborted + [] == aborted;
  }

  // A run that hears a stop in any attempt but its last can be retried and succeed: the history
  // then shows a RETRYING row with the abort and a SUCCESS row.
  lemma AbortedRunMaySucceed(s: State, i: nat, message: string) returns (moves: seq<Move>, s': State)
    requires i < |s.tasks| && s.tasks[i].Dispatching? && s.tasks[i].ear == Notified
    requires s.tasks[i].phase.Attempting? && s.tasks[i].phase.k < MaxAttempts(s.tasks[i].w.spec)
    ensures Leads(s, moves, s') && forall m :: m in moves ==> m.Acts? && m.i == i
    ensures var t := s.tasks[i];
      var spec, k := t.w.spec, t.phase.k;
      MovedOn(s, s', i, Returned(DispatchOutcome(Success, k + 1, None)),
        [RowFor(spec, k, Aborted(message)), RowFor(spec, k + 1, DONE)])
  {
    var t := s.tasks[i];
    var k, outcome := t.phase.k, DispatchOutcome(Success, t.phase.k + 1, None);
    var aborted, done := [RowFor(t.w.spec, k, Aborted(message))], [RowFor(t.w.spec, k + 1, DONE)];
    var first, mid := AbortedAttempt(s, i, message);
    var second;
    second, s' := OneCall(mid, i, DONE);
    LeadsOn(s, first, mid, second, s');
    moves := first + second;
    MovedTwice(s, mid, s', i, Attempting(k + 1), Returned(outcome), aborted, done);
    assert aborted + done == [RowFor(t.w.spec, k, Aborted(message)), RowFor(t.w.spec, k + 1, DONE)];
  }

  lemma StopIsHeard(s: State, j: nat, i: nat) returns (s': State)
    requires Reachable(s) && j < |s.tasks| && i < |s.tasks| && s.tasks[i].Dispatching?
    requires s.tasks[j] == Signalling(s.tasks[i].w.key) && s.tasks[i].ear == Listening
    ensures Leads(s, [Acts(j, Step)], s') && |s'.tasks| == |s.tasks| && s'.log == s.log && i != j
    ensures s'.tasks[i] == s.tasks[i].(ear := Notified) && s'.tasks[j] == Ended(Stopped(true))
  {
    var key := s.tasks[i].w.key;
    s' := After(s, Acts(j, Step));
    StopReachesTheHolder(s, j, key);
    RunningIsHeldOnce(s, key);
    assert Holds(s.tasks[i], key);
    assert Leads(s, [], s);
    LeadsBy(s, [], s, Acts(j, Step));
    assert [] + [Acts(j, Step)] == [Acts(j, Step)];
  }

  // So does a run whose `/stop` answered true, in every reachable state in which the attempt is
  // waiting and is not the last.
  lemma StopMayBeSurvived(s: State, j: nat, i: nat, message: string) returns (moves: seq<Move>, s': State)
    requires Reachable(s) && j < |s.tasks| && i < |s.tasks| && s.tasks[i].Dispatching?
    requires s.tasks[j] == Signalling(s.tasks[i].w.key) && s.tasks[i].ear == Listening
    requires s.tasks[i].phase.Attempting? && s.tasks[i].phase.k < MaxAttempts(s.tasks[i].w.spec)
    ensures Leads(s, moves, s') && |s'.tasks| == |s.tasks| && s'.tasks[j] == Ended(Stopped(true))
    ensures var k := s.tasks[i].phase.k;
      && s'.tasks[i].Dispatching? && s'.tasks[i].phase == Returned(DispatchOutcome(Success, k + 1, None))
      && s'.log == s.log + [RowFor(s.tasks[i].w.spec, k, Aborted(message)), RowFor(s.tasks[i].w.spec, k + 1, DONE)]
  {
    var mid := StopIsHeard(s, j, i);
    var rest;
    rest, s' := AbortedRunMaySucceed(mid, i, message);
    LeadsOn(s, [Acts(j, Step)], mid, rest, s');
    moves := [Acts(j, Step)] + rest;
  }
}

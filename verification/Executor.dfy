/**
 The retry loop of src/executor/mod.rs.

 `Advance` is the loop cut at its await points; the interleaving model steps it one event
 at a time. `ExecutorBundle.Dispatch` is the loop itself. Both are proved to leave behind
 a `CompleteRun`: the shape that the history rows of one dispatch must have, and the way
 its outcome must follow from them.
 */
module Executor {
  import opened Wrappers
  import opened Dsl

  datatype Status = Success | Failed | Retrying | Skipped | Timeout | Offline {
    function AsStr(): string {
      match this
      case Success => "SUCCESS"
      case Failed => "FAILED"
      case Retrying => "RETRYING"
      case Skipped => "SKIPPED"
      case Timeout => "TIMEOUT"
      case Offline => "OFFLINE"
    }
  }

  // One row handed to `HistoryRecorder::record`, without its clock readings.
  datatype HistoryEntry = HistoryEntry(
    key: JobKey, jobType: string, status: Status,
    httpMethod: Option<string>, httpUrl: Option<string>, httpStatusCode: Option<int>,
    attemptNumber: int, maxAttempts: int,
    responseBody: Option<string>, errorMessage: Option<string>)

  datatype DispatchOutcome = DispatchOutcome(status: Status, attempts: nat, lastError: Option<string>)

  // What one executor call may come back with. `Aborted` is the error both executors
  // return when the cancel signal reaches them during the call.
  datatype ExecutorResult =
    | Completed(body: string, code: int)
    | UpstreamHttpError(code: int, message: string)
    | ShellTimeout(message: string)
    | Aborted(message: string)
    | OtherError(message: string)

  // A call that succeeds.
  const DONE := Completed("", 200)

  datatype DispatchResult = DispatchResult(
    ok: bool, responseBody: Option<string>, httpStatusCode: Option<int>,
    errorMessage: Option<string>, isShellTimeout: bool)

  // The four `HttpDispatchResult::from_*` constructors: only a shell job can time out in
  // the sense that ends the retries.
  function Digest(kind: JobKind, r: ExecutorResult): DispatchResult {
    match r
    case Completed(body, code) =>
      DispatchResult(true, Some(body), if kind.Http? then Some(code) else None, None, false)
    case UpstreamHttpError(code, message) =>
      DispatchResult(false, None, if kind.Http? then Some(code) else None, Some(message), false)
    case ShellTimeout(message) =>
      DispatchResult(false, None, None, Some(message), kind.Exec?)
    case Aborted(message) =>
      DispatchResult(false, None, None, Some(message), false)
    case OtherError(message) =>
      DispatchResult(false, None, None, Some(message), false)
  }

  // `spec.retry.count + 1` in u32: wraps in a release build.
  function MaxAttempts(spec: JobSpec): u32 {
    if spec.retry.count == U32_MAX then 0 else spec.retry.count + 1
  }

  // The `as i32` cast of a u32.
  function AsI32(n: nat): int {
    if n < 0x8000_0000 then n else n - 0x1_0000_0000
  }

  function MethodOf(kind: JobKind): Option<string> {
    if kind.Http? then Some(kind.httpMethod) else None
  }

  function UrlOf(kind: JobKind): Option<string> {
    if kind.Http? then Some(kind.url) else None
  }

  // The row recorded for executor call `k`.
  function RowFor(spec: JobSpec, k: nat, r: ExecutorResult): HistoryEntry {
    var d := Digest(spec.kind, r);
    var status :=
      if d.ok then Success
      else if d.isShellTimeout then Timeout
      else if k < MaxAttempts(spec) then Retrying
      else Failed;
    HistoryEntry(
      spec.key, spec.kind.TypeLabel(), status, MethodOf(spec.kind), UrlOf(spec.kind), d.httpStatusCode,
      AsI32(k), AsI32(MaxAttempts(spec)), if d.ok then d.responseBody else None, d.errorMessage)
  }

  function OfflineRow(spec: JobSpec): HistoryEntry {
    HistoryEntry(
      spec.key, spec.kind.TypeLabel(), Offline, MethodOf(spec.kind), UrlOf(spec.kind), None,
      1, 1, None, Some("CRONMANAGER_OFFLINE=true"))
  }

  const OFFLINE_OUTCOME := DispatchOutcome(Offline, 1, None)

  // All attempts used up: `ignoreFailures` turns the outcome, not the rows, into SKIPPED.
  function Exhausted(spec: JobSpec, attempts: nat, lastError: Option<string>): DispatchOutcome {
    DispatchOutcome(if spec.retry.ignoreFailures then Skipped else Failed, attempts, lastError)
  }

  function AbortedInDelay(attempts: nat): DispatchOutcome {
    DispatchOutcome(Failed, attempts, Some("aborted by /stop"))
  }

  /******* The shape of one run *******/

  // Row `i` of a run of `spec`, whatever its status.
  ghost predicate Numbered(spec: JobSpec, row: HistoryEntry, i: nat) {
    && i < MaxAttempts(spec)
    && row.key == spec.key
    && row.jobType == spec.kind.TypeLabel()
    && row.attemptNumber == AsI32(i + 1)
    && row.maxAttempts == AsI32(MaxAttempts(spec))
    && row.httpMethod == MethodOf(spec.kind) && row.httpUrl == UrlOf(spec.kind)
    && (row.responseBody.Some? <==> row.status == Success)
    && (row.errorMessage.None? <==> row.status == Success)
    && (spec.kind.Exec? ==> row.httpStatusCode == None)
    && (spec.kind.Http? && row.status == Success ==> row.httpStatusCode.Some?)
  }

  // Rows of a run whose attempts have all failed so far and may still be retried.
  ghost predicate AllRetrying(spec: JobSpec, rows: seq<HistoryEntry>) {
    && |rows| < MaxAttempts(spec)
    && (rows == [] ||
        var n := |rows| - 1;
        Numbered(spec, rows[n], n) && rows[n].status == Retrying && AllRetrying(spec, rows[..n]))
  }

  lemma {:induction false} AllRetryingAt(spec: JobSpec, rows: seq<HistoryEntry>, i: nat)
    requires AllRetrying(spec, rows) && i < |rows|
    ensures Numbered(spec, rows[i], i) && rows[i].status == Retrying
  {
    if i < |rows| - 1 {
      AllRetryingAt(spec, rows[..|rows| - 1], i);
    }
  }

  // How the outcome follows from the last of n rows.
  ghost predicate EndsAs(spec: JobSpec, n: nat, last: HistoryEntry, outcome: DispatchOutcome) {
    match last.status
    case Success => outcome == DispatchOutcome(Success, n, None)
    case Timeout => spec.kind.Exec? && outcome == DispatchOutcome(Timeout, n, last.errorMessage)
    case Failed => n == MaxAttempts(spec) && outcome == Exhausted(spec, n, last.errorMessage)
    case Retrying => n < MaxAttempts(spec) && outcome == AbortedInDelay(n)
    case _ => false
  }

  // The rows of a dispatch that has returned `outcome`: OFFLINE alone, or RETRYING*
  // followed by SUCCESS, TIMEOUT or FAILED, or RETRYING+ cut by an abort in the delay. The
  // empty run is the one whose attempt count wrapped to zero.
  ghost predicate CompleteRun(spec: JobSpec, offline: bool, rows: seq<HistoryEntry>, outcome: DispatchOutcome) {
    if offline then
      rows == [OfflineRow(spec)] && outcome == OFFLINE_OUTCOME
    else if rows == [] then
      spec.retry.count == U32_MAX && outcome == Exhausted(spec, 0, None)
    else
      var n := |rows|;
      var last := rows[n - 1];
      && AllRetrying(spec, rows[..n - 1])
      && Numbered(spec, last, n - 1)
      && EndsAs(spec, n, last, outcome)
  }

  /******* The loop, one await point at a time *******/

  datatype Phase =
    | Entered
    | RecordingOffline
    | Attempting(k: nat)
    | Recording(k: nat, result: ExecutorResult)
    | Delaying(k: nat)
    | Returned(outcome: DispatchOutcome)

  datatype Event = Go | Result(result: ExecutorResult) | DelayElapsed | AbortDelay

  predicate CanAdvance(p: Phase, e: Event) {
    match p
    case Entered => e.Go?
    case RecordingOffline => e.Go?
    case Attempting(_) => e.Result?
    case Recording(_, _) => e.Go?
    case Delaying(_) => e.DelayElapsed? || e.AbortDelay?
    case Returned(_) => false
  }

  // The rows that the step records.
  function Recorded(spec: JobSpec, p: Phase): seq<HistoryEntry> {
    match p
    case RecordingOffline => [OfflineRow(spec)]
    case Recording(k, r) => [RowFor(spec, k, r)]
    case _ => []
  }

  function Advance(spec: JobSpec, offline: bool, p: Phase, e: Event): Phase
    requires CanAdvance(p, e)
  {
    match p
    case Entered =>
      if offline then RecordingOffline
      else if MaxAttempts(spec) == 0 then Returned(Exhausted(spec, 0, None))
      else Attempting(1)
    case RecordingOffline => Returned(OFFLINE_OUTCOME)
    case Attempting(k) => Recording(k, e.result)
    case Recording(k, r) =>
      var d := Digest(spec.kind, r);
      if d.ok then Returned(DispatchOutcome(Success, k, None))
      else if d.isShellTimeout then Returned(DispatchOutcome(Timeout, k, d.errorMessage))
      else if k < MaxAttempts(spec) then Delaying(k)
      else Returned(Exhausted(spec, k, d.errorMessage))
    case Delaying(k) =>
      if e.AbortDelay? then Returned(AbortedInDelay(k)) else Attempting(k + 1)
  }

  // What holds of a dispatch in phase `p` that has recorded `rows`.
  ghost predicate PhaseInv(spec: JobSpec, offline: bool, p: Phase, rows: seq<HistoryEntry>) {
    match p
    case Entered => rows == []
    case RecordingOffline => offline && rows == []
    case Attempting(k) => !offline && AllRetrying(spec, rows) && |rows| == k - 1
    case Recording(k, _) => !offline && AllRetrying(spec, rows) && |rows| == k - 1
    case Delaying(k) => !offline && AllRetrying(spec, rows) && |rows| == k >= 1
    case Returned(outcome) => CompleteRun(spec, offline, rows, outcome)
  }

  lemma AdvanceKeepsPhaseInv(spec: JobSpec, offline: bool, p: Phase, rows: seq<HistoryEntry>, e: Event)
    requires CanAdvance(p, e) && PhaseInv(spec, offline, p, rows)
    ensures PhaseInv(spec, offline, Advance(spec, offline, p, e), rows + Recorded(spec, p))
  {
    match p
    case RecordingOffline =>
    case Recording(k, r) =>
      var all := rows + Recorded(spec, p);
      assert all[..|all| - 1] == rows;
      assert Numbered(spec, RowFor(spec, k, r), k - 1);
    case Delaying(k) =>
      assert rows + [] == rows;
    case Entered =>
      assert rows + [] == rows;
    case Attempting(_) =>
      assert rows + [] == rows;
    case Returned(_) =>
  }

  // The phase reached and the rows recorded by a dispatch that saw `events`; None if some
  // event could not happen when it did.
  function Play(spec: JobSpec, offline: bool, events: seq<Event>): Option<(Phase, seq<HistoryEntry>)> {
    if events == [] then Some((Entered, []))
    else
      var n := |events| - 1;
      match Play(spec, offline, events[..n])
      case None => None
      case Some((p, rows)) =>
        if CanAdvance(p, events[n])
        then Some((Advance(spec, offline, p, events[n]), rows + Recorded(spec, p)))
        else None
  }

  lemma {:induction false} PlayKeepsPhaseInv(spec: JobSpec, offline: bool, events: seq<Event>)
    ensures var r := Play(spec, offline, events); r.Some? ==> PhaseInv(spec, offline, r.value.0, r.value.1)
  {
    if events != [] {
      var n := |events| - 1;
      PlayKeepsPhaseInv(spec, offline, events[..n]);
      var r := Play(spec, offline, events[..n]);
      if r.Some? && CanAdvance(r.value.0, events[n]) {
        AdvanceKeepsPhaseInv(spec, offline, r.value.0, r.value.1, events[n]);
      }
    }
  }

  lemma PlayMore(spec: JobSpec, offline: bool, events: seq<Event>, e: Event)
    requires Play(spec, offline, events).Some? && CanAdvance(Play(spec, offline, events).value.0, e)
    ensures var r := Play(spec, offline, events).value;
      Play(spec, offline, events + [e]) ==
      Some((Advance(spec, offline, r.0, e), if Recorded(spec, r.0) == [] then r.1 else r.1 + Recorded(spec, r.0)))
  {
    assert (events + [e])[..|events|] == events;
    var rows := Play(spec, offline, events).value.1;
    assert rows + [] == rows;
  }

  // An executor result that would be recorded as `row`.
  function ResultOf(row: HistoryEntry): ExecutorResult
    requires row.responseBody.Some? <==> row.status == Success
    requires row.errorMessage.None? <==> row.status == Success
  {
    if row.status == Success then
      Completed(row.responseBody.value, if row.httpStatusCode.Some? then row.httpStatusCode.value else 0)
    else if row.status == Timeout then ShellTimeout(row.errorMessage.value)
    else if row.httpStatusCode.Some? then UpstreamHttpError(row.httpStatusCode.value, row.errorMessage.value)
    else OtherError(row.errorMessage.value)
  }

  // One executor call, recorded as `row`.
  lemma AttemptHappens(spec: JobSpec, events: seq<Event>, rows: seq<HistoryEntry>, row: HistoryEntry)
    returns (more: seq<Event>)
    requires Play(spec, false, events) == Some((Attempting(|rows| + 1), rows))
    requires Numbered(spec, row, |rows|)
    requires row.status == Success || (row.status == Timeout && spec.kind.Exec?)
          || row.status == (if |rows| + 1 < MaxAttempts(spec) then Retrying else Failed)
    ensures row.status == Retrying ==> Play(spec, false, more) == Some((Delaying(|rows| + 1), rows + [row]))
    ensures row.status != Retrying ==>
      forall outcome :: EndsAs(spec, |rows| + 1, row, outcome) ==>
        Play(spec, false, more) == Some((Returned(outcome), rows + [row]))
  {
    var r := ResultOf(row);
    assert RowFor(spec, |rows| + 1, r) == row;
    PlayMore(spec, false, events, Result(r));
    PlayMore(spec, false, events + [Result(r)], Go);
    more := events + [Result(r)] + [Go];
  }

  lemma AfterDelay(spec: JobSpec, events: seq<Event>, rows: seq<HistoryEntry>, k: nat, e: Event)
    requires Play(spec, false, events) == Some((Delaying(k), rows))
    requires e.DelayElapsed? || e.AbortDelay?
    ensures Play(spec, false, events + [e]) ==
      Some((if e.AbortDelay? then Returned(AbortedInDelay(k)) else Attempting(k + 1), rows))
  {
    PlayMore(spec, false, events, e);
  }

  // A dispatch can fail and be retried as often as the policy allows.
  lemma {:induction false} RetryingHappens(spec: JobSpec, rows: seq<HistoryEntry>) returns (events: seq<Event>)
    requires AllRetrying(spec, rows)
    ensures Play(spec, false, events) == Some((Attempting(|rows| + 1), rows))
  {
    if rows == [] {
      PlayMore(spec, false, [], Go);
      events := [] + [Go];
    } else {
      var n := |rows| - 1;
      events := RetryingHappens(spec, rows[..n]);
      events := AttemptHappens(spec, events, rows[..n], rows[n]);
      assert rows[..n] + [rows[n]] == rows;
      AfterDelay(spec, events, rows, n + 1, DelayElapsed);
      events := events + [DelayElapsed];
    }
  }

  lemma CompleteRunHappens(spec: JobSpec, offline: bool, rows: seq<HistoryEntry>, outcome: DispatchOutcome)
    returns (events: seq<Event>)
    requires CompleteRun(spec, offline, rows, outcome)
    ensures Play(spec, offline, events) == Some((Returned(outcome), rows))
  {
    if offline || rows == [] {
      PlayMore(spec, offline, [], Go);
      events := [] + [Go];
      if offline {
        PlayMore(spec, offline, events, Go);
        assert [] + [OfflineRow(spec)] == rows;
        events := events + [Go];
      }
    } else {
      var n := |rows| - 1;
      events := RetryingHappens(spec, rows[..n]);
      events := AttemptHappens(spec, events, rows[..n], rows[n]);
      assert rows[..n] + [rows[n]] == rows;
      if rows[n].status == Retrying {
        AfterDelay(spec, events, rows, n + 1, AbortDelay);
        events := events + [AbortDelay];
      }
    }
  }

  // The shape is exact: it holds of the rows and outcome of every dispatch that returns,
  // and every run of that shape is left behind by some dispatch.
  lemma CompleteRunIsExact(spec: JobSpec, offline: bool, rows: seq<HistoryEntry>, outcome: DispatchOutcome)
    ensures CompleteRun(spec, offline, rows, outcome)
       <==> exists events :: Play(spec, offline, events) == Some((Returned(outcome), rows))
  {
    if CompleteRun(spec, offline, rows, outcome) {
      var events := CompleteRunHappens(spec, offline, rows, outcome);
    }
    forall events | Play(spec, offline, events) == Some((Returned(outcome), rows))
      ensures CompleteRun(spec, offline, rows, outcome)
    {
      PlayKeepsPhaseInv(spec, offline, events);
    }
  }

  /******* What a caller reads off a finished run *******/

  // Between one row and `count + 1` rows, and as many as the outcome reports, unless the
  // attempt count wrapped: then there is none at all.
  lemma RowsOfARun(spec: JobSpec, rows: seq<HistoryEntry>, outcome: DispatchOutcome)
    requires CompleteRun(spec, false, rows, outcome)
    ensures outcome.attempts == |rows| <= spec.retry.count + 1
    ensures |rows| >= 1 <==> spec.retry.count != U32_MAX
  {
    if rows != [] {
      assert Numbered(spec, rows[|rows| - 1], |rows| - 1);
    }
  }

  // The numbers in the rows are 1, 2, ... out of `count + 1` exactly when `count + 1`
  // survives the two casts.
  lemma RowNumbers(spec: JobSpec, rows: seq<HistoryEntry>, outcome: DispatchOutcome)
    requires CompleteRun(spec, false, rows, outcome) && rows != []
    ensures (forall i :: 0 <= i < |rows| ==>
               rows[i].attemptNumber == i + 1 && rows[i].maxAttempts == spec.retry.count + 1)
       <==> spec.retry.count + 1 < 0x8000_0000
  {
    var n := |rows|;
    forall i | 0 <= i < n
      ensures Numbered(spec, rows[i], i)
    {
      if i < n - 1 {
        AllRetryingAt(spec, rows[..n - 1], i);
      }
    }
    assert rows[0].maxAttempts == AsI32(MaxAttempts(spec));
  }

  // The outcome status is a function of the last row and of `ignoreFailures`.
  function StatusFrom(last: HistoryEntry, ignoreFailures: bool): Status {
    match last.status
    case Retrying => Failed
    case Failed => if ignoreFailures then Skipped else Failed
    case s => s
  }

  lemma OutcomeFollowsLastRow(spec: JobSpec, offline: bool, rows: seq<HistoryEntry>, outcome: DispatchOutcome)
    requires CompleteRun(spec, offline, rows, outcome) && rows != []
    ensures outcome.status == StatusFrom(rows[|rows| - 1], spec.retry.ignoreFailures)
    ensures forall i :: 0 <= i < |rows| ==> rows[i].status != Skipped
    ensures forall i :: 0 <= i < |rows| - 1 ==> rows[i].status == Retrying
  {
    var n := |rows|;
    if !offline {
      forall i | 0 <= i < n - 1
        ensures rows[i].status == Retrying
      {
        AllRetryingAt(spec, rows[..n - 1], i);
      }
    }
  }

  /******* The loop itself *******/

  // The rows of executor calls 1 to n, when call `k` comes back with `attempt(k)`.
  function Trace(spec: JobSpec, attempt: nat -> ExecutorResult, n: nat): (rows: seq<HistoryEntry>)
    ensures |rows| == n
  {
    if n == 0 then [] else Trace(spec, attempt, n - 1) + [RowFor(spec, n, attempt(n))]
  }

  // Attempt `k` is the last: it succeeded, timed out, used up the count, or was followed by
  // an abort in the delay.
  predicate Stops(spec: JobSpec, attempt: nat -> ExecutorResult, abortInDelay: nat -> bool, k: nat) {
    var d := Digest(spec.kind, attempt(k));
    d.ok || d.isShellTimeout || k == MaxAttempts(spec) || abortInDelay(k)
  }

  // One executor call whose row follows `rows`: what its digest leads to.
  lemma AttemptSettles(spec: JobSpec, rows: seq<HistoryEntry>, k: nat, r: ExecutorResult)
    requires k >= 1 && AllRetrying(spec, rows) && |rows| == k - 1
    ensures var d, more := Digest(spec.kind, r), rows + [RowFor(spec, k, r)];
      if d.ok then CompleteRun(spec, false, more, DispatchOutcome(Success, k, None))
      else if d.isShellTimeout then CompleteRun(spec, false, more, DispatchOutcome(Timeout, k, d.errorMessage))
      else if k < MaxAttempts(spec) then
        AllRetrying(spec, more) && CompleteRun(spec, false, more, AbortedInDelay(k))
      else CompleteRun(spec, false, more, Exhausted(spec, k, d.errorMessage))
  {
    RowIsNumbered(spec, k, r);
    LastRow(spec, rows, RowFor(spec, k, r));
  }

  lemma RowIsNumbered(spec: JobSpec, k: nat, r: ExecutorResult)
    requires 1 <= k <= MaxAttempts(spec)
    ensures var row, d := RowFor(spec, k, r), Digest(spec.kind, r);
      && Numbered(spec, row, k - 1)
      && row.status == (if d.ok then Success else if d.isShellTimeout then Timeout
                        else if k < MaxAttempts(spec) then Retrying else Failed)
      && (d.isShellTimeout ==> spec.kind.Exec?)
      && row.errorMessage == d.errorMessage
  {
  }

  // A run goes on after `rows` with a row that may be retried, or is complete with it.
  lemma LastRow(spec: JobSpec, rows: seq<HistoryEntry>, row: HistoryEntry)
    requires AllRetrying(spec, rows) && Numbered(spec, row, |rows|)
    ensures row.status == Retrying && |rows| + 1 < MaxAttempts(spec) ==> AllRetrying(spec, rows + [row])
    ensures forall outcome :: EndsAs(spec, |rows| + 1, row, outcome) ==> CompleteRun(spec, false, rows + [row], outcome)
  {
    var all := rows + [row];
    assert all[..|all| - 1] == rows && all[|all| - 1] == row;
  }

  // How a dispatch whose last executor call is `n` ends.
  function Settled(spec: JobSpec, attempt: nat -> ExecutorResult, n: nat): DispatchOutcome {
    if n == 0 then Exhausted(spec, 0, None)
    else
      var d := Digest(spec.kind, attempt(n));
      if d.ok then DispatchOutcome(Success, n, None)
      else if d.isShellTimeout then DispatchOutcome(Timeout, n, d.errorMessage)
      else if n < MaxAttempts(spec) then AbortedInDelay(n)
      else Exhausted(spec, n, d.errorMessage)
  }

  // Call `n` is the first that stops the loop.
  ghost predicate FirstStop(spec: JobSpec, attempt: nat -> ExecutorResult, abortInDelay: nat -> bool, n: nat) {
    && n <= MaxAttempts(spec)
    && (forall k :: 1 <= k < n ==> !Stops(spec, attempt, abortInDelay, k))
    && (if n == 0 then MaxAttempts(spec) == 0 else Stops(spec, attempt, abortInDelay, n))
  }

  lemma {:induction false} UnstoppedIsRetrying(
    spec: JobSpec, attempt: nat -> ExecutorResult, abortInDelay: nat -> bool, n: nat)
    requires n < MaxAttempts(spec)
    requires forall k :: 1 <= k <= n ==> !Stops(spec, attempt, abortInDelay, k)
    ensures AllRetrying(spec, Trace(spec, attempt, n))
  {
    if n > 0 {
      UnstoppedIsRetrying(spec, attempt, abortInDelay, n - 1);
      assert n < MaxAttempts(spec) ==> !Stops(spec, attempt, abortInDelay, n);
      AttemptSettles(spec, Trace(spec, attempt, n - 1), n, attempt(n));
    }
  }

  // What `Dispatch` writes and returns is a complete run, whatever the executors answer and
  // whenever the aborts come.
  lemma DispatchIsComplete(
    spec: JobSpec, attempt: nat -> ExecutorResult, abortInDelay: nat -> bool, n: nat)
    requires FirstStop(spec, attempt, abortInDelay, n)
    ensures CompleteRun(spec, false, Trace(spec, attempt, n), Settled(spec, attempt, n))
  {
    if n > 0 {
      UnstoppedIsRetrying(spec, attempt, abortInDelay, n - 1);
      AttemptSettles(spec, Trace(spec, attempt, n - 1), n, attempt(n));
    }
  }

  class ExecutorBundle {
    const offlineMode: bool
    var history: seq<HistoryEntry>

    constructor (offlineMode: bool)
      ensures this.offlineMode == offlineMode && history == []
    {
      this.offlineMode := offlineMode;
      history := [];
    }

    // `attempt(k)` is what executor call `k` comes back with and `abortInDelay(k)` whether
    // the cancel signal wins the race against the delay after it.
    method Dispatch(spec: JobSpec, attempt: nat -> ExecutorResult, abortInDelay: nat -> bool)
      returns (outcome: DispatchOutcome)
      modifies this
      ensures offlineMode ==> history == old(history) + [OfflineRow(spec)] && outcome == OFFLINE_OUTCOME
      ensures !offlineMode ==>
        var n := outcome.attempts;
        && FirstStop(spec, attempt, abortInDelay, n)
        && history == old(history) + Trace(spec, attempt, n)
        && outcome == Settled(spec, attempt, n)
    {
      if offlineMode {
        outcome := OfflineStub(spec);
        return;
      }
      var maxAttempts: nat := MaxAttempts(spec);
      var lastError := None;
      var k := 1;
      while k <= maxAttempts
        invariant 1 <= k <= maxAttempts + 1
        invariant history == old(history) + Trace(spec, attempt, k - 1)
        invariant forall j :: 1 <= j < k && j < maxAttempts ==> !Stops(spec, attempt, abortInDelay, j)
        invariant k == maxAttempts + 1 ==>
          && Exhausted(spec, maxAttempts, lastError) == Settled(spec, attempt, maxAttempts)
          && FirstStop(spec, attempt, abortInDelay, maxAttempts)
        decreases maxAttempts + 1 - k
      {
        var result := attempt(k);
        history := history + [RowFor(spec, k, result)];
        var d := Digest(spec.kind, result);
        if d.ok {
          return DispatchOutcome(Success, k, None);
        }
        lastError := d.errorMessage;
        if d.isShellTimeout {
          return DispatchOutcome(Timeout, k, lastError);
        }
        if k < maxAttempts {
          if abortInDelay(k) {
            return AbortedInDelay(k);
          }
        }
        k := k + 1;
      }
      outcome := Exhausted(spec, maxAttempts, lastError);
    }

    method OfflineStub(spec: JobSpec) returns (outcome: DispatchOutcome)
      modifies this
      ensures history == old(history) + [OfflineRow(spec)]
      ensures outcome == OFFLINE_OUTCOME
    {
      history := history + [OfflineRow(spec)];
      outcome := OFFLINE_OUTCOME;
    }
  }
}

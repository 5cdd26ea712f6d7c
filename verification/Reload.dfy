/** `POST /reload` (src/router.rs): throttle, then load, then swap the registry. */
module Reload {
  import opened Wrappers
  import opened Dsl
  import opened Loader
  import opened Walk
  import opened Registrations
  import opened SchedulerObject
  import opened ReloadGate

  datatype ReloadError = TooManyRequests(wait: nat) | TimedOut | LoadFailed(error: WalkError)

  function SpecsIn(jobs: seq<LoadedJob>): seq<JobSpec> {
    seq(|jobs|, i requires 0 <= i < |jobs| => jobs[i].spec)
  }

  // The jobs of a tree that loads.
  ghost function TreeSpecs(root: Option<Node>, s: Setting): seq<JobSpec> {
    if root.None? then [] else SpecsIn(LoadedFrom(DirEvents([], root.value), s))
  }

  ghost predicate TreeLoads(root: Option<Node>, s: Setting) {
    root.None? || MeetAll(DirEvents([], root.value), Progress([], 0, 0), s).result.Ok?
  }

  // `timedOut`: the wall clock of the load ran out. A throttled or failed reload leaves the
  // scheduler alone; a failed one counts as an admission all the same.
  method ReloadJobs(
    gate: ReloadGate, scheduler: Scheduler, group: string, interval: u64, now: int,
    root: Option<Node>, s: Setting, timedOut: bool) returns (r: Result<nat, ReloadError>)
    requires gate.Valid(interval) && gate.clock <= now
    modifies gate, scheduler
    ensures gate.Valid(interval) && gate.clock == now
    ensures r.Err? ==> scheduler.View() == old(scheduler.View())
    ensures r.Err? && r.error.TooManyRequests? <==>
      interval > 0 && group in old(gate.last) && ElapsedSecs(old(gate.last)[group], now) < interval
    ensures r.Err? && r.error.TooManyRequests? ==> gate.last == old(gate.last)
    ensures r.Err? && !r.error.TooManyRequests? ==> timedOut || !TreeLoads(root, s)
    ensures (r.Ok? || !r.error.TooManyRequests?) && interval > 0 ==> group in gate.last && gate.last[group] == now
    ensures r.Ok? ==>
      && !timedOut && TreeLoads(root, s) && r.value == |TreeSpecs(root, s)|
      && SpecsOf(scheduler.jobs) == FoldJobs(map[], TreeSpecs(root, s))
      && scheduler.running == old(scheduler.running)
  {
    var admitted := gate.Admit(group, interval, now);
    if admitted.Err? {
      return Err(TooManyRequests(admitted.error));
    }
    var loaded := LoadAll(root, s);
    if timedOut {
      return Err(TimedOut);
    }
    if loaded.Err? {
      return Err(LoadFailed(loaded.error));
    }
    var count := scheduler.ReloadFrom(SpecsIn(loaded.value));
    r := Ok(count);
  }

  /******* From the files to the executors *******/

  lemma {:induction false} LoadedRun(events: seq<Event>, s: Setting, upper: string -> string)
    requires ExtendsAsciiUpper(upper)
    ensures forall job :: job in LoadedFrom(events, s) ==>
      Runs(job.spec, s.policy, s.w, upper) && job.spec.key.group == GroupFromPath(job.sourcePath)
  {
    if events != [] {
      var last := events[|events| - 1];
      LoadedRun(events[..|events| - 1], s, upper);
      if Loads(last, s) {
        FileSpecsRun(last.item.content.jobs.value, GroupFromPath(last.path), s.policy, s.w, upper);
      }
    }
  }

  lemma {:induction false} FoldHolds(specs: map<JobKey, JobSpec>, list: seq<JobSpec>, holds: JobSpec -> bool)
    requires forall k :: k in specs ==> specs[k].key == k && holds(specs[k])
    requires forall i :: 0 <= i < |list| ==> holds(list[i])
    ensures forall k :: k in FoldJobs(specs, list) ==> FoldJobs(specs, list)[k].key == k && holds(FoldJobs(specs, list)[k])
    decreases |list|
  {
    if list != [] {
      FoldHolds(specs[list[0].key := list[0]], list[1..], holds);
    }
  }

  // Whatever the files say: every job registered by a reload is one its executor accepts.
  lemma ReloadedJobsRun(root: Option<Node>, s: Setting, upper: string -> string)
    requires ExtendsAsciiUpper(upper)
    ensures var registry := FoldJobs(map[], TreeSpecs(root, s));
      forall k :: k in registry ==> registry[k].key == k && Runs(registry[k], s.policy, s.w, upper)
  {
    var specs := TreeSpecs(root, s);
    var holds := (spec: JobSpec) => Runs(spec, s.policy, s.w, upper);
    if root.Some? {
      var jobs := LoadedFrom(DirEvents([], root.value), s);
      LoadedRun(DirEvents([], root.value), s, upper);
      forall i | 0 <= i < |specs|
        ensures holds(specs[i])
      {
        assert jobs[i] in jobs;
      }
    }
    FoldHolds(map[], specs, holds);
  }

  // The order in which directories are read changes nothing of this.
  lemma ReloadIgnoresOrder(t: Node, u: Node, s: Setting)
    requires Reordered(t, u) && WellNamed(t) && WellNamed(u)
    ensures TreeSpecs(Some(t), s) == TreeSpecs(Some(u), s) && TreeLoads(Some(t), s) == TreeLoads(Some(u), s)
  {
    OrderDoesNotMatter([], t, u);
  }
}

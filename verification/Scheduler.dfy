/**
 The Scheduler of src/scheduler.rs as an object, its methods called one at a time.

 The fields are those of the step system's state, and the contracts are stated with the
 step system's own effects, so what is proved there about lock sections holds of these
 bodies. The order in which a hash map is enumerated is a parameter.
 */
module SchedulerObject {
  import opened Wrappers
  import opened Dsl
  import opened Executor
  import opened Steps
  import opened Registrations
  import opened Ordering

  datatype JobDescriptor = JobDescriptor(
    name: string, schedule: string, lastExecution: int, nextExecution: int, lastResult: string)

  datatype ApiError = JobNotFound(key: JobKey) | JobAlreadyRunning(key: JobKey)

  type Listing = map<string, seq<JobDescriptor>>

  function NameOf(): JobDescriptor -> string {
    (d: JobDescriptor) => d.name
  }

  function Describe1(
    jobs: map<JobKey, Registered>, cells: seq<Cell>, nextFire: string -> int, k: JobKey): (d: JobDescriptor)
    ensures d.name == k.name
  {
    if k in jobs && jobs[k].cell < |cells| then
      var state := cells[jobs[k].cell].state;
      var last := if state.lastExecutionMs.Some? then state.lastExecutionMs.value else 0;
      match jobs[k].spec.trigger
      case Cron(expr) => JobDescriptor(k.name, expr, last, nextFire(expr), state.lastResult)
      case Manual => JobDescriptor(k.name, "", last, 0, state.lastResult)
    else JobDescriptor(k.name, "", 0, 0, "")
  }

  function DescribeRunning1(
    running: map<JobKey, Instance>, jobs: map<JobKey, Registered>, cells: seq<Cell>, k: JobKey): (d: JobDescriptor)
    ensures d.name == k.name
  {
    var lastResult :=
      if k in jobs && jobs[k].cell < |cells| then cells[jobs[k].cell].state.lastResult else "";
    if k in running then JobDescriptor(k.name, running[k].schedule, running[k].startedAtMs, 0, lastResult)
    else JobDescriptor(k.name, "", 0, 0, lastResult)
  }

  function Describer(jobs: map<JobKey, Registered>, cells: seq<Cell>, nextFire: string -> int): JobKey -> JobDescriptor {
    k => Describe1(jobs, cells, nextFire, k)
  }

  function RunningDescriber(
    running: map<JobKey, Instance>, jobs: map<JobKey, Registered>, cells: seq<Cell>): JobKey -> JobDescriptor
  {
    k => DescribeRunning1(running, jobs, cells, k)
  }

  /******* Listings *******/

  predicate Matches(filter: Option<string>, group: string) {
    filter == None || filter == Some(group)
  }

  // `out` lists the keys by group, each group in strict order of the names.
  ghost predicate IsListing(keys: set<JobKey>, filter: Option<string>, d: JobKey -> JobDescriptor, out: Listing) {
    && (forall g :: g in out <==> Matches(filter, g) && exists k :: k in keys && k.group == g)
    && (forall g :: g in out ==> Sorted(out[g], NameOf()))
    && (forall g, x :: g in out ==> (x in out[g] <==> Describes(keys, d, g, x)))
  }

  // `x` is the descriptor of some key of the group.
  ghost predicate Describes(keys: set<JobKey>, d: JobKey -> JobDescriptor, g: string, x: JobDescriptor) {
    exists k :: k in keys && k.group == g && d(k) == x
  }

  // A listing does not depend on the order in which the keys were enumerated.
  lemma ListingIsUnique(
    keys: set<JobKey>, filter: Option<string>, d: JobKey -> JobDescriptor, out: Listing, out': Listing)
    requires IsListing(keys, filter, d, out) && IsListing(keys, filter, d, out')
    ensures out == out'
  {
    assert out.Keys == out'.Keys;
    forall g | g in out
      ensures out[g] == out'[g]
    {
      SortedIsUnique(out[g], out'[g], NameOf());
    }
  }

  // Listing one group is listing everything and keeping that group.
  lemma FilteredListing(keys: set<JobKey>, g: string, d: JobKey -> JobDescriptor, all: Listing, one: Listing)
    requires IsListing(keys, None, d, all) && IsListing(keys, Some(g), d, one)
    ensures one == map h | h in all && h == g :: all[h]
  {
    var kept := map h | h in all && h == g :: all[h];
    forall h
      ensures h in kept <==> Matches(Some(g), h) && exists k :: k in keys && k.group == h
    {
    }
    assert IsListing(keys, Some(g), d, kept);
    ListingIsUnique(keys, Some(g), d, one, kept);
  }

  function Passing(keys: set<JobKey>, filter: Option<string>): set<JobKey> {
    set k | k in keys && Matches(filter, k.group)
  }

  // A listing of the keys that pass a filter is the filtered listing of all keys.
  lemma FilterFirst(keys: set<JobKey>, filter: Option<string>, d: JobKey -> JobDescriptor, out: Listing)
    ensures IsListing(Passing(keys, filter), None, d, out) <==> IsListing(keys, filter, d, out)
  {
    var kept := Passing(keys, filter);
    forall g
      ensures (exists k :: k in kept && k.group == g) <==> Matches(filter, g) && exists k :: k in keys && k.group == g
    {
      if k :| k in keys && k.group == g && Matches(filter, g) {
        assert k in kept;
      }
    }
    forall g, x | Matches(filter, g)
      ensures Describes(kept, d, g, x) <==> Describes(keys, d, g, x)
    {
      if k :| k in keys && k.group == g && d(k) == x {
        assert k in kept;
      }
    }
  }

  ghost predicate Enumerates(order: seq<JobKey>, keys: set<JobKey>) {
    && (forall k :: k in order <==> k in keys)
    && (forall i, j :: 0 <= i < j < |order| ==> order[i] != order[j])
  }

  // The descriptors pushed for group `g` while going through `order`.
  function Bucket(order: seq<JobKey>, g: string, d: JobKey -> JobDescriptor): seq<JobDescriptor> {
    if order == [] then []
    else
      var n := |order| - 1;
      if order[n].group == g then Bucket(order[..n], g, d) + [d(order[n])] else Bucket(order[..n], g, d)
  }

  lemma {:induction false} BucketHolds(order: seq<JobKey>, g: string, d: JobKey -> JobDescriptor)
    requires forall k :: d(k).name == k.name
    requires forall i, j :: 0 <= i < j < |order| ==> order[i] != order[j]
    ensures forall x :: x in Bucket(order, g, d) <==> exists k :: k in order && k.group == g && d(k) == x
    ensures DistinctNames(Bucket(order, g, d), NameOf())
  {
    if order != [] {
      var n := |order| - 1;
      var rest := order[..n];
      BucketHolds(rest, g, d);
      forall k
        ensures k in order <==> k in rest || k == order[n]
      {
        assert order == rest + [order[n]];
      }
      if order[n].group == g {
        forall x | x in Bucket(rest, g, d)
          ensures x.name != order[n].name
        {
          var k :| k in rest && k.group == g && d(k) == x;
          assert k != order[n];
        }
      }
    }
  }

  lemma {:induction false} BucketFilled(order: seq<JobKey>, g: string, d: JobKey -> JobDescriptor)
    ensures Bucket(order, g, d) != [] <==> exists k :: k in order && k.group == g
  {
    if order != [] {
      var n := |order| - 1;
      BucketFilled(order[..n], g, d);
      assert order == order[..n] + [order[n]];
    }
  }

  class Scheduler {
    const offline: bool
    var jobs: map<JobKey, Registered>
    var running: map<JobKey, Instance>
    var cells: seq<Cell>
    var born: seq<JobKey>
    var tasks: seq<Task>
    var log: seq<HistoryEntry>
    var signals: set<Signal>

    ghost function View(): State
      reads this
    {
      State(offline, jobs, running, cells, born, tasks, log, signals)
    }

    constructor (offline: bool)
      ensures View() == Initial(offline)
    {
      this.offline := offline;
      jobs, running, cells, born, tasks, log, signals := map[], map[], [], [], [], [], {};
    }

    method Register(spec: JobSpec)
      modifies this
      ensures View() == RegisterIn(old(View()), spec)
    {
      var cell := |cells|;
      cells := cells + [Cell(spec, FRESH_STATE)];
      jobs := jobs - {spec.key};
      assert tasks + [] == tasks;
      match spec.trigger {
        case Cron(_) => tasks := tasks + [Sleeping(Work(spec.key, spec, cell, FromCron))];
        case Manual =>
      }
      jobs := jobs[spec.key := Registered(spec, cell)];
      assert jobs == old(jobs)[spec.key := Registered(spec, cell)];
    }

    method RegisterAll(specs: seq<JobSpec>)
      modifies this
      ensures View() == RegisterAllIn(old(View()), specs)
      ensures SpecsOf(jobs) == FoldJobs(SpecsOf(old(jobs)), specs)
    {
      var i := 0;
      while i < |specs|
        invariant 0 <= i <= |specs|
        invariant RegisterAllIn(old(View()), specs) == RegisterAllIn(View(), specs[i..])
        invariant FoldJobs(SpecsOf(old(jobs)), specs) == FoldJobs(SpecsOf(jobs), specs[i..])
      {
        ghost var before := SpecsOf(jobs);
        Register(specs[i]);
        assert SpecsOf(jobs) == before[specs[i].key := specs[i]];
        assert specs[i..][1..] == specs[i + 1..];
        i := i + 1;
      }
      assert specs[i..] == [];
    }

    method BeginRunning(key: JobKey, schedule: string, nowMs: int) returns (r: Result<(), ApiError>)
      modifies this`running, this`born
      ensures r == if key in old(running) then Err(JobAlreadyRunning(key)) else Ok(())
      ensures View() == if r.Err? then old(View()) else Take(old(View()), key, nowMs, schedule)
    {
      if key in running {
        return Err(JobAlreadyRunning(key));
      }
      running := running[key := Instance(nowMs, schedule, |born|)];
      born := born + [key];
      return Ok(());
    }

    // On success the slot is taken with a fresh token and the run carries that token.
    method TriggerNow(key: JobKey, nowMs: int) returns (r: Result<(), ApiError>)
      modifies this
      ensures r ==
        if key !in old(jobs) then Err(JobNotFound(key))
        else if key in old(running) then Err(JobAlreadyRunning(key))
        else Ok(())
      ensures r.Err? ==> View() == old(View())
      ensures r.Ok? ==>
        var entry := old(jobs)[key];
        var taken := Take(old(View()), key, nowMs, ScheduleOf(entry.spec));
        View() == taken.(tasks := taken.tasks +
          [Dispatching(Work(key, entry.spec, entry.cell, FromTrigger), |old(born)|, Entered, [], Deaf)])
    {
      if key !in jobs {
        return Err(JobNotFound(key));
      }
      var entry := jobs[key];
      r := BeginRunning(key, ScheduleOf(entry.spec), nowMs);
      if r.Err? {
        return;
      }
      var cancel := running[key].cancel;
      tasks := tasks + [Dispatching(Work(key, entry.spec, entry.cell, FromTrigger), cancel, Entered, [], Deaf)];
    }

    method NotifyWaiters(tokens: set<nat>)
      modifies this`tasks
      ensures View() == NotifyAll(old(View()), tokens)
    {
      var i := 0;
      while i < |tasks|
        invariant 0 <= i <= |tasks| == |old(tasks)|
        invariant forall j :: 0 <= j < i ==> tasks[j] == Notify(old(tasks)[j], tokens)
        invariant forall j :: i <= j < |tasks| ==> tasks[j] == old(tasks)[j]
      {
        tasks := tasks[i := Notify(tasks[i], tokens)];
        i := i + 1;
      }
      assert tasks == NotifyAll(old(View()), tokens).tasks;
    }

    method Stop(key: JobKey) returns (r: Result<bool, ApiError>)
      modifies this
      ensures r == if key !in jobs then Err(JobNotFound(key)) else Ok(key in running)
      ensures View() ==
        if r != Ok(true) then old(View())
        else NotifyAll(old(View()), {running[key].cancel})
               .(signals := old(signals) + {Signal(running[key].cancel, key)})
    {
      if key !in jobs {
        return Err(JobNotFound(key));
      }
      if key in running {
        NotifyWaiters({running[key].cancel});
        signals := signals + {Signal(running[key].cancel, key)};
        return Ok(true);
      }
      return Ok(false);
    }

    // The registry becomes the last-wins fold of the list, whatever it was; every running
    // instance has been signalled and keeps its slot, and every old task is still there.
    method ReloadFrom(loaded: seq<JobSpec>) returns (count: nat)
      modifies this
      ensures count == |loaded|
      ensures SpecsOf(jobs) == FoldJobs(map[], loaded)
      ensures running == old(running) && signals == old(signals) + SignalsFor(running)
      ensures View() == RegisterAllIn(
        NotifyAll(old(View()), set k | k in running :: running[k].cancel)
          .(signals := old(signals) + SignalsFor(running), jobs := map[]), loaded)
    {
      NotifyWaiters(set k | k in running :: running[k].cancel);
      signals := signals + SignalsFor(running);
      jobs := map[];
      assert SpecsOf(jobs) == map[];
      RegisterAllKeeps(View(), loaded);
      RegisterAll(loaded);
      count := |loaded|;
    }

    static lemma {:induction false} RegisterAllKeeps(s: State, list: seq<JobSpec>)
      ensures var s' := RegisterAllIn(s, list);
        s'.running == s.running && s'.signals == s.signals && s'.log == s.log && s.tasks <= s'.tasks
      decreases |list|
    {
      if list != [] {
        RegisterAllKeeps(RegisterIn(s, list[0]), list[1..]);
      }
    }

    // The two loops shared by `describe` and `describe_running`: push every descriptor into
    // the list of its group, then sort each list.
    method Collect(ghost keys: set<JobKey>, order: seq<JobKey>, filter: Option<string>, d: JobKey -> JobDescriptor)
      returns (out: Listing)
      requires Enumerates(order, keys) && forall k :: d(k).name == k.name
      ensures IsListing(keys, filter, d, out)
    {
      var buckets := Push(order, filter, d);
      out := SortEach(buckets);
      SortedBuckets(keys, order, filter, d, buckets, out);
    }

    method Push(order: seq<JobKey>, filter: Option<string>, d: JobKey -> JobDescriptor) returns (out: Listing)
      ensures forall g :: g in out <==> Matches(filter, g) && Bucket(order, g, d) != []
      ensures forall g :: g in out ==> out[g] == Bucket(order, g, d)
    {
      out := map[];
      var i := 0;
      while i < |order|
        invariant 0 <= i <= |order|
        invariant forall g :: g in out <==> Matches(filter, g) && Bucket(order[..i], g, d) != []
        invariant forall g :: g in out ==> out[g] == Bucket(order[..i], g, d)
      {
        var key := order[i];
        assert order[..i + 1][..i] == order[..i];
        if Matches(filter, key.group) {
          out := out[key.group := (if key.group in out then out[key.group] else []) + [d(key)]];
        }
        i := i + 1;
      }
      assert order[..i] == order;
    }

    method SortEach(buckets: Listing) returns (out: Listing)
      ensures out.Keys == buckets.Keys
      ensures forall g :: g in out ==> out[g] == Sort(buckets[g], NameOf())
    {
      out := buckets;
      var todo := out.Keys;
      while todo != {}
        invariant todo <= out.Keys == buckets.Keys
        invariant forall g :: g in todo ==> out[g] == buckets[g]
        invariant forall g :: g in out && g !in todo ==> out[g] == Sort(buckets[g], NameOf())
        decreases todo
      {
        var g :| g in todo;
        out := out[g := Sort(out[g], NameOf())];
        todo := todo - {g};
      }
    }

    static lemma SortedBuckets(
      keys: set<JobKey>, order: seq<JobKey>, filter: Option<string>, d: JobKey -> JobDescriptor,
      buckets: Listing, out: Listing)
      requires Enumerates(order, keys) && forall k :: d(k).name == k.name
      requires forall g :: g in out <==> Matches(filter, g) && Bucket(order, g, d) != []
      requires buckets.Keys == out.Keys
      requires forall g :: g in out ==> buckets[g] == Bucket(order, g, d) && out[g] == Sort(buckets[g], NameOf())
      ensures IsListing(keys, filter, d, out)
    {
      forall g
        ensures Bucket(order, g, d) != [] <==> exists k :: k in keys && k.group == g
      {
        BucketFilled(order, g, d);
      }
      forall g | g in out
        ensures Sorted(out[g], NameOf()) && forall x :: x in out[g] <==> Describes(keys, d, g, x)
      {
        SortedBucket(keys, order, g, d);
      }
    }

    static lemma SortedBucket(keys: set<JobKey>, order: seq<JobKey>, g: string, d: JobKey -> JobDescriptor)
      requires Enumerates(order, keys) && forall k :: d(k).name == k.name
      ensures var sorted := Sort(Bucket(order, g, d), NameOf());
        Sorted(sorted, NameOf()) && forall x :: x in sorted <==> Describes(keys, d, g, x)
    {
      var bucket := Bucket(order, g, d);
      BucketHolds(order, g, d);
      SortSorts(bucket, NameOf());
      SameElements(Sort(bucket, NameOf()), bucket);
    }

    method Describe(filter: Option<string>, order: seq<JobKey>, nextFire: string -> int) returns (out: Listing)
      requires Enumerates(order, jobs.Keys)
      ensures IsListing(jobs.Keys, filter, Describer(jobs, cells, nextFire), out)
    {
      out := Collect(jobs.Keys, order, filter, Describer(jobs, cells, nextFire));
    }

    // `describe_running` takes its two locks one after the other: the instances are copied
    // under the first and described under the second, and anything may happen in between.
    method SnapshotRunning(filter: Option<string>) returns (snapshot: map<JobKey, Instance>)
      ensures snapshot.Keys == Passing(running.Keys, filter)
      ensures forall k :: k in snapshot ==> snapshot[k] == running[k]
    {
      snapshot := map k | k in running && Matches(filter, k.group) :: running[k];
    }

    method DescribeSnapshot(snapshot: map<JobKey, Instance>, order: seq<JobKey>) returns (out: Listing)
      requires Enumerates(order, snapshot.Keys)
      ensures IsListing(snapshot.Keys, None, RunningDescriber(snapshot, jobs, cells), out)
    {
      out := Collect(snapshot.Keys, order, None, RunningDescriber(snapshot, jobs, cells));
    }

    // The size of the registry: whatever list it is the fold of, the number of its keys.
    method JobCount() returns (n: nat)
      ensures n == |jobs|
      ensures forall list :: SpecsOf(jobs) == FoldJobs(map[], list) ==> n == |KeySet(list)|
    {
      n := |jobs|;
      forall list | SpecsOf(jobs) == FoldJobs(map[], list)
        ensures n == |KeySet(list)|
      {
        RegistrySize(list);
        assert SpecsOf(jobs).Keys == jobs.Keys;
      }
    }

    // A reload and the count after it: the answer of `/reload` is never too small, and is the
    // size of the registry exactly when no two jobs of the list share a key.
    method ReloadAndCount(loaded: seq<JobSpec>) returns (answered: nat, registered: nat)
      modifies this
      ensures answered == |loaded| && registered == |jobs| == |KeySet(loaded)| <= answered
      ensures registered == answered <==> DistinctKeys(loaded)
    {
      answered := ReloadFrom(loaded);
      registered := JobCount();
      KeySetSize(loaded);
    }
  }
}

/**
 The per-group throttle of `POST /reload` (src/router.rs): a bounded map that is proved to
 agree with the simple unbounded map of last admission times.
 */
module ReloadGate {
  import opened Wrappers

  const U64_MAX := 0xFFFF_FFFF_FFFF_FFFF
  const NANOS := 1_000_000_000
  const EVICT_STALE_MULTIPLIER := 10
  const MAX_ENTRIES := 1024

  type u64 = n: int | 0 <= n <= U64_MAX

  // Instants are nanoseconds of the monotonic clock; `duration_since` saturates at zero.
  function ElapsedSecs(last: int, now: int): nat {
    if now < last then 0 else (now - last) / NANOS
  }

  function SaturatingMul(a: u64, b: u64): u64 {
    if a * b > U64_MAX then U64_MAX else a * b
  }

  /******* The simple throttle *******/

  // An admission, and the last one of a group.
  datatype Admission = Admission(group: string, at: int)

  function LastAt(history: seq<Admission>, group: string): Option<int> {
    if history == [] then None
    else
      var n := |history| - 1;
      if history[n].group == group then Some(history[n].at) else LastAt(history[..n], group)
  }

  // What a throttle that forgets nothing decides: the seconds to wait, or admission.
  function Decide(last: Option<int>, now: int, interval: nat): Result<(), nat> {
    if last.Some? && ElapsedSecs(last.value, now) < interval
    then Err(interval - ElapsedSecs(last.value, now))
    else Ok(())
  }

  // The answered wait is the least whole number of seconds after which the group is admitted.
  lemma WaitIsExact(last: int, now: int, interval: nat, later: nat)
    requires last <= now && Decide(Some(last), now, interval).Err?
    ensures var wait := Decide(Some(last), now, interval).error;
      && 1 <= wait <= interval
      && (Decide(Some(last), now + later * NANOS, interval) == Ok(()) <==> later >= wait)
      && (later < wait ==> Decide(Some(last), now + later * NANOS, interval) == Err(wait - later))
  {
    assert now + later * NANOS - last == (now - last) + later * NANOS;
    assert ((now - last) + later * NANOS) / NANOS == (now - last) / NANOS + later;
  }

  // The other groups admitted at or after `t`.
  ghost function OthersSince(history: seq<Admission>, group: string, t: int): set<string> {
    set a | a in history && a.group != group && a.at >= t :: a.group
  }

  lemma SubsetCard<T>(a: set<T>, b: set<T>)
    requires a <= b
    ensures |a| <= |b|
  {
    assert b == a + (b - a);
  }

  lemma {:induction false} LastAtIsIn(history: seq<Admission>, group: string)
    ensures var last := LastAt(history, group);
      && (last.Some? ==> Admission(group, last.value) in history)
      && (last == None ==> forall a :: a in history ==> a.group != group)
  {
    if history != [] {
      var n := |history| - 1;
      LastAtIsIn(history[..n], group);
      assert history == history[..n] + [history[n]];
    }
  }

  /******* What the bounded map remembers *******/

  // `last` holds true last admissions; it has forgotten a group only once its last admission
  // was stale, or 1024 other groups were admitted at or after it.
  ghost predicate Remembers(last: map<string, int>, history: seq<Admission>, clock: int, interval: u64) {
    && |last| <= MAX_ENTRIES
    && (forall g :: g in last ==> LastAt(history, g) == Some(last[g]))
    && (forall a :: a in history ==> a.at <= clock)
    && (forall g :: g !in last && LastAt(history, g).Some? ==>
          Forgettable(history, g, LastAt(history, g).value, clock, interval))
  }

  ghost predicate Forgettable(history: seq<Admission>, g: string, t: int, clock: int, interval: u64) {
    ElapsedSecs(t, clock) >= interval || |OthersSince(history, g, t)| >= MAX_ENTRIES
  }

  lemma StaysForgettable(
    history: seq<Admission>, a: Admission, g: string, t: int, clock: int, clock': int, interval: u64)
    requires Forgettable(history, g, t, clock, interval) && clock <= clock'
    ensures Forgettable(history, g, t, clock', interval)
    ensures Forgettable(history + [a], g, t, clock', interval)
  {
    SubsetCard(OthersSince(history, g, t), OthersSince(history + [a], g, t));
  }

  lemma TimePasses(last: map<string, int>, history: seq<Admission>, clock: int, clock': int, interval: u64)
    requires Remembers(last, history, clock, interval) && clock <= clock'
    ensures Remembers(last, history, clock', interval)
  {
    forall g | g !in last && LastAt(history, g).Some?
      ensures Forgettable(history, g, LastAt(history, g).value, clock', interval)
    {
      StaysForgettable(history, Admission("", 0), g, LastAt(history, g).value, clock, clock', interval);
    }
  }

  // What `retain` keeps.
  function Kept(last: map<string, int>, now: int, interval: u64): map<string, int> {
    map g | g in last && ElapsedSecs(last[g], now) < SaturatingMul(interval, EVICT_STALE_MULTIPLIER) :: last[g]
  }

  ghost predicate IsOldest(last: map<string, int>, oldest: string) {
    oldest in last && forall g :: g in last ==> last[oldest] <= last[g]
  }

  // The map after an admission.
  ghost predicate Admitted(last: map<string, int>, last': map<string, int>, group: string, now: int, interval: u64) {
    var kept := Kept(last, now, interval);
    if |kept| < MAX_ENTRIES || group in kept then last' == kept[group := now]
    else exists oldest :: IsOldest(kept, oldest) && last' == (kept - {oldest})[group := now]
  }

  // Dropping entries of ten intervals and more, saturated or not, forgets nothing that matters.
  lemma EvictStale(last: map<string, int>, history: seq<Admission>, now: int, interval: u64)
    requires Remembers(last, history, now, interval) && interval > 0
    ensures Remembers(Kept(last, now, interval), history, now, interval)
  {
    var kept := Kept(last, now, interval);
    assert kept.Keys <= last.Keys;
    SubsetCard(kept.Keys, last.Keys);
    assert SaturatingMul(interval, EVICT_STALE_MULTIPLIER) >= interval;
  }

  // At the cap, 1024 other groups have been admitted since the oldest entry was.
  lemma OldestIsForgettable(last: map<string, int>, history: seq<Admission>, now: int, interval: u64, group: string, oldest: string)
    requires Remembers(last, history, now, interval) && |last| == MAX_ENTRIES && group !in last
    requires IsOldest(last, oldest)
    ensures LastAt(history, oldest) == Some(last[oldest])
    ensures |OthersSince(history + [Admission(group, now)], oldest, last[oldest])| >= MAX_ENTRIES
  {
    var a := Admission(group, now);
    var t := last[oldest];
    var others := last.Keys - {oldest} + {group};
    assert |others| == MAX_ENTRIES;
    forall g | g in others
      ensures g in OthersSince(history + [a], oldest, t)
    {
      if g == group {
        LastAtIsIn(history, oldest);
        assert a in history + [a] && now >= t;
      } else {
        LastAtIsIn(history, g);
        assert Admission(g, last[g]) in history + [a];
      }
    }
    SubsetCard(others, OthersSince(history + [a], oldest, t));
  }

  // Recording an admission, the oldest entry making room when the map is full.
  lemma EvictOldest(last: map<string, int>, history: seq<Admission>, now: int, interval: u64, group: string, oldest: string)
    requires Remembers(last, history, now, interval) && |last| == MAX_ENTRIES && group !in last
    requires IsOldest(last, oldest)
    ensures Remembers((last - {oldest})[group := now], history + [Admission(group, now)], now, interval)
  {
    var a := Admission(group, now);
    OldestIsForgettable(last, history, now, interval, group, oldest);
    var last' := (last - {oldest})[group := now];
    assert last'.Keys == last.Keys - {oldest} + {group};
    assert (history + [a])[..|history|] == history;
    forall g | g !in last' && LastAt(history + [a], g).Some?
      ensures Forgettable(history + [a], g, LastAt(history + [a], g).value, now, interval)
    {
      if g != oldest {
        StaysForgettable(history, a, g, LastAt(history, g).value, now, now, interval);
      }
    }
  }

  lemma Record(last: map<string, int>, history: seq<Admission>, now: int, interval: u64, group: string)
    requires Remembers(last, history, now, interval) && (|last| < MAX_ENTRIES || group in last)
    ensures Remembers(last[group := now], history + [Admission(group, now)], now, interval)
  {
    var a := Admission(group, now);
    assert (history + [a])[..|history|] == history;
    assert last[group := now].Keys == last.Keys + {group};
    forall g | g !in last[group := now] && LastAt(history + [a], g).Some?
      ensures Forgettable(history + [a], g, LastAt(history + [a], g).value, now, interval)
    {
      StaysForgettable(history, a, g, LastAt(history, g).value, now, now, interval);
    }
  }

  /******* What the bounded map forgets *******/

  // The other groups admitted after `t`.
  ghost function OthersAfter(history: seq<Admission>, group: string, t: int): set<string> {
    set a | a in history && a.group != group && a.at > t :: a.group
  }

  // The last admission of a group is its latest, and no forgotten group is more recent than a
  // remembered one.
  ghost predicate Newest(last: map<string, int>, history: seq<Admission>) {
    && (forall a :: a in history ==> LastAt(history, a.group).Some? && a.at <= LastAt(history, a.group).value)
    && (forall g, h :: g !in last && LastAt(history, g).Some? && h in last ==> LastAt(history, g).value <= last[h])
  }

  lemma LastAtMore(history: seq<Admission>, a: Admission, group: string)
    ensures LastAt(history + [a], group) == if a.group == group then Some(a.at) else LastAt(history, group)
  {
    assert (history + [a])[..|history|] == history;
  }

  lemma NewestAfterStale(last: map<string, int>, history: seq<Admission>, now: int, interval: u64)
    requires Newest(last, history) && forall g :: g in last ==> LastAt(history, g) == Some(last[g])
    ensures Newest(Kept(last, now, interval), history)
  {
    var kept := Kept(last, now, interval);
    forall g, h | g !in kept && LastAt(history, g).Some? && h in kept
      ensures LastAt(history, g).value <= kept[h]
    {
      if g in last {
        OlderIsLonger(last[g], last[h], now);
      }
    }
  }

  lemma OlderIsLonger(a: int, b: int, now: int)
    requires ElapsedSecs(b, now) < ElapsedSecs(a, now)
    ensures a <= b
  {
  }

  lemma NewestAfterEviction(last: map<string, int>, history: seq<Admission>, oldest: string)
    requires Newest(last, history) && IsOldest(last, oldest) && LastAt(history, oldest) == Some(last[oldest])
    ensures Newest(last - {oldest}, history)
  {
  }

  lemma NewestAfterRecord(last: map<string, int>, history: seq<Admission>, group: string, now: int)
    requires Newest(last, history) && forall a :: a in history ==> a.at <= now
    ensures Newest(last[group := now], history + [Admission(group, now)])
  {
    var all := history + [Admission(group, now)];
    forall a | a in all
      ensures LastAt(all, a.group).Some? && a.at <= LastAt(all, a.group).value
    {
      LastAtMore(history, Admission(group, now), a.group);
    }
    var last' := last[group := now];
    forall g, h | g !in last' && LastAt(all, g).Some? && h in last'
      ensures LastAt(all, g).value <= last'[h]
    {
      LastAtMore(history, Admission(group, now), g);
      LastAtIsIn(history, g);
    }
  }

  // A group is forgotten once the map is too small for all that came after it.
  lemma CapForces(last: map<string, int>, history: seq<Admission>, group: string)
    requires Newest(last, history) && |last| <= MAX_ENTRIES && LastAt(history, group).Some?
    requires forall g :: g in last ==> LastAt(history, g) == Some(last[g])
    requires |OthersAfter(history, group, LastAt(history, group).value)| >= MAX_ENTRIES
    ensures group !in last
  {
    var after := OthersAfter(history, group, LastAt(history, group).value);
    if group in last {
      forall h | h in after
        ensures h in last
      {
        var a :| a in history && a.group == h && a.at > LastAt(history, group).value;
      }
      SubsetCard(after + {group}, last.Keys);
    }
  }

  // Instants that increase from one admission to the next.
  ghost predicate Increasing(history: seq<Admission>) {
    forall i, j :: 0 <= i < j < |history| ==> history[i].at < history[j].at
  }

  // Then no two groups were admitted at the same instant.
  lemma SinceIsAfter(history: seq<Admission>, group: string)
    requires Increasing(history) && LastAt(history, group).Some?
    ensures var t := LastAt(history, group).value; OthersSince(history, group, t) == OthersAfter(history, group, t)
  {
    var t := LastAt(history, group).value;
    LastAtIsIn(history, group);
    var i :| 0 <= i < |history| && history[i] == Admission(group, t);
    forall a | a in history && a.at == t
      ensures a.group == group
    {
      var j :| 0 <= j < |history| && history[j] == a;
      assert !(i < j) && !(j < i);
    }
    forall g
      ensures g in OthersSince(history, group, t) <==> g in OthersAfter(history, group, t)
    {
      if g in OthersSince(history, group, t) {
        var a :| a in history && a.group != group && a.at >= t && a.group == g;
        assert a.at > t;
      }
    }
  }

  // How the gate differs from the simple throttle, for any instants: inside the window it
  // agrees with fewer than 1024 other groups at or after the last admission and lets in with
  // 1024 after it. In between, among equal instants, the order of the hash map decides.
  ghost predicate Agreement(r: Result<(), nat>, last: map<string, int>, history: seq<Admission>, group: string, now: int, interval: u64) {
    var simple := Decide(LastAt(history, group), now, interval);
    && (simple.Ok? ==> r == simple)
    && (simple.Err? ==>
          var t := LastAt(history, group).value;
          && (r == simple <==> group in last) && (r == Ok(()) <==> group !in last)
          && (|OthersSince(history, group, t)| < MAX_ENTRIES ==> r == simple)
          && (|OthersAfter(history, group, t)| >= MAX_ENTRIES ==> r == Ok(())))
  }

  lemma AgreementHolds(r: Result<(), nat>, last: map<string, int>, history: seq<Admission>, group: string, now: int, interval: u64)
    requires Remembers(last, history, now, interval) && Newest(last, history)
    requires r == Decide(if group in last then Some(last[group]) else None, now, interval)
    ensures Agreement(r, last, history, group, now, interval)
  {
    if Decide(LastAt(history, group), now, interval).Err? {
      if |OthersAfter(history, group, LastAt(history, group).value)| >= MAX_ENTRIES {
        CapForces(last, history, group);
      }
    }
  }

  // With increasing instants the difference is exact.
  ghost predicate ExactAgreement(r: Result<(), nat>, history: seq<Admission>, group: string, now: int, interval: u64) {
    var simple := Decide(LastAt(history, group), now, interval);
    r == simple <==> simple == Ok(()) || |OthersSince(history, group, LastAt(history, group).value)| < MAX_ENTRIES
  }

  lemma AgreementIsExact(r: Result<(), nat>, last: map<string, int>, history: seq<Admission>, group: string, now: int, interval: u64)
    requires Agreement(r, last, history, group, now, interval) && Increasing(history)
    ensures ExactAgreement(r, history, group, now, interval)
  {
    if LastAt(history, group).Some? {
      SinceIsAfter(history, group);
    }
  }

  lemma AnswerAgrees(r: Result<(), nat>, last: map<string, int>, history: seq<Admission>, group: string, now: int, interval: u64)
    requires Remembers(last, history, now, interval) && Newest(last, history)
    requires r == Decide(if group in last then Some(last[group]) else None, now, interval)
    ensures Agreement(r, last, history, group, now, interval)
    ensures Increasing(history) ==> ExactAgreement(r, history, group, now, interval)
  {
    AgreementHolds(r, last, history, group, now, interval);
    if Increasing(history) {
      AgreementIsExact(r, last, history, group, now, interval);
    }
  }

  class ReloadGate {
    var last: map<string, int>
    ghost var history: seq<Admission>
    ghost var clock: int

    constructor (ghost start: int)
      ensures last == map[] && history == [] && clock == start
      ensures forall interval: u64 :: Valid(interval)
    {
      last := map[];
      history := [];
      clock := start;
    }

    ghost predicate Valid(interval: u64)
      reads this
    {
      Remembers(last, history, clock, interval) && Newest(last, history)
    }

    // For one interval and a clock that does not go back. `oldest` stands for the choice
    // that the order of the hash map makes among equally old entries.
    method Admit(group: string, interval: u64, now: int) returns (r: Result<(), nat>)
      requires Valid(interval) && clock <= now
      modifies this
      ensures Valid(interval) && clock == now && |last| <= MAX_ENTRIES
      ensures interval == 0 ==> r == Ok(()) && last == old(last) && history == old(history)
      ensures r.Err? <==> interval > 0 && group in old(last) && ElapsedSecs(old(last)[group], now) < interval
      // a refusal is that of the simple throttle, and changes nothing
      ensures r.Err? ==> r == Decide(LastAt(old(history), group), now, interval)
      ensures r.Err? ==> last == old(last) && history == old(history)
      ensures r.Ok? && interval > 0 ==>
        history == old(history) + [Admission(group, now)] && Admitted(old(last), last, group, now, interval)
      // an admission is that of the simple throttle, unless 1024 other groups came in between
      ensures interval > 0 ==> Agreement(r, old(last), old(history), group, now, interval)
      ensures interval > 0 && Increasing(old(history)) ==> ExactAgreement(r, old(history), group, now, interval)
    {
      TimePasses(last, history, clock, now, interval);
      clock := now;
      if interval == 0 {
        return Ok(());
      }
      ghost var answer := Decide(if group in last then Some(last[group]) else None, now, interval);
      AnswerAgrees(answer, last, history, group, now, interval);
      if group in last {
        var elapsed := ElapsedSecs(last[group], now);
        if elapsed < interval {
          return Err(interval - elapsed);
        }
      }
      var staleAfter := SaturatingMul(interval, EVICT_STALE_MULTIPLIER);
      if staleAfter > 0 {
        EvictStale(last, history, now, interval);
        NewestAfterStale(last, history, now, interval);
        last := Kept(last, now, interval);
      }
      if |last| >= MAX_ENTRIES && group !in last {
        var oldest := Oldest();
        EvictOldest(last, history, now, interval, group, oldest);
        NewestAfterEviction(last, history, oldest);
        last := last - {oldest};
      } else {
        Record(last, history, now, interval, group);
      }
      NewestAfterRecord(last, history, group, now);
      last := last[group := now];
      history := history + [Admission(group, now)];
      return Ok(());
    }

    // `min_by_key` over the entries.
    method Oldest() returns (oldest: string)
      requires last != map[]
      ensures IsOldest(last, oldest)
    {
      oldest :| oldest in last;
      var todo := last.Keys - {oldest};
      while todo != {}
        invariant todo <= last.Keys && oldest in last
        invariant forall g :: g in last && g !in todo ==> last[oldest] <= last[g]
        decreases todo
      {
        var g :| g in todo;
        if last[g] < last[oldest] {
          oldest := g;
        }
        todo := todo - {g};
      }
    }
  }

  /******* Where the two throttles part *******/

  // Group names for the example below.
  function Name(i: nat): (s: string)
    ensures |s| == i
  {
    seq(i, _ => 'g')
  }

  // Group `Name(i)` is admitted at nanosecond `i`.
  function FirstNames(n: nat): map<string, int> {
    if n == 0 then map[] else FirstNames(n - 1)[Name(n - 1) := n - 1]
  }

  function FirstAdmissions(n: nat): (h: seq<Admission>)
    ensures |h| == n
  {
    if n == 0 then [] else FirstAdmissions(n - 1) + [Admission(Name(n - 1), n - 1)]
  }

  lemma {:induction false} FirstNamesAre(n: nat)
    ensures |FirstNames(n)| == n
    ensures forall g :: g in FirstNames(n) ==> FirstNames(n)[g] == |g| < n && g == Name(|g|)
    ensures forall a :: a in FirstAdmissions(n) ==> |a.group| < n
    ensures n > 0 ==> Name(0) in FirstNames(n) && LastAt(FirstAdmissions(n), Name(0)) == Some(0)
  {
    if n > 0 {
      FirstNamesAre(n - 1);
      assert FirstNames(n).Keys == FirstNames(n - 1).Keys + {Name(n - 1)};
      assert FirstAdmissions(n)[..n - 1] == FirstAdmissions(n - 1);
      assert n > 1 ==> |Name(0)| != |Name(n - 1)|;
    }
  }

  lemma NoneIsStale(n: nat)
    requires n <= MAX_ENTRIES
    ensures Kept(FirstNames(n), n, 60) == FirstNames(n)
    ensures Name(n) !in FirstNames(n)
  {
    FirstNamesAre(n);
  }

  // A group that is not remembered is admitted.
  method AdmitForgotten(gate: ReloadGate, group: string, interval: u64, now: int) returns (r: Result<(), nat>)
    requires gate.Valid(interval) && gate.clock <= now && interval > 0 && group !in gate.last
    modifies gate
    ensures r.Ok? && gate.Valid(interval) && gate.clock == now
    ensures gate.history == old(gate.history) + [Admission(group, now)]
    ensures Admitted(old(gate.last), gate.last, group, now, interval)
  {
    r := gate.Admit(group, interval, now);
  }

  method Readmit(gate: ReloadGate, group: string, interval: u64, now: int) returns (r: Result<(), nat>)
    requires gate.Valid(interval) && gate.clock <= now && interval > 0 && group !in gate.last
    modifies gate
    ensures r.Ok?
  {
    r := gate.Admit(group, interval, now);
  }

  method Fill(n: nat) returns (gate: ReloadGate)
    requires n <= MAX_ENTRIES
    ensures fresh(gate) && gate.Valid(60) && gate.clock <= n
    ensures gate.last == FirstNames(n) && gate.history == FirstAdmissions(n)
  {
    gate := new ReloadGate(0);
    var i := 0;
    while i < n
      invariant 0 <= i <= n && fresh(gate)
      invariant gate.Valid(60) && gate.clock <= i
      invariant gate.last == FirstNames(i) && gate.history == FirstAdmissions(i)
    {
      FirstNamesAre(i);
      NoneIsStale(i);
      var r := AdmitForgotten(gate, Name(i), 60, i);
      i := i + 1;
    }
  }

  method Overfill(n: nat) returns (gate: ReloadGate)
    requires n == MAX_ENTRIES
    ensures fresh(gate) && gate.Valid(60) && gate.clock <= n
    ensures Name(0) !in gate.last && LastAt(gate.history, Name(0)) == Some(0)
  {
    gate := Fill(n);
    ghost var full, admitted := gate.last, gate.history;
    NotYet(n);
    NoneIsStale(n);
    var r := AdmitForgotten(gate, Name(n), 60, n);
    OldestGoes(full, gate.last, Name(n), Name(0), n);
    LastAtMore(admitted, Admission(Name(n), n), Name(0));
  }

  lemma NotYet(n: nat)
    requires n == MAX_ENTRIES
    ensures LastAt(FirstAdmissions(n), Name(0)) == Some(0) && Name(0) != Name(n)
    ensures |FirstNames(n)| == n && Name(n) !in FirstNames(n) && Name(0) in FirstNames(n)
    ensures forall g :: g in FirstNames(n) && g != Name(0) ==> FirstNames(n)[Name(0)] < FirstNames(n)[g]
  {
    FirstIsOldest(n);
  }

  lemma FirstIsOldest(n: nat)
    requires n > 0
    ensures LastAt(FirstAdmissions(n), Name(0)) == Some(0) && Name(0) != Name(n)
    ensures |FirstNames(n)| == n && Name(n) !in FirstNames(n) && Name(0) in FirstNames(n)
    ensures forall g :: g in FirstNames(n) && g != Name(0) ==> FirstNames(n)[Name(0)] < FirstNames(n)[g]
  {
    FirstNamesAre(n);
    assert |Name(0)| == 0 && |Name(n)| == n;
    forall g | g in FirstNames(n) && g != Name(0)
      ensures FirstNames(n)[g] > 0
    {
      assert g == Name(|g|);
    }
  }

  // The comment at src/router.rs:59-60 says that the cap leaves the throttling of any given
  // group unchanged. After 1024 other groups it does not: a group admitted 1025 nanoseconds
  // ago is admitted again, where the simple throttle makes it wait a minute.
  method CapForgets(n: nat) returns (answer: Result<(), nat>, ghost simple: Result<(), nat>)
    requires n == MAX_ENTRIES
    ensures answer.Ok? && simple == Err(60)
  {
    var gate := Overfill(n);
    simple := Decide(LastAt(gate.history, Name(0)), n + 1, 60);
    answer := Readmit(gate, Name(0), 60, n + 1);
  }

  lemma OldestGoes(full: map<string, int>, last: map<string, int>, group: string, oldest: string, now: int)
    requires Kept(full, now, 60) == full && |full| >= MAX_ENTRIES && group !in full && Admitted(full, last, group, now, 60)
    requires oldest in full && group != oldest && forall g :: g in full && g != oldest ==> full[oldest] < full[g]
    ensures oldest !in last
  {
    var gone :| IsOldest(full, gone) && last == (full - {gone})[group := now];
    assert full[gone] <= full[oldest];
  }
}

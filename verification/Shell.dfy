/** Starting a child process (src/executor/shell.rs): its environment, and spawning while the program is busy. */
module Shell {
  import opened Wrappers

  /******* The environment *******/

  datatype Override = Override(name: string, value: string)

  // The value of the last override of a name.
  function LastOverride(overrides: seq<Override>, name: string): Option<string> {
    if overrides == [] then None
    else
      var last := overrides[|overrides| - 1];
      if last.name == name then Some(last.value) else LastOverride(overrides[..|overrides| - 1], name)
  }

  lemma LastOverrideMore(overrides: seq<Override>, i: nat, name: string)
    requires i < |overrides|
    ensures LastOverride(overrides[..i + 1], name) ==
      if overrides[i].name == name then Some(overrides[i].value) else LastOverride(overrides[..i], name)
  {
    assert overrides[..i + 1][..i] == overrides[..i];
  }

  // What the child sees of a variable.
  function Seen(allowed: seq<string>, overrides: seq<Override>, baseline: map<string, string>, name: string): Option<string> {
    if name !in allowed then None
    else if LastOverride(overrides, name).Some? then LastOverride(overrides, name)
    else if name in baseline then Some(baseline[name])
    else None
  }

  function Lookup(env: map<string, string>, name: string): Option<string> {
    if name in env then Some(env[name]) else None
  }

  // Only allowed names reach the child, and an override wins over the baseline.
  method ComposeEnv(allowed: seq<string>, overrides: seq<Override>, baseline: map<string, string>)
    returns (env: map<string, string>)
    ensures forall name :: Lookup(env, name) == Seen(allowed, overrides, baseline, name)
  {
    env := map[];
    for i := 0 to |allowed|
      invariant forall name :: name in env <==> name in allowed[..i] && name in baseline
      invariant forall name :: name in env ==> env[name] == baseline[name]
    {
      var name := allowed[i];
      assert forall other :: other in allowed[..i + 1] <==> other in allowed[..i] || other == name;
      if name in baseline {
        env := env[name := baseline[name]];
      }
    }
    assert allowed[..|allowed|] == allowed && overrides[..0] == [];
    for i := 0 to |overrides|
      invariant forall name :: Lookup(env, name) == Seen(allowed, overrides[..i], baseline, name)
    {
      ghost var before := env;
      if overrides[i].name in allowed {
        env := env[overrides[i].name := overrides[i].value];
      }
      forall name
        ensures Lookup(env, name) == Seen(allowed, overrides[..i + 1], baseline, name)
      {
        assert Lookup(before, name) == Seen(allowed, overrides[..i], baseline, name);
        LastOverrideMore(overrides, i, name);
      }
    }
    assert overrides[..|overrides|] == overrides;
  }

  /******* Spawning *******/

  datatype Spawning = Spawned | Busy | Refused

  datatype SpawnResult = Child(attempt: nat) | IoError(attempt: nat) | GaveUp

  const SPAWN_ATTEMPTS := 5

  // The first attempt that is not busy decides, or else the last attempt. The error kept for
  // the case that the loop runs out is never returned.
  method Spawn(outcome: nat -> Spawning) returns (r: SpawnResult)
    ensures !r.GaveUp?
    ensures r.attempt < SPAWN_ATTEMPTS && forall j: nat :: j < r.attempt ==> outcome(j) == Busy
    ensures r.Child? <==> outcome(r.attempt) == Spawned
    ensures r.IoError? && outcome(r.attempt) == Busy ==> r.attempt == SPAWN_ATTEMPTS - 1
  {
    var attempt := 0;
    while attempt < SPAWN_ATTEMPTS
      invariant attempt < SPAWN_ATTEMPTS
      invariant forall j: nat :: j < attempt ==> outcome(j) == Busy
    {
      match outcome(attempt) {
        case Spawned => return Child(attempt);
        case Busy =>
          if attempt >= SPAWN_ATTEMPTS - 1 {
            return IoError(attempt);
          }
        case Refused => return IoError(attempt);
      }
      attempt := attempt + 1;
    }
    r := GaveUp;
  }
}

/** The test environment guard: it saves each variable the first time it is
    touched and puts them all back, in reverse, before it gives up the lock. */
module EnvGuard {
  import opened FixedWidth

  type Env = map<string, string>

  datatype Saved = Saved(key: string, value: Option<string>)

  datatype Op = Set(key: string, value: string) | Unset(key: string)

  function Lookup(env: Env, key: string): Option<string> { if key in env then Some(env[key]) else None }

  function Assign(env: Env, key: string, value: Option<string>): Env {
    if value.Some? then env[key := value.value] else env - {key}
  }

  predicate Remembered(saved: seq<Saved>, key: string) { exists i :: 0 <= i < |saved| && saved[i].key == key }

  function Remember(env: Env, saved: seq<Saved>, key: string): seq<Saved> {
    if Remembered(saved, key) then saved else saved + [Saved(key, Lookup(env, key))]
  }

  function Touch(env: Env, op: Op): Env {
    Assign(env, op.key, if op.Set? then Some(op.value) else None)
  }

  /** Undo the saved variables, last first. */
  function Restore(env: Env, saved: seq<Saved>): Env
    decreases |saved|
  {
    if saved == [] then env
    else
      var last := saved[|saved| - 1];
      Restore(Assign(env, last.key, last.value), saved[..|saved| - 1])
  }

  /** The environment and the saved list after a sequence of calls. */
  function Run(env: Env, ops: seq<Op>): (Env, seq<Saved>) {
    if ops == [] then (env, [])
    else
      var before := Run(env, ops[..|ops| - 1]);
      var op := ops[|ops| - 1];
      (Touch(before.0, op), Remember(before.0, before.1, op.key))
  }

  /** Each key is saved once, with its first value, and every other key still
      has it. */
  ghost predicate Tracks(initial: Env, env: Env, saved: seq<Saved>) {
    && (forall i, j :: 0 <= i < j < |saved| ==> saved[i].key != saved[j].key)
    && (forall i :: 0 <= i < |saved| ==> saved[i].value == Lookup(initial, saved[i].key))
    && forall k :: !Remembered(saved, k) ==> Lookup(env, k) == Lookup(initial, k)
  }

  lemma TouchKeepsTracks(initial: Env, env: Env, saved: seq<Saved>, op: Op)
    requires Tracks(initial, env, saved)
    ensures Tracks(initial, Touch(env, op), Remember(env, saved, op.key))
  {
    var saved' := Remember(env, saved, op.key);
    forall k | !Remembered(saved', k) ensures Lookup(Touch(env, op), k) == Lookup(initial, k) {
      assert forall i :: 0 <= i < |saved| ==> saved'[i] == saved[i];
      assert !Remembered(saved, k);
      assert saved' != saved ==> saved'[|saved|].key == op.key;
    }
  }

  lemma SameLookups(a: Env, b: Env)
    requires forall k :: Lookup(a, k) == Lookup(b, k)
    ensures a == b
  {
    forall k | k in a ensures k in b && a[k] == b[k] {
      assert Lookup(a, k) == Lookup(b, k);
    }
    forall k | k in b ensures k in a {
      assert Lookup(a, k) == Lookup(b, k);
    }
  }

  /** Undoing one saved variable leaves a shorter list that still tracks. */
  lemma UndoKeepsTracks(initial: Env, env: Env, saved: seq<Saved>)
    requires Tracks(initial, env, saved) && saved != []
    ensures var last := saved[|saved| - 1]; Tracks(initial, Assign(env, last.key, last.value), saved[..|saved| - 1])
  {
    var last, front := saved[|saved| - 1], saved[..|saved| - 1];
    assert saved == front + [last];
    forall k | !Remembered(front, k) ensures Lookup(Assign(env, last.key, last.value), k) == Lookup(initial, k) {
      assert k != last.key ==> !Remembered(saved, k);
    }
  }

  lemma {:induction false} RestoreIsInitial(initial: Env, env: Env, saved: seq<Saved>)
    requires Tracks(initial, env, saved)
    ensures Restore(env, saved) == initial
    decreases |saved|
  {
    if saved == [] {
      forall k ensures Lookup(env, k) == Lookup(initial, k) {
        assert !Remembered(saved, k);
      }
      SameLookups(env, initial);
    } else {
      UndoKeepsTracks(initial, env, saved);
      var last := saved[|saved| - 1];
      RestoreIsInitial(initial, Assign(env, last.key, last.value), saved[..|saved| - 1]);
    }
  }

  /** After any sequence of calls, repeated touches of one key included,
      restoring gives back the whole environment. */
  lemma {:induction false} RestoreUndoesEverything(initial: Env, ops: seq<Op>)
    ensures Tracks(initial, Run(initial, ops).0, Run(initial, ops).1)
    ensures Restore(Run(initial, ops).0, Run(initial, ops).1) == initial
  {
    if ops != [] {
      RestoreUndoesEverything(initial, ops[..|ops| - 1]);
      var before := Run(initial, ops[..|ops| - 1]);
      TouchKeepsTracks(initial, before.0, before.1, ops[|ops| - 1]);
    }
    RestoreIsInitial(initial, Run(initial, ops).0, Run(initial, ops).1);
  }

  /** The guard, with the process environment and the lock it holds.
      `atUnlock` is the environment at the moment the lock is given up. */
  class Guard {
    var env: Env
    var saved: seq<Saved>
    var locked: bool
    ghost const initial: Env
    ghost var atUnlock: Option<Env>

    ghost predicate Valid()
      reads this
    {
      locked && atUnlock.None? && Tracks(initial, env, saved)
    }

    constructor (env: Env)
      ensures Valid() && this.env == env && initial == env && saved == []
    {
      this.env, saved, locked := env, [], true;
      initial, atUnlock := env, None;
    }

    method SetVar(key: string, value: string)
      requires Valid()
      modifies this
      ensures Valid() && env == old(env)[key := value] && saved == Remember(old(env), old(saved), key)
    {
      TouchKeepsTracks(initial, env, saved, Set(key, value));
      saved := Remember(env, saved, key);
      env := env[key := value];
    }

    method UnsetVar(key: string)
      requires Valid()
      modifies this
      ensures Valid() && env == old(env) - {key} && saved == Remember(old(env), old(saved), key)
    {
      TouchKeepsTracks(initial, env, saved, Unset(key));
      saved := Remember(env, saved, key);
      env := env - {key};
    }

    /** Restore first, then unlock. */
    method Drop()
      requires Valid()
      modifies this
      ensures env == initial && saved == [] && !locked
      ensures atUnlock == Some(initial)
    {
      while saved != []
        invariant Valid()
        decreases |saved|
      {
        var last := saved[|saved| - 1];
        UndoKeepsTracks(initial, env, saved);
        match last.value {
          case Some(v) => env := env[last.key := v];
          case None => env := env - {last.key};
        }
        saved := saved[..|saved| - 1];
      }
      RestoreIsInitial(initial, env, saved);
      atUnlock := Some(env);
      locked := false;
    }
  }
}

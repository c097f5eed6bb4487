/** The host-wide counting semaphore: slot `i` of a provider is a lock file
    `i.lock`, and a process probes the slots below its own configured limit
    one at a time. Processes are independent and may disagree on the limit. */
module SlotSemaphore {
  import opened FixedWidth
  import opened Sets

  type Pid = nat

  // ------------------------------------------------------ the configuration

  /** One comma-separated part of the limit specification, after trimming. */
  datatype Part = Malformed | Pair(name: string, n: nat)

  predicate Names(part: Part, name: string) { part.Pair? && part.name == name }

  /** The limit for a provider: its own first entry, else the last `*` entry,
      else 0 (unlimited). */
  method LimitFor(spec: Option<seq<Part>>, provider: string) returns (limit: nat)
    ensures spec.None? ==> limit == 0
    ensures spec.Some? ==>
              var parts := spec.value;
              || (exists i :: 0 <= i < |parts| && provider != "*" && Names(parts[i], provider) && limit == parts[i].n
                           && forall j :: 0 <= j < i ==> !Names(parts[j], provider))
              || ((provider == "*" || forall i :: 0 <= i < |parts| ==> !Names(parts[i], provider)) &&
                  (|| (exists i :: 0 <= i < |parts| && Names(parts[i], "*") && limit == parts[i].n
                                && forall j :: i < j < |parts| ==> !Names(parts[j], "*"))
                   || (limit == 0 && forall i :: 0 <= i < |parts| ==> !Names(parts[i], "*"))))
  {
    if spec.None? {
      return 0;
    }
    var parts := spec.value;
    limit := 0;
    for i := 0 to |parts|
      invariant provider == "*" || forall j :: 0 <= j < i ==> !Names(parts[j], provider)
      invariant || (exists k :: 0 <= k < i && Names(parts[k], "*") && limit == parts[k].n
                             && forall j :: k < j < i ==> !Names(parts[j], "*"))
                || (limit == 0 && forall j :: 0 <= j < i ==> !Names(parts[j], "*"))
    {
      match parts[i] {
        case Malformed =>
        case Pair(name, n) =>
          if name == "*" {
            limit := n;
            assert Names(parts[i], "*");
          } else if name == provider {
            assert Names(parts[i], provider);
            return n;
          }
      }
    }
  }

  /** One undisturbed sweep takes the lowest free slot below the limit, and
      fails exactly when all of them are held. */
  method TryTake(held: set<nat>, limit: nat) returns (slot: Option<nat>)
    ensures slot.Some? ==> slot.value < limit && slot.value !in held && forall j :: 0 <= j < slot.value ==> j in held
    ensures slot.None? <==> forall j :: 0 <= j < limit ==> j in held
  {
    for i := 0 to limit
      invariant forall j :: 0 <= j < i ==> j in held
    {
      if i !in held {
        return Some(i);
      }
    }
    slot := None;
  }

  // ----------------------------------------------------------- the protocol

  datatype PC =
    | Idle
    | Unlimited
    | Probing(limit: nat, next: nat)
    | Holding(limit: nat, slot: nat)
    | Crashed

  type State = map<Pid, PC>

  datatype Action =
    | Acquire(p: Pid, limit: nat)
    | Probe(p: Pid)
    | Retry(p: Pid)
    | GiveUp(p: Pid)
    | Release(p: Pid)
    | Crash(p: Pid)

  predicate HeldIn(s: State, slot: nat) {
    exists p :: p in s && s[p].Holding? && s[p].slot == slot
  }

  predicate Enabled(s: State, a: Action) {
    a.p in s &&
    var pc := s[a.p];
    match a
    case Acquire(_, _) => pc.Idle?
    case Probe(_) => pc.Probing? && pc.next < pc.limit
    case Retry(_) => pc.Probing? && pc.next >= pc.limit
    case GiveUp(_) => pc.Probing?
    case Release(_) => pc.Holding? || pc.Unlimited?
    case Crash(_) => !pc.Crashed?
  }

  function Do(s: State, a: Action): State
    requires Enabled(s, a)
  {
    var pc := s[a.p];
    match a
    case Acquire(p, limit) => s[p := if limit == 0 then Unlimited else Probing(limit, 0)]
    // The try-lock: one index, one instant.
    case Probe(p) => s[p := if HeldIn(s, pc.next) then Probing(pc.limit, pc.next + 1) else Holding(pc.limit, pc.next)]
    case Retry(p) => s[p := Probing(pc.limit, 0)]
    case GiveUp(p) => s[p := Idle]
    case Release(p) => s[p := Idle]
    case Crash(p) => s[p := Crashed]
  }

  predicate Init(s: State) { forall p :: p in s ==> s[p].Idle? }

  function Exec(s: State, acts: seq<Action>): Option<State> {
    if acts == [] then Some(s)
    else
      var before := Exec(s, acts[..|acts| - 1]);
      if before.Some? && Enabled(before.value, acts[|acts| - 1])
      then Some(Do(before.value, acts[|acts| - 1]))
      else None
  }

  /** A slot has one holder, and the slot is below that holder's own limit. */
  predicate Inv(s: State) {
    && (forall p, q :: p in s && q in s && p != q && s[p].Holding? && s[q].Holding? ==> s[p].slot != s[q].slot)
    && forall p :: p in s && s[p].Holding? ==> s[p].slot < s[p].limit
  }

  lemma StepKeepsInv(s: State, a: Action)
    requires Inv(s) && Enabled(s, a)
    ensures Inv(Do(s, a))
  {
  }

  lemma {:induction false} EveryRunKeepsInv(s: State, acts: seq<Action>, t: State)
    requires Init(s) && Exec(s, acts) == Some(t)
    ensures Inv(t)
  {
    if acts != [] {
      EveryRunKeepsInv(s, acts[..|acts| - 1], Exec(s, acts[..|acts| - 1]).value);
      StepKeepsInv(Exec(s, acts[..|acts| - 1]).value, acts[|acts| - 1]);
    }
  }

  /** The processes of `s` that hold a slot below `n`. */
  function HoldersBelow(s: State, n: nat): set<Pid> {
    set p | p in s && s[p].Holding? && s[p].slot < n
  }

  lemma {:induction false} Pigeonhole(s: State, n: nat)
    requires Inv(s)
    ensures |HoldersBelow(s, n)| <= n
  {
    if n == 0 {
      assert HoldersBelow(s, 0) == {};
    } else {
      Pigeonhole(s, n - 1);
      if p :| p in s && s[p].Holding? && s[p].slot == n - 1 {
        assert HoldersBelow(s, n) == HoldersBelow(s, n - 1) + {p};
      } else {
        assert HoldersBelow(s, n) == HoldersBelow(s, n - 1);
      }
    }
  }

  /** What the process asked for in its latest acquire. */
  function Asked(acts: seq<Action>, p: Pid): Option<nat> {
    if acts == [] then None
    else
      var a := acts[|acts| - 1];
      if a.Acquire? && a.p == p then Some(a.limit) else Asked(acts[..|acts| - 1], p)
  }

  /** A process is let in without a slot exactly when it asked for no limit,
      and one that probes or holds goes by the limit it asked for. */
  lemma {:induction false} LimitIsWhatWasAsked(s: State, acts: seq<Action>, t: State, p: Pid)
    requires Init(s) && Exec(s, acts) == Some(t) && p in t
    ensures t[p].Unlimited? ==> Asked(acts, p) == Some(0)
    ensures t[p].Probing? || t[p].Holding? ==> t[p].limit > 0 && Asked(acts, p) == Some(t[p].limit)
  {
    if acts != [] {
      LimitIsWhatWasAsked(s, acts[..|acts| - 1], Exec(s, acts[..|acts| - 1]).value, p);
    }
  }

  /** The processes let in, slot or no slot, that asked for 1 up to `n`. */
  function LetIn(t: State, acts: seq<Action>, n: nat): set<Pid> {
    set p | && p in t && (t[p].Holding? || t[p].Unlimited?)
            && Asked(acts, p).Some? && 1 <= Asked(acts, p).value <= n
  }

  /** In every interleaving of probes, releases and crashes: no slot has two
      holders, and for every `n` the processes let in that asked for a limit of
      1 up to `n` number at most `n`, whatever limits the others asked for. */
  lemma CapHoldsInEveryRun(s: State, acts: seq<Action>, t: State, n: nat)
    requires Init(s) && Exec(s, acts) == Some(t)
    ensures forall p, q :: p in t && q in t && p != q && t[p].Holding? && t[q].Holding? ==> t[p].slot != t[q].slot
    ensures |LetIn(t, acts, n)| <= n
  {
    EveryRunKeepsInv(s, acts, t);
    Pigeonhole(t, n);
    forall p | p in LetIn(t, acts, n) ensures p in HoldersBelow(t, n) {
      LimitIsWhatWasAsked(s, acts, t, p);
    }
    SubsetSize(LetIn(t, acts, n), HoldersBelow(t, n));
  }

  /** A probe of a slot that is free at that moment takes it, a limit of zero
      is let in at once, and whoever is let in stays in until it releases the
      slot, or ends. */
  lemma EntryAndExit(s: State, a: Action)
    requires Enabled(s, a)
    ensures a.Acquire? ==> (Do(s, a)[a.p].Unlimited? <==> a.limit == 0)
    ensures a.Probe? ==> (Do(s, a)[a.p] == Holding(s[a.p].limit, s[a.p].next) <==> !HeldIn(s, s[a.p].next))
    ensures forall p :: p in s && (s[p].Holding? || s[p].Unlimited?) && a != Release(p) && a != Crash(p) ==>
              p in Do(s, a) && Do(s, a)[p] == s[p]
  {
  }

  /** A holder that releases its slot, or ends, leaves it free. */
  lemma ExitFreesTheSlot(s: State, p: Pid, a: Action)
    requires Inv(s) && Enabled(s, a) && (a == Release(p) || a == Crash(p)) && s[p].Holding?
    ensures !HeldIn(Do(s, a), s[p].slot)
  {
  }

  /** A process that has not stopped may stop, one that probes may give up, and
      there is always a step to go on with. */
  lemma NobodyIsStuck(s: State, p: Pid, limit: nat)
    requires p in s && !s[p].Crashed?
    ensures Enabled(s, Crash(p))
    ensures match s[p]
            case Idle => Enabled(s, Acquire(p, limit))
            case Unlimited => Enabled(s, Release(p))
            case Probing(l, next) => Enabled(s, GiveUp(p)) && Enabled(s, if next < l then Probe(p) else Retry(p))
            case Holding(_, _) => Enabled(s, Release(p))
            case Crashed => true
  {
  }

  // ------------------------------------------------- what a refusal means

  predicate AllHeld(s: State, limit: nat) { forall i :: 0 <= i < limit ==> HeldIn(s, i) }

  /** The state after the first `m` actions of a run. */
  function At(s: State, acts: seq<Action>, m: nat): State
    requires m <= |acts| && Exec(s, acts[..m]).Some?
  {
    Exec(s, acts[..m]).value
  }

  /** After `m` actions `p` is probing, with the same limit, beyond `slot`. */
  predicate ProbesBeyond(s: State, acts: seq<Action>, m: nat, p: Pid, limit: nat, slot: nat)
    requires m <= |acts|
  {
    && Exec(s, acts[..m]).Some? && p in At(s, acts, m)
    && At(s, acts, m)[p].Probing? && At(s, acts, m)[p].limit == limit && At(s, acts, m)[p].next > slot
  }

  /** The action at `m` is `p`'s probe of `slot`, which is held at that moment,
      and `p` has been in the same sweep ever since. */
  predicate RefusedAt(s: State, acts: seq<Action>, m: nat, p: Pid, limit: nat, slot: nat) {
    && m < |acts| && acts[m] == Probe(p) && Exec(s, acts[..m]).Some?
    && p in At(s, acts, m) && At(s, acts, m)[p] == Probing(limit, slot) && HeldIn(At(s, acts, m), slot)
    && forall r :: m < r <= |acts| ==> ProbesBeyond(s, acts, r, p, limit, slot)
  }

  lemma RefusedStill(s: State, acts: seq<Action>, m: nat, p: Pid, limit: nat, slot: nat)
    requires acts != [] && RefusedAt(s, acts[..|acts| - 1], m, p, limit, slot)
    requires ProbesBeyond(s, acts, |acts|, p, limit, slot)
    ensures RefusedAt(s, acts, m, p, limit, slot)
  {
    var front := acts[..|acts| - 1];
    assert front[..m] == acts[..m];
    forall r | m < r <= |acts| ensures ProbesBeyond(s, acts, r, p, limit, slot) {
      if r < |acts| {
        assert front[..r] == acts[..r] && ProbesBeyond(s, front, r, p, limit, slot);
      }
    }
  }

  /** What a refusal shows, in every run: a process that has swept up to slot
      `next` found each slot below it held, one after the other, at some
      moment of that same sweep. */
  lemma {:induction false} RefusedSlotsWereHeld(s: State, acts: seq<Action>, t: State, p: Pid, slot: nat)
    returns (m: nat)
    requires Init(s) && Exec(s, acts) == Some(t) && p in t && t[p].Probing? && slot < t[p].next
    ensures RefusedAt(s, acts, m, p, t[p].limit, slot)
  {
    var front, a := acts[..|acts| - 1], acts[|acts| - 1];
    var before := Exec(s, front).value;
    assert acts[..|acts|] == acts;
    if a == Probe(p) && before[p].next == slot {
      m := |front|;
    } else {
      m := RefusedSlotsWereHeld(s, front, before, p, slot);
      RefusedStill(s, acts, m, p, t[p].limit, slot);
    }
  }

  /** No slot below `limit` is let go in the run. */
  predicate KeepsHeld(s: State, acts: seq<Action>, limit: nat) {
    acts == [] || (
      var before, after := Exec(s, acts[..|acts| - 1]), Exec(s, acts);
      && KeepsHeld(s, acts[..|acts| - 1], limit)
      && (before.Some? && after.Some? ==>
            forall i :: 0 <= i < limit && HeldIn(before.value, i) ==> HeldIn(after.value, i)))
  }

  /** Only releases and crashes let a slot go. */
  lemma StepKeepsHeld(s: State, a: Action, slot: nat)
    requires Enabled(s, a) && !a.Release? && !a.Crash? && HeldIn(s, slot)
    ensures HeldIn(Do(s, a), slot)
  {
    var q :| q in s && s[q].Holding? && s[q].slot == slot;
    assert q in Do(s, a) && Do(s, a)[q] == s[q];
  }

  lemma {:induction false} NoReleaseKeepsHeld(s: State, acts: seq<Action>, limit: nat)
    requires forall a :: a in acts ==> !a.Release? && !a.Crash?
    ensures KeepsHeld(s, acts, limit)
  {
    if acts != [] {
      var front, a := acts[..|acts| - 1], acts[|acts| - 1];
      assert a in acts;
      NoReleaseKeepsHeld(s, front, limit);
      if Exec(s, acts).Some? {
        var before := Exec(s, front).value;
        forall i | 0 <= i < limit && HeldIn(before, i) ensures HeldIn(Do(before, a), i) {
          StepKeepsHeld(before, a, i);
        }
      }
    }
  }

  /** A sweep during which no slot below the limit is let go: whatever else
      the others do, all the slots found held are held together at its end,
      so a full refusal then means that they are all held. */
  lemma {:induction false} QuietRefusalIsExhaustion(s: State, acts: seq<Action>, t: State, p: Pid, limit: nat)
    requires Exec(s, acts) == Some(t) && KeepsHeld(s, acts, limit)
    requires p in s && (s[p].Probing? ==> s[p].next == 0)
    requires p in t && t[p].Probing? && t[p].next <= limit
    ensures AllHeld(t, t[p].next)
  {
    if acts != [] {
      var front, a := acts[..|acts| - 1], acts[|acts| - 1];
      var before := Exec(s, front).value;
      if before[p].Probing? && t[p].next >= before[p].next {
        QuietRefusalIsExhaustion(s, front, before, p, limit);
      }
    }
  }

  /** A sweep in which only `p` acts, from the start to any point of it: it
      stands at the first slot that is free, or has found all of them held. */
  lemma {:induction false} LoneSweep(s: State, acts: seq<Action>, t: State, p: Pid, limit: nat)
    requires Exec(s, acts) == Some(t) && p in s && s[p] == Probing(limit, 0)
    requires forall a :: a in acts ==> a == Probe(p)
    ensures || (t == s[p := Probing(limit, |acts|)] && |acts| <= limit && AllHeld(s, |acts|))
            || (exists i :: 0 <= i < limit && t == s[p := Holding(limit, i)] && !HeldIn(s, i) && AllHeld(s, i))
  {
    if acts == [] {
      assert t == s[p := Probing(limit, 0)];
    } else {
      var front, a := acts[..|acts| - 1], acts[|acts| - 1];
      var before := Exec(s, front).value;
      assert acts == front + [a] && a in acts;
      forall b | b in front ensures b == Probe(p) {
        assert b in acts;
      }
      LoneSweep(s, front, before, p, limit);
      assert Enabled(before, Probe(p)) && before[p].Probing?;
      SameHolders(s, before, p, |front|);
      if !HeldIn(s, |front|) {
        assert t == s[p := Holding(limit, |front|)];
      } else {
        assert t == s[p := Probing(limit, |acts|)];
      }
    }
  }

  /** Replacing one process that holds nothing does not change who holds. */
  lemma SameHolders(s: State, t: State, p: Pid, slot: nat)
    requires p in s && !s[p].Holding? && p in t && !t[p].Holding? && t == s[p := t[p]]
    ensures HeldIn(t, slot) <==> HeldIn(s, slot)
  {
    assert forall q :: q in s && q != p ==> q in t && t[q] == s[q];
    if HeldIn(s, slot) {
      var q :| q in s && s[q].Holding? && s[q].slot == slot;
      assert q in t && t[q].Holding? && t[q].slot == slot;
    }
    if HeldIn(t, slot) {
      var q :| q in t && t[q].Holding? && t[q].slot == slot;
      assert q in s && s[q].Holding? && s[q].slot == slot;
    }
  }

  /** Undisturbed, the refusal is exact: a finished sweep in which only `p`
      acts is refused if and only if all the slots were held at its start. */
  lemma LoneRefusalIff(s: State, acts: seq<Action>, t: State, p: Pid, limit: nat)
    requires Exec(s, acts) == Some(t) && p in s && s[p] == Probing(limit, 0)
    requires forall a :: a in acts ==> a == Probe(p)
    requires !Enabled(t, Probe(p))
    ensures p in t && (t[p] == Probing(limit, limit) <==> AllHeld(s, limit))
  {
    LoneSweep(s, acts, t, p, limit);
  }

  /** At no point of the run were all `limit` slots held. */
  predicate NeverAllHeld(s: State, acts: seq<Action>, limit: nat) {
    && (Exec(s, acts).Some? ==> !AllHeld(Exec(s, acts).value, limit))
    && (acts != [] ==> NeverAllHeld(s, acts[..|acts| - 1], limit))
  }

  lemma Extend(s: State, acts: seq<Action>, t: State, a: Action, limit: nat, free: nat)
    returns (acts': seq<Action>, t': State)
    requires Exec(s, acts) == Some(t) && Enabled(t, a) && NeverAllHeld(s, acts, limit)
    requires free < limit && !HeldIn(Do(t, a), free)
    ensures t' == Do(t, a) && Exec(s, acts') == Some(t') && NeverAllHeld(s, acts', limit)
  {
    acts', t' := acts + [a], Do(t, a);
    assert acts'[..|acts|] == acts;
  }

  /** One process holds slot 0 and two more are about to probe. */
  lemma OneHolderTwoComers() returns (s: State, acts: seq<Action>, t: State)
    ensures Init(s) && Exec(s, acts) == Some(t) && NeverAllHeld(s, acts, 2)
    ensures t == map[1 := Holding(2, 0), 2 := Probing(2, 0), 3 := Probing(2, 0)]
  {
    s := map[1 := Idle, 2 := Idle, 3 := Idle];
    assert !HeldIn(s, 0);
    acts, t := Extend(s, [], s, Acquire(1, 2), 2, 0);
    acts, t := Extend(s, acts, t, Probe(1), 2, 1);
    acts, t := Extend(s, acts, t, Acquire(2, 2), 2, 1);
    acts, t := Extend(s, acts, t, Acquire(3, 2), 2, 1);
  }

  /** Both find slot 0 held. */
  lemma BothRefusedOnce() returns (s: State, acts: seq<Action>, t: State)
    ensures Init(s) && Exec(s, acts) == Some(t) && NeverAllHeld(s, acts, 2)
    ensures t == map[1 := Holding(2, 0), 2 := Probing(2, 1), 3 := Probing(2, 1)]
  {
    s, acts, t := OneHolderTwoComers();
    assert t[1].slot == 0 && HeldIn(t, 0);
    acts, t := Extend(s, acts, t, Probe(2), 2, 1);
    assert t[1].slot == 0 && HeldIn(t, 0);
    acts, t := Extend(s, acts, t, Probe(3), 2, 1);
  }

  /** A full sweep can be refused although at every moment some slot was free:
      the probes are not one instant, so the refusal does not show that the
      other processes held them all. */
  lemma RefusalWithoutExhaustion() returns (s: State, acts: seq<Action>, t: State)
    ensures Init(s) && Exec(s, acts) == Some(t)
    ensures 3 in t && t[3] == Probing(2, 2)
    ensures NeverAllHeld(s, acts, 2)
  {
    s, acts, t := BothRefusedOnce();
    acts, t := Extend(s, acts, t, Release(1), 2, 1);
    acts, t := Extend(s, acts, t, Probe(2), 2, 0);
    assert t[2].slot == 1 && HeldIn(t, 1);
    acts, t := Extend(s, acts, t, Probe(3), 2, 0);
  }
}

/** The locked read-modify-write of the health store, as a state machine over
    any number of processes. The lock is a file made with create-if-absent;
    the store is replaced by renaming a temporary file over it. Processes may
    stop at any step, may remove a lock they have judged abandoned, and may be
    refused the store file, which they then take to be empty. */
module HealthLock {
  import opened FixedWidth
  import opened ModelHealth

  const LOCK_STALE_SECS := 30

  type Pid = nat

  datatype TempName = TempName(pid: Pid, nonce: nat)

  /** What a file holds; `Torn` is a partly written one. */
  datatype Image = Absent | Torn | Whole(store: Store)

  datatype Lock = Free | Held(owner: Pid, created: nat)

  datatype PC =
    | Idle
    | Waiting(delta: Delta)
    | Breaking(delta: Delta, judged: Lock)
    | Locked(delta: Delta)
    | Loaded(delta: Delta, snapshot: Store)
    | Applied(delta: Delta, base: Store, next: Store, answer: Option<Precheck>)
    | Writing(delta: Delta, base: Store, next: Store, answer: Option<Precheck>, temp: TempName)
    | Written(delta: Delta, base: Store, next: Store, answer: Option<Precheck>, temp: TempName)
    | Releasing
    | Crashed
  {
    /** Between winning the lock file and removing it. */
    predicate InCritical() {
      Locked? || Loaded? || Applied? || Writing? || Written? || Releasing?
    }
  }

  /** `log`, `bases` and `answers` record each rename: the update made durable,
      the store it was computed from and the gate answer its process goes on
      to use. `blanks` records the length of the log at each empty load. */
  datatype State = State(
    clock: nat,
    lock: Lock,
    disk: Image,
    temps: map<TempName, Image>,
    nonces: map<Pid, nat>,
    pcs: map<Pid, PC>,
    log: seq<Delta>,
    bases: seq<Store>,
    answers: seq<Option<Precheck>>,
    blanks: set<nat>)

  datatype Action =
    | Tick(secs: nat)
    | Begin(p: Pid, delta: Delta)
    | Create(p: Pid)
    | TimeOut(p: Pid)
    | JudgeStale(p: Pid)
    | Break(p: Pid)
    | Load(p: Pid)
    | LoadEmpty(p: Pid, setAside: bool)
    | Apply(p: Pid)
    | OpenTemp(p: Pid)
    | FillTemp(p: Pid)
    | FailWrite(p: Pid)
    | Rename(p: Pid)
    | Unlink(p: Pid)
    | Crash(p: Pid)

  function ImageStore(i: Image): Store { if i.Whole? then i.store else map[] }

  predicate Enabled(s: State, a: Action) {
    a.Tick? || (a.p in s.pcs &&
      var pc := s.pcs[a.p];
      match a
      case Begin(_, _) => pc.Idle?
      case Create(_) => pc.Waiting? && s.lock.Free?
      case TimeOut(_) => pc.Waiting? && s.lock.Held?
      case JudgeStale(_) => pc.Waiting? && s.lock.Held? && s.clock >= s.lock.created + LOCK_STALE_SECS
      case Break(_) => pc.Breaking?
      case Load(_) => pc.Locked?
      case LoadEmpty(_, _) => pc.Locked?
      case Apply(_) => pc.Loaded?
      case OpenTemp(_) => pc.Applied?
      case FillTemp(_) => pc.Writing?
      case FailWrite(_) => pc.Applied? || pc.Writing? || pc.Written?
      case Rename(_) => pc.Written? && pc.temp in s.temps
      case Unlink(_) => pc.Releasing?
      case Crash(_) => !pc.Crashed?)
  }

  function Do(s: State, a: Action): State
    requires Enabled(s, a)
  {
    if a.Tick? then s.(clock := s.clock + a.secs) else
    var pc := s.pcs[a.p];
    match a
    case Begin(p, delta) => s.(pcs := s.pcs[p := Waiting(delta)])
    case Create(p) => s.(lock := Held(p, s.clock), pcs := s.pcs[p := Locked(pc.delta)])
    case TimeOut(p) => s.(pcs := s.pcs[p := Idle])
    case JudgeStale(p) => s.(pcs := s.pcs[p := Breaking(pc.delta, s.lock)])
    // Removes whatever lock file is there now, then tries again.
    case Break(p) => s.(lock := Free, pcs := s.pcs[p := Waiting(pc.delta)])
    // An unreadable store is set aside and an empty one used.
    case Load(p) => s.(disk := if s.disk.Torn? then Absent else s.disk,
                       pcs := s.pcs[p := Loaded(pc.delta, ImageStore(s.disk))])
    // A store over the size limit is set aside, and one that cannot be read
    // is left in place; either way the process goes on with an empty one.
    case LoadEmpty(p, setAside) => s.(disk := if setAside then Absent else s.disk,
                                      blanks := s.blanks + {|s.log|},
                                      pcs := s.pcs[p := Loaded(pc.delta, map[])])
    case Apply(p) =>
      var next, answer := StoreStep(pc.snapshot, pc.delta), Answer(pc.snapshot, pc.delta);
      s.(pcs := s.pcs[p := Applied(pc.delta, pc.snapshot, next, answer)])
    case OpenTemp(p) =>
      var n := if p in s.nonces then s.nonces[p] else 0;
      s.(nonces := s.nonces[p := n + 1],
         temps := s.temps[TempName(p, n) := Torn],
         pcs := s.pcs[p := Writing(pc.delta, pc.base, pc.next, pc.answer, TempName(p, n))])
    case FillTemp(p) =>
      s.(temps := s.temps[pc.temp := Whole(pc.next)],
         pcs := s.pcs[p := Written(pc.delta, pc.base, pc.next, pc.answer, pc.temp)])
    case FailWrite(p) =>
      s.(temps := if pc.Applied? then s.temps else s.temps - {pc.temp}, pcs := s.pcs[p := Releasing])
    case Rename(p) =>
      s.(disk := s.temps[pc.temp],
         temps := s.temps - {pc.temp},
         log := s.log + [pc.delta],
         bases := s.bases + [pc.base],
         answers := s.answers + [pc.answer],
         pcs := s.pcs[p := Releasing])
    // The guard removes whatever lock file is there now.
    case Unlink(p) => s.(lock := Free, pcs := s.pcs[p := Idle])
    case Crash(p) => s.(pcs := s.pcs[p := Crashed])
  }

  predicate Init(s: State) {
    && s.lock.Free? && !s.disk.Torn? && s.temps == map[]
    && s.log == [] && s.bases == [] && s.answers == [] && s.blanks == {}
    && forall p :: p in s.pcs ==> s.pcs[p].Idle?
  }

  /** The state after taking `acts` in order, if each is enabled in turn. */
  function Exec(s: State, acts: seq<Action>): Option<State> {
    if acts == [] then Some(s)
    else
      var before := Exec(s, acts[..|acts| - 1]);
      if before.Some? && Enabled(before.value, acts[|acts| - 1])
      then Some(Do(before.value, acts[|acts| - 1]))
      else None
  }

  /** A break that does not take the lock file of a process at work. */
  predicate SafeBreak(s: State) {
    s.lock.Held? && s.lock.owner in s.pcs ==> !s.pcs[s.lock.owner].InCritical()
  }

  predicate BreaksAreSafe(s: State, acts: seq<Action>) {
    acts == [] || (
      var before := Exec(s, acts[..|acts| - 1]);
      && BreaksAreSafe(s, acts[..|acts| - 1])
      && (acts[|acts| - 1].Break? && before.Some? ==> SafeBreak(before.value)))
  }

  predicate MutualExclusion(s: State) {
    forall p, q :: p in s.pcs && q in s.pcs && s.pcs[p].InCritical() && s.pcs[q].InCritical() ==> p == q
  }

  // -------------------------------------------- what every run keeps

  /** The store after the first `k` renames: what the last of them wrote. */
  function StoreAfter(init: Store, s: State, k: nat): Store
    requires k <= |s.log| && k <= |s.bases|
  {
    if k == 0 then init else StoreStep(s.bases[k - 1], s.log[k - 1])
  }

  /** What a load with `k` updates in the log may have returned, the store
      being `now`: that store or, if there was an empty load then, nothing. */
  predicate MayLoad(s: State, k: nat, base: Store, now: Store) { base == now || (base == map[] && k in s.blanks) }

  predicate Link(init: Store, s: State, k: nat)
    requires k < |s.log| == |s.bases| == |s.answers|
  {
    MayLoad(s, k, s.bases[k], StoreAfter(init, s, k)) && s.answers[k] == Answer(s.bases[k], s.log[k])
  }

  /** Each update was computed from the store the one before it wrote, except
      at an empty load; and so for the store file, which is whole. */
  ghost predicate Chained(init: Store, s: State) {
    && |s.log| == |s.bases| == |s.answers| && !s.disk.Torn?
    && (forall k :: 0 <= k < |s.log| ==> Link(init, s, k))
    && MayLoad(s, |s.log|, ImageStore(s.disk), StoreAfter(init, s, |s.log|))
  }

  ghost predicate LocalOk(s: State, p: Pid)
    requires p in s.pcs
  {
    var now, pc := ImageStore(s.disk), s.pcs[p];
    && (pc.InCritical() ==> s.lock.Held? && s.lock.owner == p)
    && (pc.Loaded? ==> MayLoad(s, |s.log|, pc.snapshot, now))
    && (pc.Applied? || pc.Writing? || pc.Written? ==>
          && MayLoad(s, |s.log|, pc.base, now)
          && pc.next == StoreStep(pc.base, pc.delta) && pc.answer == Answer(pc.base, pc.delta))
    && (pc.Writing? || pc.Written? ==> pc.temp.pid == p)
    && (pc.Written? ==> pc.temp in s.temps && s.temps[pc.temp] == Whole(pc.next))
  }

  ghost predicate Inv(init: Store, s: State) {
    Chained(init, s) && forall p :: p in s.pcs ==> LocalOk(s, p)
  }

  predicate Allowed(s: State, a: Action) { Enabled(s, a) && (a.Break? ==> SafeBreak(s)) }

  /** Only the lock's owner touches the store or its own temporary files, so
      a step leaves the other processes' views true. */
  lemma OthersKeepLocalOk(init: Store, s: State, a: Action, p: Pid)
    requires Inv(init, s) && Allowed(s, a)
    requires p in s.pcs && (a.Tick? || p != a.p)
    ensures LocalOk(Do(s, a), p)
  {
    assert LocalOk(s, p);
    if !a.Tick? {
      assert LocalOk(s, a.p);
    }
  }

  lemma ActorKeepsLocalOk(init: Store, s: State, a: Action)
    requires Inv(init, s) && Allowed(s, a) && !a.Tick?
    ensures LocalOk(Do(s, a), a.p)
  {
    assert LocalOk(s, a.p);
  }

  lemma StepKeepsLocalOk(init: Store, s: State, a: Action, p: Pid)
    requires Inv(init, s) && Allowed(s, a)
    requires p in Do(s, a).pcs
    ensures LocalOk(Do(s, a), p)
  {
    if a.Tick? || p != a.p {
      OthersKeepLocalOk(init, s, a, p);
    } else {
      ActorKeepsLocalOk(init, s, a);
    }
  }

  /** A rename adds one link. */
  lemma RenameKeepsChained(init: Store, s: State, p: Pid)
    requires Inv(init, s) && Enabled(s, Rename(p))
    ensures Chained(init, Do(s, Rename(p)))
  {
    assert LocalOk(s, p);
    var s' := Do(s, Rename(p));
    forall k | 0 <= k < |s'.log| ensures Link(init, s', k) {
      if k < |s.log| {
        assert Link(init, s, k) && StoreAfter(init, s', k) == StoreAfter(init, s, k);
      } else {
        assert StoreAfter(init, s', k) == StoreAfter(init, s, k);
      }
    }
  }

  lemma OnlyRenamesAddToTheChain(init: Store, s: State, a: Action)
    requires Chained(init, s) && Enabled(s, a) && !a.Rename?
    ensures Chained(init, Do(s, a))
  {
    var s' := Do(s, a);
    assert s'.log == s.log && s'.bases == s.bases && s'.answers == s.answers && s.blanks <= s'.blanks;
    forall k | 0 <= k < |s'.log| ensures Link(init, s', k) {
      assert Link(init, s, k);
    }
  }

  lemma StepKeepsChained(init: Store, s: State, a: Action)
    requires Inv(init, s) && Enabled(s, a)
    ensures Chained(init, Do(s, a))
  {
    if a.Rename? {
      RenameKeepsChained(init, s, a.p);
    } else {
      OnlyRenamesAddToTheChain(init, s, a);
    }
  }

  lemma StepKeepsInv(init: Store, s: State, a: Action)
    requires Inv(init, s) && Allowed(s, a)
    ensures Inv(init, Do(s, a))
  {
    StepKeepsChained(init, s, a);
    forall p | p in Do(s, a).pcs ensures LocalOk(Do(s, a), p) {
      StepKeepsLocalOk(init, s, a, p);
    }
  }

  lemma InvIsExclusive(init: Store, s: State)
    requires Inv(init, s)
    ensures MutualExclusion(s)
  {
    assert forall p :: p in s.pcs ==> LocalOk(s, p);
  }

  /** In every run in which no break takes a working process's lock, with
      processes stopping anywhere and any load refused: one process at most is
      in the critical section, the store file is never torn, and each update
      was computed from the store the one before it wrote unless an empty load
      came between. */
  lemma {:induction false} EveryRunIsChained(s: State, acts: seq<Action>, t: State)
    requires Init(s) && Exec(s, acts) == Some(t) && BreaksAreSafe(s, acts)
    ensures MutualExclusion(t) && Inv(ImageStore(s.disk), t)
  {
    if acts != [] {
      var before := Exec(s, acts[..|acts| - 1]).value;
      EveryRunIsChained(s, acts[..|acts| - 1], before);
      StepKeepsInv(ImageStore(s.disk), before, acts[|acts| - 1]);
    }
    InvIsExclusive(ImageStore(s.disk), t);
  }

  /** Each temporary file belongs to a process that is writing it, or that has
      crashed; none is shared, and none is left behind otherwise. */
  predicate NoStrayTemps(s: State) {
    && (forall p :: p in s.pcs && (s.pcs[p].Writing? || s.pcs[p].Written?) ==> s.pcs[p].temp.pid == p)
    && forall n :: n in s.temps ==>
         && n.pid in s.pcs
         && var pc := s.pcs[n.pid]; pc.Crashed? || ((pc.Writing? || pc.Written?) && pc.temp == n)
  }

  lemma StepKeepsNoStrayTemps(s: State, a: Action)
    requires NoStrayTemps(s) && Enabled(s, a)
    ensures NoStrayTemps(Do(s, a))
  {
  }

  /** Every run, whatever breaks and loads it has, leaves no stray temporary. */
  lemma {:induction false} EveryRunCleansUp(s: State, acts: seq<Action>, t: State)
    requires Init(s) && Exec(s, acts) == Some(t)
    ensures NoStrayTemps(t)
  {
    if acts != [] {
      var before := Exec(s, acts[..|acts| - 1]).value;
      EveryRunCleansUp(s, acts[..|acts| - 1], before);
      StepKeepsNoStrayTemps(before, acts[|acts| - 1]);
    }
  }

  /** In every good state a process that has not stopped may stop, a load may
      get the store or not, a write may fail at any point, and there is always
      a step to go on with. */
  lemma NobodyIsStuck(init: Store, s: State, p: Pid, d: Delta)
    requires Inv(init, s) && p in s.pcs && !s.pcs[p].Crashed?
    ensures Enabled(s, Crash(p))
    ensures match s.pcs[p]
            case Idle => Enabled(s, Begin(p, d))
            case Waiting(_) => if s.lock.Free? then Enabled(s, Create(p)) else Enabled(s, TimeOut(p))
            case Breaking(_, _) => Enabled(s, Break(p))
            case Locked(_) => Enabled(s, Load(p)) && Enabled(s, LoadEmpty(p, true)) && Enabled(s, LoadEmpty(p, false))
            case Loaded(_, _) => Enabled(s, Apply(p))
            case Applied(_, _, _, _) => Enabled(s, OpenTemp(p)) && Enabled(s, FailWrite(p))
            case Writing(_, _, _, _, _) => Enabled(s, FillTemp(p)) && Enabled(s, FailWrite(p))
            case Written(_, _, _, _, _) => Enabled(s, Rename(p)) && Enabled(s, FailWrite(p))
            case Releasing => Enabled(s, Unlink(p))
            case Crashed => true
  {
    assert LocalOk(s, p);
  }

  // ------------------------------------------------ the fold of the updates

  /** The action at `m` is an empty load, with `k` updates in the log. */
  predicate IsEmptyLoad(s: State, acts: seq<Action>, m: nat, k: nat) {
    m < |acts| && acts[m].LoadEmpty? && Exec(s, acts[..m]).Some? && |Exec(s, acts[..m]).value.log| == k
  }

  ghost predicate EmptyLoadAt(s: State, acts: seq<Action>, k: nat) {
    exists m: nat :: IsEmptyLoad(s, acts, m, k)
  }

  /** `blanks` holds exactly the empty loads of the run. */
  lemma {:induction false} BlanksAreEmptyLoads(s: State, acts: seq<Action>, t: State, k: nat)
    requires Init(s) && Exec(s, acts) == Some(t) && k in t.blanks
    ensures EmptyLoadAt(s, acts, k)
  {
    var front, a := acts[..|acts| - 1], acts[|acts| - 1];
    var before := Exec(s, front).value;
    if k in before.blanks {
      BlanksAreEmptyLoads(s, front, before, k);
      var m: nat :| IsEmptyLoad(s, front, m, k);
      assert front[..m] == acts[..m] && IsEmptyLoad(s, acts, m, k);
    } else {
      assert IsEmptyLoad(s, acts, |front|, k);
    }
  }

  /** Every load of the run got the store file. */
  predicate LoadsSucceed(acts: seq<Action>) { forall a :: a in acts ==> !a.LoadEmpty? }

  lemma NoEmptyLoadsNoBlanks(s: State, acts: seq<Action>, t: State)
    requires Init(s) && Exec(s, acts) == Some(t) && LoadsSucceed(acts)
    ensures t.blanks == {}
  {
    if k :| k in t.blanks {
      BlanksAreEmptyLoads(s, acts, t, k);
      assert false;
    }
  }

  /** The store file is whole and is the fold of the committed updates, in
      rename order, and each answer is the one that fold gives. */
  ghost predicate Serial(init: Store, s: State) {
    && !s.disk.Torn? && ImageStore(s.disk) == RunStore(init, s.log)
    && |s.answers| == |s.log|
    && forall i :: 0 <= i < |s.log| ==> s.answers[i] == Answer(RunStore(init, s.log[..i]), s.log[i])
  }

  /** Where the store after `n` renames comes from: all the updates, or those
      since an empty load. */
  ghost predicate IsFold(init: Store, s: State, n: nat, k: Option<nat>)
    requires n <= |s.log| && n <= |s.bases|
  {
    if k.None? then StoreAfter(init, s, n) == RunStore(init, s.log[..n])
    else k.value in s.blanks && k.value < n && StoreAfter(init, s, n) == RunStore(map[], s.log[k.value..n])
  }

  lemma RunStoreLast(init: Store, log: seq<Delta>, from: nat, n: nat)
    requires from < n <= |log|
    ensures RunStore(init, log[from..n]) == StoreStep(RunStore(init, log[from..n - 1]), log[n - 1])
  {
    assert log[from..n][..n - from - 1] == log[from..n - 1];
  }

  lemma FoldGoesOn(init: Store, s: State, n: nat, k: Option<nat>)
    requires 0 < n <= |s.log| && n <= |s.bases| && IsFold(init, s, n - 1, k)
    requires s.bases[n - 1] == StoreAfter(init, s, n - 1)
    ensures IsFold(init, s, n, k)
  {
    if k.None? {
      RunStoreLast(init, s.log, 0, n);
    } else {
      RunStoreLast(map[], s.log, k.value, n);
    }
  }

  lemma FoldStartsAfresh(init: Store, s: State, n: nat)
    requires 0 < n <= |s.log| && n <= |s.bases| && s.bases[n - 1] == map[] && n - 1 in s.blanks
    ensures IsFold(init, s, n, Some(n - 1))
  {
    RunStoreLast(map[], s.log, n - 1, n);
  }

  lemma {:induction false} ChainIsAFold(init: Store, s: State, n: nat) returns (k: Option<nat>)
    requires Chained(init, s) && n <= |s.log|
    ensures IsFold(init, s, n, k)
  {
    if n == 0 {
      k := None;
    } else {
      assert Link(init, s, n - 1);
      if s.bases[n - 1] == StoreAfter(init, s, n - 1) {
        k := ChainIsAFold(init, s, n - 1);
        FoldGoesOn(init, s, n, k);
      } else {
        k := Some(n - 1);
        FoldStartsAfresh(init, s, n);
      }
    }
  }

  /** Without empty loads the chain is one fold. */
  lemma ChainIsSerial(init: Store, s: State)
    requires Chained(init, s) && s.blanks == {}
    ensures Serial(init, s)
  {
    var k := ChainIsAFold(init, s, |s.log|);
    assert s.log[..|s.log|] == s.log;
    forall i | 0 <= i < |s.log| ensures s.answers[i] == Answer(RunStore(init, s.log[..i]), s.log[i]) {
      assert Link(init, s, i);
      var k := ChainIsAFold(init, s, i);
    }
  }

  /** In every run, with processes stopping anywhere, in which no break takes
      a working process's lock and every load gets the store: one process at
      most is in the critical section, and the store is exactly the fold of
      the committed updates. */
  lemma EveryRunIsSerial(s: State, acts: seq<Action>, t: State)
    requires Init(s) && Exec(s, acts) == Some(t) && BreaksAreSafe(s, acts) && LoadsSucceed(acts)
    ensures MutualExclusion(t)
    ensures Serial(ImageStore(s.disk), t)
  {
    EveryRunIsChained(s, acts, t);
    NoEmptyLoadsNoBlanks(s, acts, t);
    ChainIsSerial(ImageStore(s.disk), t);
  }

  /** The store holds the updates from position `k` of the log on, and nothing
      from before it; None: all of them, on top of the initial store. */
  ghost predicate HoldsSuffix(init: Store, s: State, k: Option<nat>) {
    if k.None? then ImageStore(s.disk) == RunStore(init, s.log)
    else k.value <= |s.log| && ImageStore(s.disk) == RunStore(map[], s.log[k.value..])
  }

  /** What empty loads can cost, over every run: the store is always the fold
      of the committed updates, in rename order, either of all of them or of
      those since the log length at some empty load of the run. */
  lemma EveryRunHoldsASuffix(s: State, acts: seq<Action>, t: State) returns (k: Option<nat>)
    requires Init(s) && Exec(s, acts) == Some(t) && BreaksAreSafe(s, acts)
    ensures HoldsSuffix(ImageStore(s.disk), t, k)
    ensures k.Some? ==> EmptyLoadAt(s, acts, k.value)
    ensures LoadsSucceed(acts) ==> k.None?
  {
    EveryRunIsChained(s, acts, t);
    var n := |t.log|;
    assert t.log[..n] == t.log;
    if ImageStore(t.disk) == StoreAfter(ImageStore(s.disk), t, n) {
      k := ChainIsAFold(ImageStore(s.disk), t, n);
      assert k.Some? ==> t.log[k.value..n] == t.log[k.value..];
    } else {
      k := Some(n);
    }
    if k.Some? {
      BlanksAreEmptyLoads(s, acts, t, k.value);
    }
  }

  lemma {:induction false} NoBreakIsSafe(s: State, acts: seq<Action>)
    requires forall a :: a in acts ==> !a.Break?
    ensures BreaksAreSafe(s, acts)
  {
    if acts != [] {
      NoBreakIsSafe(s, acts[..|acts| - 1]);
    }
  }

  // --------------------------------------- breaks that a breaker can check

  /** A working process has held its lock file for less than the stale age. */
  predicate HolderIsQuick(s: State) {
    s.lock.Held? && s.lock.owner in s.pcs && s.pcs[s.lock.owner].InCritical() ==> s.clock < s.lock.created + 30
  }

  /** The file to be removed is still the one that was judged, or is gone. */
  predicate BreaksWhatItJudged(s: State, a: Action) {
    a.Break? && a.p in s.pcs && s.pcs[a.p].Breaking? ==> s.lock.Free? || s.lock == s.pcs[a.p].judged
  }

  /** Every holder finishes or stops within the stale age of its create, and
      every break removes the lock file it judged. */
  predicate Timely(s: State, acts: seq<Action>) {
    acts == [] || (
      var before := Exec(s, acts[..|acts| - 1]);
      && Timely(s, acts[..|acts| - 1])
      && (before.Some? ==> HolderIsQuick(before.value) && BreaksWhatItJudged(before.value, acts[|acts| - 1])))
  }

  /** What a breaker judged was, and so still is, old enough. */
  predicate JudgedStale(s: State) {
    forall p :: p in s.pcs && s.pcs[p].Breaking? ==>
      s.pcs[p].judged.Held? && s.clock >= s.pcs[p].judged.created + LOCK_STALE_SECS
  }

  lemma StepKeepsJudgedStale(s: State, a: Action)
    requires JudgedStale(s) && Enabled(s, a)
    ensures JudgedStale(Do(s, a))
  {
  }

  lemma {:induction false} RunKeepsJudgedStale(s: State, acts: seq<Action>, t: State)
    requires Init(s) && Exec(s, acts) == Some(t)
    ensures JudgedStale(t)
  {
    if acts != [] {
      var before := Exec(s, acts[..|acts| - 1]).value;
      RunKeepsJudgedStale(s, acts[..|acts| - 1], before);
      StepKeepsJudgedStale(before, acts[|acts| - 1]);
    }
  }

  /** Two conditions that the processes can keep by themselves make every
      break safe. */
  lemma {:induction false} TimelyBreaksAreSafe(s: State, acts: seq<Action>)
    requires Init(s) && Exec(s, acts).Some? && Timely(s, acts)
    ensures BreaksAreSafe(s, acts)
  {
    if acts != [] {
      var front := acts[..|acts| - 1];
      TimelyBreaksAreSafe(s, front);
      RunKeepsJudgedStale(s, front, Exec(s, front).value);
    }
  }

  // ------------------------------------------- what an empty load leads to

  /** The record found makes no difference to what the event leaves: every
      field that the event does not overwrite is still as in a new record. */
  predicate FindsNothing(h: Health, e: Event) {
    match e
    case Success(_) =>
      && h.calls == h.failures == 0 && h.lastFailure.None? && h.gate.None?
      && h.provider.None? && h.classification.None? && h.quotaWallUntil.None?
    case ClassifiedSuccess(_, _, _) =>
      h.calls == h.failures == 0 && h.lastFailure.None? && h.gate.None?
    case Failure(_) =>
      && h.calls == h.failures == h.consecutiveFailures == 0 && h.gate.None?
      && h.provider.None? && h.classification.None? && h.quotaWallUntil.None?
    case ClassifiedFailure(_, provider, cls, wall) =>
      && h.calls == h.failures == h.consecutiveFailures == 0 && h.gate.None?
      && (wall.None? ==> h.quotaWallUntil.None?)
      && (provider == "" ==> h.provider.None?)
      && (if cls.SkipsConsult() then h.lastFailure.None? else provider == "" ==> h.classification.None?)
    case GateFailure(_, _, _, _) =>
      h.calls == h.failures == h.consecutiveFailures == 0 && h.quotaWallUntil.None? && OpenCount(h) == 0
    case GateSuccess(_, _) =>
      h.calls == h.failures == h.consecutiveFailures == 0 && h.lastFailure.None? && h.quotaWallUntil.None?
    case Decide(_, _) => h == DEFAULT
  }

  lemma FindsNothingIff(h: Health, e: Event)
    ensures FindsNothing(h, e) <==> Step(h, e) == Step(DEFAULT, e)
  {
  }

  /** The update leaves the same store whether it finds this one or none: no
      other model is recorded, and its own record makes no difference. */
  predicate Indifferent(now: Store, d: Delta) {
    now.Keys <= {d.model} && FindsNothing(Get(now, d.model), d.event)
  }

  /** An empty load, carried through to the rename. */
  function CommitEmpty(s: State, p: Pid, setAside: bool): State
    requires Enabled(s, LoadEmpty(p, setAside))
  {
    var s1 := Do(s, LoadEmpty(p, setAside));
    var s2 := Do(s1, Apply(p));
    var s3 := Do(s2, OpenTemp(p));
    var s4 := Do(s3, FillTemp(p));
    Do(s4, Rename(p))
  }

  lemma CommitEmptyState(s: State, p: Pid, setAside: bool)
    requires Enabled(s, LoadEmpty(p, setAside))
    ensures var t, d := CommitEmpty(s, p, setAside), s.pcs[p].delta;
            && t.disk == Whole(StoreStep(map[], d)) && t.log == s.log + [d]
            && t.answers == s.answers + [Answer(map[], d)]
  {
  }

  lemma IndifferentIff(now: Store, d: Delta)
    ensures Indifferent(now, d) <==> StoreStep(now, d) == StoreStep(map[], d)
    ensures Indifferent(now, d) ==> Answer(now, d) == Answer(map[], d)
  {
    FindsNothingIff(Get(now, d.model), d.event);
    var a, b := StoreStep(now, d), StoreStep(map[], d);
    assert a.Keys == now.Keys + {d.model} && b.Keys == {d.model};
    assert a[d.model] == Step(Get(now, d.model), d.event) && b[d.model] == Step(DEFAULT, d.event);
    if Indifferent(now, d) {
      assert a.Keys == b.Keys;
    }
  }

  /** Exactly when an empty load that is carried through keeps the fold. */
  lemma EmptyLoadIsHarmlessIff(init: Store, s: State, p: Pid, setAside: bool)
    requires Serial(init, s) && Enabled(s, LoadEmpty(p, setAside))
    ensures Serial(init, CommitEmpty(s, p, setAside)) <==> Indifferent(ImageStore(s.disk), s.pcs[p].delta)
  {
    var now, d, t := ImageStore(s.disk), s.pcs[p].delta, CommitEmpty(s, p, setAside);
    CommitEmptyState(s, p, setAside);
    IndifferentIff(now, d);
    assert t.log[..|s.log|] == s.log;
    assert RunStore(init, t.log) == StoreStep(now, d);
    if Indifferent(now, d) {
      AppendKeepsSerial(init, s, t, d);
    }
  }

  lemma AppendKeepsSerial(init: Store, s: State, s': State, d: Delta)
    requires Serial(init, s) && s'.log == s.log + [d]
    requires s'.answers == s.answers + [Answer(ImageStore(s.disk), d)]
    requires s'.disk == Whole(StoreStep(ImageStore(s.disk), d))
    ensures Serial(init, s')
  {
    assert s'.log[..|s.log|] == s.log;
    forall i | 0 <= i < |s'.log| ensures s'.answers[i] == Answer(RunStore(init, s'.log[..i]), s'.log[i]) {
      if i < |s.log| {
        assert s'.log[..i] == s.log[..i];
      }
    }
  }

  /** After the first update is durable, process 2 takes the lock. */
  lemma LockedAfterOneCommit(d1: Delta, d2: Delta) returns (s: State, acts: seq<Action>, t: State)
    ensures Init(s) && Exec(s, acts) == Some(t) && forall a :: a in acts ==> !a.Break?
    ensures t.log == [d1] && t.bases == [map[]] && |t.answers| == 1 && 2 in t.pcs && t.pcs[2] == Locked(d2)
  {
    s, acts, t := OneCommit(d1);
    acts, t := Extend(s, acts, t, Begin(2, d2));
    acts, t := Extend(s, acts, t, Create(2));
  }

  /** And is refused the store. */
  lemma RefusedAfterOneCommit(d1: Delta, d2: Delta, setAside: bool)
    returns (s: State, acts: seq<Action>, t: State)
    ensures Init(s) && Exec(s, acts) == Some(t) && forall a :: a in acts ==> !a.Break?
    ensures t.log == [d1] && t.bases == [map[]] && |t.answers| == 1 && 2 in t.pcs && t.pcs[2].Applied?
    ensures t.pcs[2].delta == d2 && t.pcs[2].next == StoreStep(map[], d2) && t.pcs[2].answer == Answer(map[], d2)
  {
    s, acts, t := LockedAfterOneCommit(d1, d2);
    acts, t := Extend(s, acts, t, LoadEmpty(2, setAside));
    acts, t := Extend(s, acts, t, Apply(2));
  }

  /** A run with no fault but one refused load, and no two processes ever in
      the critical section, that loses a committed update. */
  lemma EmptyLoadLosesAnUpdate(d1: Delta, d2: Delta, setAside: bool)
    returns (s: State, acts: seq<Action>, t: State)
    requires d1.model != d2.model
    ensures Init(s) && Exec(s, acts) == Some(t) && BreaksAreSafe(s, acts) && MutualExclusion(t)
    ensures t.log == [d1, d2] && d1.model !in ImageStore(t.disk) && d2.model in ImageStore(t.disk)
  {
    s, acts, t := RefusedAfterOneCommit(d1, d2, setAside);
    acts, t := Commit(s, acts, t, 2);
    NoBreakIsSafe(s, acts);
    EveryRunIsChained(s, acts, t);
  }

  /** Process 1 has loaded an absent store and applied its update. */
  lemma OneApplied(d: Delta) returns (s: State, acts: seq<Action>, t: State)
    ensures Init(s) && Exec(s, acts) == Some(t) && acts == [Begin(1, d), Create(1), Load(1), Apply(1)]
    ensures t.lock == Held(1, 0) && t.log == [] && t.bases == [] && t.answers == []
    ensures t.pcs.Keys == {1, 2} && t.pcs[2].Idle?
    ensures t.pcs[1].Applied? && t.pcs[1].delta == d && t.pcs[1].base == map[]
  {
    s := State(0, Free, Absent, map[], map[], map[1 := Idle, 2 := Idle], [], [], [], {});
    acts, t := Extend(s, [], s, Begin(1, d));
    acts, t := Extend(s, acts, t, Create(1));
    acts, t := Extend(s, acts, t, Load(1));
    acts, t := Extend(s, acts, t, Apply(1));
  }

  lemma OneCommit(d: Delta) returns (s: State, acts: seq<Action>, t: State)
    ensures Init(s) && Exec(s, acts) == Some(t)
    ensures acts == [Begin(1, d), Create(1), Load(1), Apply(1), OpenTemp(1), FillTemp(1), Rename(1), Unlink(1)]
    ensures t.lock.Free? && t.log == [d] && t.bases == [map[]] && |t.answers| == 1
    ensures t.pcs.Keys == {1, 2} && t.pcs[2].Idle?
  {
    s, acts, t := OneApplied(d);
    acts, t := Commit(s, acts, t, 1);
    acts, t := Extend(s, acts, t, Unlink(1));
  }

  // --------------------------------------- what an unsafe break leads to

  lemma Extend(s: State, acts: seq<Action>, t: State, a: Action) returns (acts': seq<Action>, t': State)
    requires Exec(s, acts) == Some(t) && Enabled(t, a)
    ensures acts' == acts + [a] && t' == Do(t, a) && Exec(s, acts') == Some(t')
  {
    acts', t' := acts + [a], Do(t, a);
    assert acts'[..|acts|] == acts;
  }

  /** The condition is exact: from any state of a good run, a break keeps
      exclusion in the breaker's next two steps if and only if it is safe. */
  lemma BreakKeepsExclusionIff(init: Store, s: State, p: Pid)
    requires Inv(init, s) && Enabled(s, Break(p))
    ensures Enabled(Do(s, Break(p)), Create(p))
    ensures MutualExclusion(Do(Do(s, Break(p)), Create(p))) <==> SafeBreak(s)
  {
    var t := Do(Do(s, Break(p)), Create(p));
    if !SafeBreak(s) {
      var o := s.lock.owner;
      assert t.pcs[o].InCritical() && t.pcs[p].InCritical() && o != p;
    } else {
      StepKeepsInv(init, s, Break(p));
      StepKeepsInv(init, Do(s, Break(p)), Create(p));
      InvIsExclusive(init, t);
    }
  }

  /** A process stops while it holds the lock, and the lock file ages. */
  lemma Abandon(d: Delta) returns (s: State, acts: seq<Action>, t: State)
    ensures Init(s) && s.disk.Absent? && Exec(s, acts) == Some(t)
    ensures t == State(30, Held(0, 0), Absent, map[], map[], map[0 := Crashed, 1 := Idle, 2 := Idle], [], [], [], {})
  {
    s := State(0, Free, Absent, map[], map[], map[0 := Idle, 1 := Idle, 2 := Idle], [], [], [], {});
    acts, t := Extend(s, [], s, Begin(0, d));
    acts, t := Extend(s, acts, t, Create(0));
    acts, t := Extend(s, acts, t, Crash(0));
    acts, t := Extend(s, acts, t, Tick(30));
  }

  /** Two others judge it stale. */
  lemma BothJudgeStale(d1: Delta, d2: Delta) returns (s: State, acts: seq<Action>, t: State)
    ensures Init(s) && s.disk.Absent? && Exec(s, acts) == Some(t)
    ensures t == State(30, Held(0, 0), Absent, map[], map[],
                       map[0 := Crashed, 1 := Breaking(d1, Held(0, 0)), 2 := Breaking(d2, Held(0, 0))], [], [], [], {})
  {
    s, acts, t := Abandon(d1);
    acts, t := Extend(s, acts, t, Begin(1, d1));
    acts, t := Extend(s, acts, t, Begin(2, d2));
    acts, t := Extend(s, acts, t, JudgeStale(1));
    acts, t := Extend(s, acts, t, JudgeStale(2));
  }

  /** Both end up in the critical section: the second breaker removes the
      lock the first has just made. */
  lemma TwoBreakersBothOwn(d1: Delta, d2: Delta) returns (s: State, acts: seq<Action>, t: State)
    ensures Init(s) && s.disk.Absent? && Exec(s, acts) == Some(t)
    ensures t == State(30, Held(2, 30), Absent, map[], map[],
                       map[0 := Crashed, 1 := Locked(d1), 2 := Locked(d2)], [], [], [], {})
    ensures !MutualExclusion(t)
  {
    s, acts, t := BothJudgeStale(d1, d2);
    acts, t := Extend(s, acts, t, Break(1));
    acts, t := Extend(s, acts, t, Create(1));
    acts, t := Extend(s, acts, t, Break(2));
    acts, t := Extend(s, acts, t, Create(2));
    assert t.pcs[1].InCritical() && t.pcs[2].InCritical();
  }

  /** A process that has applied its update can write and rename. */
  lemma Commit(s: State, acts: seq<Action>, t: State, p: Pid) returns (acts': seq<Action>, t': State)
    requires Exec(s, acts) == Some(t) && p in t.pcs && t.pcs[p].Applied?
    ensures Exec(s, acts') == Some(t') && t'.disk == Whole(t.pcs[p].next) && t'.log == t.log + [t.pcs[p].delta]
    ensures t'.pcs == t.pcs[p := Releasing] && t'.lock == t.lock
    ensures t'.bases == t.bases + [t.pcs[p].base] && t'.answers == t.answers + [t.pcs[p].answer]
    ensures acts' == acts + [OpenTemp(p), FillTemp(p), Rename(p)]
  {
    acts', t' := Extend(s, acts, t, OpenTemp(p));
    acts', t' := Extend(s, acts', t', FillTemp(p));
    acts', t' := Extend(s, acts', t', Rename(p));
  }

  /** The same run goes on to lose an update: both renames succeed, and the
      store no longer holds what the first one wrote. */
  lemma TwoBreakersLoseAnUpdate(d1: Delta, d2: Delta) returns (s: State, acts: seq<Action>, t: State)
    requires d1.model != d2.model
    ensures Init(s) && Exec(s, acts) == Some(t)
    ensures t.log == [d1, d2] && d1.model !in ImageStore(t.disk) && d2.model in ImageStore(t.disk)
  {
    s, acts, t := TwoBreakersBothOwn(d1, d2);
    acts, t := Extend(s, acts, t, Load(1));
    acts, t := Extend(s, acts, t, Load(2));
    acts, t := Extend(s, acts, t, Apply(1));
    acts, t := Extend(s, acts, t, Apply(2));
    acts, t := Commit(s, acts, t, 1);
    acts, t := Commit(s, acts, t, 2);
  }

  // ------------------------------------------- the gate, over every run

  predicate Admits(s: State, i: nat, m: string)
    requires |s.answers| == |s.log|
  {
    i < |s.log| && s.log[i].model == m && s.log[i].event.Decide? && s.answers[i] == Some(NeedsProbe(true))
  }

  /** Nothing recorded for `m` between positions `i` and `j` ends what the
      entry at `i` did to its gate. */
  predicate NoOutcome(log: seq<Delta>, i: nat, j: nat, m: string)
    requires j <= |log|
  {
    forall k :: i < k < j && log[k].model == m ==> !log[k].event.GateOutcome()
  }

  /** The gate is lost, or still claimed since `t`. */
  predicate LostOrClaimed(h: Health, t: I64) { h.gate.None? || ClaimedSince(h, t) }

  /** A store that was lost has no gate; one that was not is the last one. */
  lemma BaseOf(init: Store, s: State, k: nat, m: string)
    requires Chained(init, s) && k < |s.log|
    ensures var h := Get(s.bases[k], m);
            h == Get(StoreAfter(init, s, k), m) || (h.gate.None? && k in s.blanks)
  {
    assert Link(init, s, k);
  }

  lemma LostOrClaimedStep(h: Health, e: Event, t: I64)
    requires LostOrClaimed(h, t) && !e.GateOutcome()
    requires e.Decide? && PrecheckAt(h, e.at, e.ttl) == NeedsProbe(true) ==> e.at <= I64_MAX - GATE_HALF_OPEN_CLAIM_SECS
    ensures LostOrClaimed(Step(h, e), t)
  {
    if h.gate.None? {
      GateOutcomeStep(h, e);
    } else {
      ClaimSurvives(h, e, t);
    }
  }

  /** After the admission at `i`, the gate stays claimed, or is lost, up to
      position `j`. */
  lemma {:induction false} ClaimLasts(init: Store, s: State, i: nat, j: nat, m: string)
    requires Chained(init, s) && i < j <= |s.log| && Admits(s, i, m) && NoOutcome(s.log, i, j, m)
    requires forall k :: i <= k < j && Admits(s, k, m) ==>
               s.log[k].event.at <= I64_MAX - GATE_HALF_OPEN_CLAIM_SECS
    ensures LostOrClaimed(Get(StoreAfter(init, s, j), m), s.log[i].event.at)
  {
    var h, e := Get(s.bases[j - 1], m), s.log[j - 1].event;
    assert Link(init, s, j - 1);
    if j == i + 1 {
      ClaimHoldsUnlessTheClockWraps(h, e.at, e.ttl);
    } else {
      ClaimLasts(init, s, i, j - 1, m);
      BaseOf(init, s, j - 1, m);
      if s.log[j - 1].model == m {
        assert e.Decide? && PrecheckAt(h, e.at, e.ttl) == NeedsProbe(true) ==> Admits(s, j - 1, m);
        LostOrClaimedStep(h, e, s.log[i].event.at);
      }
    }
  }

  /** Two half-open admissions of a model with no gate outcome recorded
      between them are at least 60 s apart, whichever processes took them,
      whatever their clocks say and whichever loads came back empty. */
  lemma HalfOpenAdmissionsAreSpaced(s: State, acts: seq<Action>, t: State, i: nat, j: nat, m: string)
    requires Init(s) && Exec(s, acts) == Some(t) && BreaksAreSafe(s, acts)
    requires |t.answers| == |t.log| && i < j && Admits(t, i, m) && Admits(t, j, m) && NoOutcome(t.log, i, j, m)
    requires forall k :: i <= k < j && Admits(t, k, m) ==>
               t.log[k].event.at <= I64_MAX - GATE_HALF_OPEN_CLAIM_SECS
    ensures t.log[j].event.at >= t.log[i].event.at + 60
  {
    var init := ImageStore(s.disk);
    EveryRunIsChained(s, acts, t);
    ClaimLasts(init, t, i, j, m);
    BaseOf(init, t, j, m);
    assert Link(init, t, j);
  }

  /** The backoff horizon that the gate failure at position `i` recorded. */
  function HorizonSetAt(s: State, i: nat): I64
    requires i < |s.log| == |s.bases| && s.log[i].event.GateFailure?
  {
    Horizon(OpenCount(Get(s.bases[i], s.log[i].model)) + 1, s.log[i].event)
  }

  /** The gate is lost, or still shut until `u`. */
  predicate LostOrShut(h: Health, u: I64) { h.gate.None? || ShutUntil(h, u) }

  lemma LostOrShutStep(h: Health, e: Event, u: I64)
    requires LostOrShut(h, u) && !e.GateOutcome()
    ensures LostOrShut(Step(h, e), u) && (h.gate.Some? ==> Step(h, e).gate.Some?)
  {
    GateOutcomeStep(h, e);
    if h.gate.Some? {
      ShutSurvives(h, e, u);
    }
  }

  /** After the failure at `i`, the gate stays shut, or is lost, up to position
      `j`; and it is lost only through an empty load on the way. */
  lemma {:induction false} ShutLasts(init: Store, s: State, i: nat, j: nat, m: string)
    requires Chained(init, s) && i < j <= |s.log| && s.log[i].model == m && s.log[i].event.GateFailure?
    requires NoOutcome(s.log, i, j, m)
    ensures LostOrShut(Get(StoreAfter(init, s, j), m), HorizonSetAt(s, i))
    ensures Get(StoreAfter(init, s, j), m).gate.None? ==> exists k :: i < k < j && k in s.blanks
  {
    if j == i + 1 {
      FailureShuts(Get(s.bases[i], m), s.log[i].event);
    } else {
      ShutLasts(init, s, i, j - 1, m);
      BaseOf(init, s, j - 1, m);
      if s.log[j - 1].model == m {
        LostOrShutStep(Get(s.bases[j - 1], m), s.log[j - 1].event, HorizonSetAt(s, i));
      }
    }
  }

  /** The decision at `j` follows the failure at `i`, the latest outcome of
      its model. */
  predicate DecidesAfterFailure(s: State, i: nat, j: nat, m: string) {
    && i < j < |s.log| == |s.bases| == |s.answers| && s.log[i].model == s.log[j].model == m
    && s.log[i].event.GateFailure? && s.log[j].event.Decide? && NoOutcome(s.log, i, j, m)
  }

  /** What the store that the decision read holds of the model's gate. */
  lemma ReadAfterFailure(init: Store, s: State, i: nat, j: nat, m: string)
    requires Chained(init, s) && DecidesAfterFailure(s, i, j, m)
    ensures LostOrShut(Get(s.bases[j], m), HorizonSetAt(s, i))
    ensures Get(s.bases[j], m).gate.None? ==> exists k :: i < k <= j && k in s.blanks
    ensures s.answers[j] == Some(PrecheckAt(Get(s.bases[j], m), s.log[j].event.at, s.log[j].event.ttl))
  {
    ShutLasts(init, s, i, j, m);
    BaseOf(init, s, j, m);
    assert Link(init, s, j);
  }

  /** In every run, empty loads included: no half-open probe is admitted before
      the horizon of the model's latest recorded failure; and any answer but a
      skip comes before it exactly when the store the decision read has lost
      the model's gate. */
  lemma EarlyAnswerIff(s: State, acts: seq<Action>, t: State, i: nat, j: nat, m: string)
    requires Init(s) && Exec(s, acts) == Some(t) && BreaksAreSafe(s, acts) && DecidesAfterFailure(t, i, j, m)
    ensures t.answers[j].Some?
    ensures t.answers[j].value == NeedsProbe(true) ==> t.log[j].event.at >= HorizonSetAt(t, i)
    ensures t.log[j].event.at < HorizonSetAt(t, i) ==>
              (!t.answers[j].value.Skip? <==> Get(t.bases[j], m).gate.None?)
  {
    EveryRunIsChained(s, acts, t);
    ReadAfterFailure(ImageStore(s.disk), t, i, j, m);
  }

  /** That needs an empty load after the failure's rename and not after the
      decision's. */
  lemma LostGateNeedsAnEmptyLoad(s: State, acts: seq<Action>, t: State, i: nat, j: nat, m: string) returns (k: nat)
    requires Init(s) && Exec(s, acts) == Some(t) && BreaksAreSafe(s, acts) && DecidesAfterFailure(t, i, j, m)
    requires Get(t.bases[j], m).gate.None?
    ensures i < k <= j && EmptyLoadAt(s, acts, k)
  {
    EveryRunIsChained(s, acts, t);
    ReadAfterFailure(ImageStore(s.disk), t, i, j, m);
    k :| i < k <= j && k in t.blanks;
    BlanksAreEmptyLoads(s, acts, t, k);
  }

  /** No decision after a recorded failure (the latest outcome of its model)
      admits a query before that failure's backoff horizon, if the loads
      between the two renames get the store. */
  lemma NoAdmissionBeforeTheHorizon(s: State, acts: seq<Action>, t: State, i: nat, j: nat, m: string)
    requires Init(s) && Exec(s, acts) == Some(t) && BreaksAreSafe(s, acts) && DecidesAfterFailure(t, i, j, m)
    requires forall k :: i < k <= j ==> !EmptyLoadAt(s, acts, k)
    ensures t.answers[j].Some?
    ensures t.answers[j].value.Skip? || t.log[j].event.at >= HorizonSetAt(t, i)
  {
    EarlyAnswerIff(s, acts, t, i, j, m);
    if Get(t.bases[j], m).gate.None? {
      var k := LostGateNeedsAnEmptyLoad(s, acts, t, i, j, m);
      assert false;
    }
  }

  /** A run, with the lock held correctly throughout, in which a decision is
      let through 4999 s before the Retry-After it should have honoured. */
  lemma EmptyLoadForgetsRetryAfter(m: string, ttl: I64, setAside: bool)
    returns (s: State, acts: seq<Action>, t: State)
    ensures Init(s) && Exec(s, acts) == Some(t) && BreaksAreSafe(s, acts)
    ensures DecidesAfterFailure(t, 0, 1, m) && HorizonSetAt(t, 0) == 5000 && t.log[1].event.at == 1
    ensures t.answers[1] == Some(NeedsProbe(false))
  {
    var failure, decision := Delta(m, GateFailure(0, "p", Capacity, Some(5000))), Delta(m, Decide(1, ttl));
    s, acts, t := RefusedAfterOneCommit(failure, decision, setAside);
    acts, t := Commit(s, acts, t, 2);
    NoBreakIsSafe(s, acts);
    assert Answer(map[], decision) == Some(NeedsProbe(false));
  }
}

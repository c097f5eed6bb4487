/** The session store's writers, as a state machine with lock-file inodes.
    A writer opens the sidecar (making it if absent), waits for the exclusive
    lock on the inode it opened, loads, commits by rename, removes the sidecar
    by name, and only then closes its descriptor and so gives up the lock. */
module SessionLock {
  import opened FixedWidth
  import opened Sets
  import opened SessionStore

  type Pid = nat
  type Ino = nat

  datatype Op =
    | Save(scope: Scope, id: string, now: I64)
    | Clear(scope: Scope)
    | Prune(now: I64)

  /** The change an operation makes to the index it loaded, and whether it
      asks for a write at all. */
  function Mutate(m: Index, cfg: Config, op: Op): Index {
    match op
    case Save(scope, id, now) => Saved(m, cfg, scope, id, now)
    case Clear(scope) => m - {scope}
    case Prune(now) => Kept(m, cfg, now)
  }

  predicate NeedsWrite(m: Index, cfg: Config, op: Op) {
    match op
    case Save(_, _, _) => true
    case Clear(scope) => scope in m
    case Prune(now) => |m| - |Kept(m, cfg, now)| > 0
  }

  /** What each operation does to each scope. A clear removes its own scope and
      no other. A save stores its record unless rivals outnumber the cap; it
      and a prune keep the others' fresh records as they were, all of them if
      they fit, and add nothing else. */
  lemma OperationByScope(m: Index, cfg: Config, op: Op, k: Scope)
    ensures var m' := Mutate(m, cfg, op);
            match op
            case Clear(scope) => if k == scope then k !in m' else Same(m, m', k)
            case Save(scope, id, now) =>
              if k == scope then
                if |Rivals(m, cfg, scope, now)| < cfg.maxEntries then k in m' && m'[k] == Record(scope, id, now)
                else k !in m'
              else
                && (k in m' ==> k in m && Fresh(m[k], cfg, now) && m'[k] == m[k])
                && (|FreshOthers(m, cfg, scope, now)| < cfg.maxEntries && k in m && Fresh(m[k], cfg, now) ==> k in m')
            case Prune(now) =>
              && (k in m' ==> k in m && Fresh(m[k], cfg, now) && m'[k] == m[k])
              && (|FreshPart(m, cfg, now)| <= cfg.maxEntries && k in m && Fresh(m[k], cfg, now) ==> k in m')
  {
    match op
    case Clear(_) =>
    case Save(scope, id, now) =>
      SavedIsKeptIff(m, cfg, scope, id, now);
      FreshAfterInsert(m, cfg, scope, id, now);
      if |FreshOthers(m, cfg, scope, now)| < cfg.maxEntries {
        NewestUnderTheCap(FreshPart(m[scope := Record(scope, id, now)], cfg, now), cfg.maxEntries);
      }
    case Prune(now) =>
      if |FreshPart(m, cfg, now)| <= cfg.maxEntries {
        NewestUnderTheCap(FreshPart(m, cfg, now), cfg.maxEntries);
      }
  }

  predicate Same(m: Index, m': Index, k: Scope) { (k in m <==> k in m') && (k in m ==> m'[k] == m[k]) }

  /** Skipping the write loses nothing. */
  lemma SkippedWriteIsIdentity(m: Index, cfg: Config, op: Op)
    ensures !NeedsWrite(m, cfg, op) ==> Mutate(m, cfg, op) == m
  {
    if op.Prune? {
      var kept := Kept(m, cfg, op.now);
      SubsetSize(kept.Keys, m.Keys);
    }
  }

  datatype PC =
    | Idle
    | Waiting(op: Op, ino: Ino)
    | Granted(op: Op, ino: Ino)
    | Loaded(op: Op, ino: Ino, snapshot: Index, refused: bool)
    | Committed(op: Op, ino: Ino, ok: bool)
    | Unlinked(op: Op, ino: Ino, ok: bool)
    | Done(op: Op, ok: bool)
    | Crashed
  {
    predicate HoldsLock() { Granted? || Loaded? || Committed? || Unlinked? }

    /** From the grant to the removal of the sidecar. */
    predicate Critical() { Granted? || Loaded? || Committed? }

    predicate HasOpen() { Waiting? || HoldsLock() }
  }

  /** A committed operation; `refused`: it did not get the data file. */
  datatype Entry = Entry(p: Pid, op: Op, refused: bool)

  datatype State = State(
    cfg: Config,
    path: Option<Ino>,
    nextIno: Ino,
    disk: Index,
    pcs: map<Pid, PC>,
    log: seq<Entry>)

  datatype Action =
    | Open(p: Pid, op: Op)
    | Grant(p: Pid)
    | TimeOut(p: Pid)
    | Load(p: Pid)
    | LoadEmpty(p: Pid)
    | Commit(p: Pid)
    | FailWrite(p: Pid)
    | Unlink(p: Pid)
    | Close(p: Pid)
    | Crash(p: Pid)
    | Again(p: Pid)

  predicate Enabled(s: State, a: Action) {
    a.p in s.pcs &&
    var pc := s.pcs[a.p];
    match a
    case Open(_, _) => pc.Idle?
    case Grant(_) => pc.Waiting? && forall q :: q in s.pcs && s.pcs[q].HoldsLock() ==> s.pcs[q].ino != pc.ino
    case TimeOut(_) => pc.Waiting?
    case Load(_) => pc.Granted?
    case LoadEmpty(_) => pc.Granted?
    case Commit(_) => pc.Loaded?
    case FailWrite(_) => pc.Loaded?
    case Unlink(_) => pc.Committed?
    case Close(_) => pc.Unlinked?
    case Crash(_) => !pc.Crashed?
    case Again(_) => pc.Done?
  }

  function Do(s: State, a: Action): State
    requires Enabled(s, a)
  {
    var pc := s.pcs[a.p];
    match a
    case Open(p, op) =>
      if s.path.Some? then s.(pcs := s.pcs[p := Waiting(op, s.path.value)])
      else s.(path := Some(s.nextIno), nextIno := s.nextIno + 1, pcs := s.pcs[p := Waiting(op, s.nextIno)])
    case Grant(p) => s.(pcs := s.pcs[p := Granted(pc.op, pc.ino)])
    case TimeOut(p) => s.(pcs := s.pcs[p := Done(pc.op, false)])
    case Load(p) => s.(pcs := s.pcs[p := Loaded(pc.op, pc.ino, s.disk, false)])
    // A data file that cannot be read or parsed counts as an empty index.
    case LoadEmpty(p) => s.(pcs := s.pcs[p := Loaded(pc.op, pc.ino, map[], true)])
    case Commit(p) =>
      s.(disk := if NeedsWrite(pc.snapshot, s.cfg, pc.op) then Mutate(pc.snapshot, s.cfg, pc.op) else s.disk,
         log := s.log + [Entry(p, pc.op, pc.refused)],
         pcs := s.pcs[p := Committed(pc.op, pc.ino, true)])
    case FailWrite(p) => s.(pcs := s.pcs[p := Committed(pc.op, pc.ino, false)])
    // Removes the name, whichever inode it stands for now.
    case Unlink(p) => s.(path := None, pcs := s.pcs[p := Unlinked(pc.op, pc.ino, pc.ok)])
    case Close(p) => s.(pcs := s.pcs[p := Done(pc.op, pc.ok)])
    // The kernel closes the descriptor; the sidecar stays behind.
    case Crash(p) => s.(pcs := s.pcs[p := Crashed])
    case Again(p) => s.(pcs := s.pcs[p := Idle])
  }

  predicate Init(s: State) {
    // An earlier crash may have left a sidecar behind.
    && (s.path.Some? ==> s.path.value < s.nextIno)
    && s.log == [] && forall p :: p in s.pcs ==> s.pcs[p].Idle?
  }

  function Exec(s: State, acts: seq<Action>): Option<State> {
    if acts == [] then Some(s)
    else
      var before := Exec(s, acts[..|acts| - 1]);
      if before.Some? && Enabled(before.value, acts[|acts| - 1])
      then Some(Do(before.value, acts[|acts| - 1]))
      else None
  }

  /** The committed operations, each applied to what the one before left. */
  function Fold(m: Index, cfg: Config, log: seq<Entry>): Index {
    if log == [] then m else Mutate(Fold(m, cfg, log[..|log| - 1]), cfg, log[|log| - 1].op)
  }

  /** What an operation that was refused the data file leaves on disk. */
  function Refused(m: Index, cfg: Config, op: Op): Index {
    if NeedsWrite(map[], cfg, op) then Mutate(map[], cfg, op) else m
  }

  function Serve(m: Index, cfg: Config, e: Entry): Index {
    if e.refused then Refused(m, cfg, e.op) else Mutate(m, cfg, e.op)
  }

  /** The fold with the refused operations doing what a refused one does. */
  function Served(m: Index, cfg: Config, log: seq<Entry>): Index {
    if log == [] then m else Serve(Served(m, cfg, log[..|log| - 1]), cfg, log[|log| - 1])
  }

  predicate NoneRefused(log: seq<Entry>) { forall e :: e in log ==> !e.refused }

  lemma {:induction false} ServedIsFold(m: Index, cfg: Config, log: seq<Entry>)
    requires NoneRefused(log)
    ensures Served(m, cfg, log) == Fold(m, cfg, log)
  {
    if log != [] {
      assert log[|log| - 1] in log;
      ServedIsFold(m, cfg, log[..|log| - 1]);
    }
  }

  /** A writer that has not stopped may stop, a wait may end in a grant or in a
      timeout, a load may get the data file or not, a write may fail, and there
      is always a step to go on with. */
  lemma NobodyIsStuck(s: State, p: Pid, op: Op)
    requires p in s.pcs && !s.pcs[p].Crashed?
    ensures Enabled(s, Crash(p))
    ensures match s.pcs[p]
            case Idle => Enabled(s, Open(p, op))
            case Waiting(_, ino) =>
              && Enabled(s, TimeOut(p))
              && (Enabled(s, Grant(p)) <==> !exists q :: q in s.pcs && s.pcs[q].HoldsLock() && s.pcs[q].ino == ino)
            case Granted(_, _) => Enabled(s, Load(p)) && Enabled(s, LoadEmpty(p))
            case Loaded(_, _, _, _) => Enabled(s, Commit(p)) && Enabled(s, FailWrite(p))
            case Committed(_, _, _) => Enabled(s, Unlink(p))
            case Unlinked(_, _, _) => Enabled(s, Close(p))
            case Done(_, _) => Enabled(s, Again(p))
            case Crashed => true
  {
  }

  // ------------------------------------------------------------ invariants

  predicate Exclusive(s: State) {
    forall p, q :: p in s.pcs && q in s.pcs && s.pcs[p].Critical() && s.pcs[q].Critical() ==> p == q
  }

  predicate OneHolderPerInode(s: State) {
    forall p, q :: p in s.pcs && q in s.pcs && p != q && s.pcs[p].HoldsLock() && s.pcs[q].HoldsLock() ==>
      s.pcs[p].ino != s.pcs[q].ino
  }

  /** The kernel's promise, kept by every step whatever the processes do. */
  lemma StepKeepsOneHolder(s: State, a: Action)
    requires OneHolderPerInode(s) && Enabled(s, a)
    ensures OneHolderPerInode(Do(s, a))
  {
  }

  /** The store is what the committed operations, one after the other, leave,
      and every loaded index is the store or comes of a refused read. */
  ghost predicate Serial(init: Index, s: State) {
    && s.disk == Served(init, s.cfg, s.log)
    && forall p :: p in s.pcs && s.pcs[p].Loaded? ==>
         s.pcs[p].snapshot == if s.pcs[p].refused then map[] else s.disk
  }

  /** What a commit leaves on disk, the write skipped or not. */
  lemma WrittenIsServed(m: Index, cfg: Config, e: Entry, snapshot: Index)
    requires snapshot == if e.refused then map[] else m
    ensures (if NeedsWrite(snapshot, cfg, e.op) then Mutate(snapshot, cfg, e.op) else m) == Serve(m, cfg, e)
  {
    SkippedWriteIsIdentity(m, cfg, e.op);
  }

  lemma ServedLast(m: Index, cfg: Config, log: seq<Entry>, e: Entry)
    ensures Served(m, cfg, log + [e]) == Serve(Served(m, cfg, log), cfg, e)
  {
    assert (log + [e])[..|log|] == log;
  }

  lemma CommitKeepsSerial(init: Index, s: State, p: Pid)
    requires Serial(init, s) && Exclusive(s) && Enabled(s, Commit(p))
    ensures Serial(init, Do(s, Commit(p)))
  {
    var s', pc := Do(s, Commit(p)), s.pcs[p];
    var e := Entry(p, pc.op, pc.refused);
    WrittenIsServed(s.disk, s.cfg, e, pc.snapshot);
    ServedLast(init, s.cfg, s.log, e);
    assert pc.Critical();
    assert forall q :: q in s'.pcs && s'.pcs[q].Loaded? ==> s.pcs[q].Critical() && q != p;
  }

  lemma StepKeepsSerial(init: Index, s: State, a: Action)
    requires Serial(init, s) && Exclusive(s) && Enabled(s, a)
    ensures Serial(init, Do(s, a)) && Do(s, a).cfg == s.cfg
  {
    if a.Commit? {
      CommitKeepsSerial(init, s, a.p);
    } else {
      var s' := Do(s, a);
      assert s'.disk == s.disk && s'.log == s.log && s'.cfg == s.cfg;
    }
  }

  /** Every load of the run got the data file. */
  predicate LoadsSucceed(acts: seq<Action>) { forall a :: a in acts ==> !a.LoadEmpty? }

  predicate NothingRefused(s: State) {
    NoneRefused(s.log) && forall p :: p in s.pcs && s.pcs[p].Loaded? ==> !s.pcs[p].refused
  }

  lemma StepKeepsNothingRefused(s: State, a: Action)
    requires NothingRefused(s) && Enabled(s, a) && !a.LoadEmpty?
    ensures NothingRefused(Do(s, a))
  {
  }

  lemma {:induction false} LoadsThatSucceed(s: State, acts: seq<Action>, t: State)
    requires Init(s) && Exec(s, acts) == Some(t) && LoadsSucceed(acts)
    ensures NothingRefused(t)
  {
    if acts != [] {
      var front, a := acts[..|acts| - 1], acts[|acts| - 1];
      assert LoadsSucceed(front) && a in acts;
      LoadsThatSucceed(s, front, Exec(s, front).value);
      StepKeepsNothingRefused(Exec(s, front).value, a);
    }
  }

  /** If every load gets the data file, the store is the plain fold. */
  lemma SerialIsFold(s: State, acts: seq<Action>, t: State)
    requires Init(s) && Exec(s, acts) == Some(t) && LoadsSucceed(acts) && Serial(s.disk, t)
    ensures t.disk == Fold(s.disk, t.cfg, t.log)
  {
    LoadsThatSucceed(s, acts, t);
    ServedIsFold(s.disk, t.cfg, t.log);
  }

  // ------------------------------- any number of writers, live grants only

  /** The inode `p` waits for is still the one the sidecar's name stands for. */
  predicate Live(s: State, p: Pid) {
    p in s.pcs && s.pcs[p].Waiting? && s.path == Some(s.pcs[p].ino)
  }

  predicate GrantsAreLive(s: State, acts: seq<Action>) {
    acts == [] || (
      var before := Exec(s, acts[..|acts| - 1]);
      && GrantsAreLive(s, acts[..|acts| - 1])
      && (acts[|acts| - 1].Grant? && before.Some? ==> Live(before.value, acts[|acts| - 1].p)))
  }

  /** Critical writers hold the named inode; removed inodes stay unnamed. */
  predicate Named(s: State) {
    && (s.path.Some? ==> s.path.value < s.nextIno)
    && forall p :: p in s.pcs ==>
         && (s.pcs[p].HasOpen() ==> s.pcs[p].ino < s.nextIno)
         && (s.pcs[p].Critical() ==> s.path == Some(s.pcs[p].ino))
         && (s.pcs[p].Unlinked? ==> s.path != Some(s.pcs[p].ino))
  }

  lemma NamedIsExclusive(s: State)
    requires Named(s) && OneHolderPerInode(s)
    ensures Exclusive(s)
  {
  }

  lemma StepKeepsNamed(s: State, a: Action)
    requires Named(s) && OneHolderPerInode(s) && Enabled(s, a)
    requires a.Grant? ==> Live(s, a.p)
    ensures Named(Do(s, a))
  {
    NamedIsExclusive(s);
    if a.Unlink? {
      assert s.pcs[a.p].Critical();
    }
  }

  /** If every grant is of an inode still named, then in every run of any
      number of writers, refused reads included, one at most is critical and
      the store is what the committed operations leave in turn; if every load
      gets the data file, that is their plain fold. */
  lemma {:induction false} LiveGrantsSerialise(s: State, acts: seq<Action>, t: State)
    requires Init(s) && Exec(s, acts) == Some(t) && GrantsAreLive(s, acts)
    ensures Exclusive(t) && OneHolderPerInode(t) && Named(t) && t.cfg == s.cfg
    ensures Serial(s.disk, t)
    ensures LoadsSucceed(acts) ==> t.disk == Fold(s.disk, t.cfg, t.log)
  {
    if acts != [] {
      var before, a := Exec(s, acts[..|acts| - 1]).value, acts[|acts| - 1];
      LiveGrantsSerialise(s, acts[..|acts| - 1], before);
      StepKeepsOneHolder(before, a);
      StepKeepsNamed(before, a);
      StepKeepsSerial(s.disk, before, a);
    }
    NamedIsExclusive(t);
    if LoadsSucceed(acts) {
      SerialIsFold(s, acts, t);
    }
  }

  /** The hypothesis is exact: in a good state with an idle writer `q` about,
      a grant keeps exclusion through `q`'s arrival if and only if it is live. */
  lemma GrantKeepsExclusionIff(s: State, p: Pid, q: Pid, op: Op)
    requires Named(s) && OneHolderPerInode(s) && Enabled(s, Grant(p)) && q in s.pcs && s.pcs[q].Idle?
    ensures Live(s, p) ==> Named(Do(s, Grant(p))) && Exclusive(Do(s, Grant(p)))
    ensures !Live(s, p) ==>
              || !Exclusive(Do(s, Grant(p)))
              || (&& Enabled(Do(Do(s, Grant(p)), Open(q, op)), Grant(q))
                  && !Exclusive(Do(Do(Do(s, Grant(p)), Open(q, op)), Grant(q))))
  {
    var s1 := Do(s, Grant(p));
    StepKeepsOneHolder(s, Grant(p));
    if Live(s, p) {
      StepKeepsNamed(s, Grant(p));
      NamedIsExclusive(s1);
    } else if Exclusive(s1) {
      var s2 := Do(s1, Open(q, op));
      assert s1.pcs[p].Critical();
      assert forall r :: r in s1.pcs && s1.pcs[r].Critical() ==> r == p;
      assert Enabled(s2, Grant(q));
      var s3 := Do(s2, Grant(q));
      assert s3.pcs[p].Critical() && s3.pcs[q].Critical();
    }
  }

  // ----------------------------------------- the race with three writers

  lemma Extend(s: State, acts: seq<Action>, t: State, a: Action) returns (acts': seq<Action>, t': State)
    requires Exec(s, acts) == Some(t) && Enabled(t, a)
    ensures acts' == acts + [a] && t' == Do(t, a) && Exec(s, acts') == Some(t')
  {
    acts', t' := acts + [a], Do(t, a);
    assert acts'[..|acts|] == acts;
  }

  /** Writer 1 holds the lock and writer 2 waits on the same inode. */
  lemma OneHoldsOneWaits(cfg: Config, op1: Op, op2: Op) returns (s: State, acts: seq<Action>, t: State)
    ensures Init(s) && s.disk == map[] && Exec(s, acts) == Some(t)
    ensures t == State(cfg, Some(0), 1, map[], map[1 := Granted(op1, 0), 2 := Waiting(op2, 0), 3 := Idle], [])
  {
    s := State(cfg, None, 0, map[], map[1 := Idle, 2 := Idle, 3 := Idle], []);
    acts, t := Extend(s, [], s, Open(1, op1));
    acts, t := Extend(s, acts, t, Grant(1));
    acts, t := Extend(s, acts, t, Open(2, op2));
  }

  /** Writer 1 commits while writer 2 waits on the same inode. */
  lemma CommitWithAWaiter(cfg: Config, op1: Op, op2: Op) returns (s: State, acts: seq<Action>, t: State)
    requires op1.Save?
    ensures Init(s) && s.disk == map[] && Exec(s, acts) == Some(t)
    ensures t == State(cfg, Some(0), 1, Mutate(map[], cfg, op1),
                       map[1 := Committed(op1, 0, true), 2 := Waiting(op2, 0), 3 := Idle], [Entry(1, op1, false)])
  {
    s, acts, t := OneHoldsOneWaits(cfg, op1, op2);
    acts, t := Extend(s, acts, t, Load(1));
    acts, t := Extend(s, acts, t, Commit(1));
  }

  /** Writer 1 removes the sidecar and closes; writer 2 is then granted an
      inode that has no name. */
  lemma StaleGrant(cfg: Config, op1: Op, op2: Op) returns (s: State, acts: seq<Action>, t: State)
    requires op1.Save?
    ensures Init(s) && s.disk == map[] && Exec(s, acts) == Some(t)
    ensures t == State(cfg, None, 1, Mutate(map[], cfg, op1),
                       map[1 := Done(op1, true), 2 := Granted(op2, 0), 3 := Idle], [Entry(1, op1, false)])
  {
    s, acts, t := CommitWithAWaiter(cfg, op1, op2);
    acts, t := Extend(s, acts, t, Unlink(1));
    acts, t := Extend(s, acts, t, Close(1));
    acts, t := Extend(s, acts, t, Grant(2));
  }

  /** Writer 3 makes a new sidecar and is granted it at once: writers 2 and 3
      load the same index. */
  lemma BothLoad(cfg: Config, op1: Op, op2: Op, op3: Op) returns (s: State, acts: seq<Action>, t: State)
    requires op1.Save?
    ensures Init(s) && s.disk == map[] && Exec(s, acts) == Some(t)
    ensures var m1 := Mutate(map[], cfg, op1);
            t == State(cfg, Some(1), 2, m1,
                       map[1 := Done(op1, true), 2 := Loaded(op2, 0, m1, false), 3 := Loaded(op3, 1, m1, false)],
                       [Entry(1, op1, false)])
  {
    s, acts, t := StaleGrant(cfg, op1, op2);
    acts, t := Extend(s, acts, t, Open(3, op3));
    acts, t := Extend(s, acts, t, Grant(3));
    acts, t := Extend(s, acts, t, Load(2));
    acts, t := Extend(s, acts, t, Load(3));
  }

  /** Writer 3 writes over writer 2's record. */
  lemma BothCommit(cfg: Config, op1: Op, op2: Op, op3: Op) returns (s: State, acts: seq<Action>, t: State)
    requires op1.Save? && op2.Save? && op3.Save?
    ensures Init(s) && s.disk == map[] && Exec(s, acts) == Some(t)
    ensures t == State(cfg, Some(1), 2, Mutate(Mutate(map[], cfg, op1), cfg, op3),
                       map[1 := Done(op1, true), 2 := Committed(op2, 0, true), 3 := Committed(op3, 1, true)],
                       [Entry(1, op1, false), Entry(2, op2, false), Entry(3, op3, false)])
  {
    s, acts, t := BothLoad(cfg, op1, op2, op3);
    acts, t := CommitSave(s, acts, t, 2);
    acts, t := CommitSave(s, acts, t, 3);
  }

  lemma CommitSave(s: State, acts: seq<Action>, t: State, p: Pid) returns (acts': seq<Action>, t': State)
    requires Exec(s, acts) == Some(t) && p in t.pcs && t.pcs[p].Loaded? && t.pcs[p].op.Save?
    ensures Exec(s, acts') == Some(t')
    ensures var pc := t.pcs[p];
            t' == t.(disk := Mutate(pc.snapshot, t.cfg, pc.op), log := t.log + [Entry(p, pc.op, pc.refused)],
                     pcs := t.pcs[p := Committed(pc.op, pc.ino, true)])
  {
    acts', t' := Extend(s, acts, t, Commit(p));
  }

  lemma AllThreeFinish(cfg: Config, op1: Op, op2: Op, op3: Op) returns (s: State, acts: seq<Action>, t: State)
    requires op1.Save? && op2.Save? && op3.Save?
    ensures Init(s) && s.disk == map[] && Exec(s, acts) == Some(t)
    ensures t.pcs == map[1 := Done(op1, true), 2 := Done(op2, true), 3 := Done(op3, true)]
    ensures t.log == [Entry(1, op1, false), Entry(2, op2, false), Entry(3, op3, false)]
    ensures t.disk == Mutate(Mutate(map[], cfg, op1), cfg, op3)
  {
    s, acts, t := BothCommit(cfg, op1, op2, op3);
    acts, t := Finish(s, acts, t, 2);
    acts, t := Finish(s, acts, t, 3);
  }

  lemma SavedScopes(m: Index, cfg: Config, op: Op)
    requires op.Save?
    ensures Mutate(m, cfg, op).Keys <= m.Keys + {op.scope}
  {
  }

  /** All three operations succeed, and the record writer 2 saved is gone,
      although the same saves one after the other would have kept it (given
      room for three and a record still fresh at the third save). */
  lemma ThreeWritersLoseARecord(cfg: Config, op1: Op, op2: Op, op3: Op)
    returns (s: State, acts: seq<Action>, t: State)
    requires op1.Save? && op2.Save? && op3.Save? && op2.scope != op3.scope && op1.scope != op2.scope
    ensures Init(s) && s.disk == map[] && Exec(s, acts) == Some(t)
    ensures t.pcs == map[1 := Done(op1, true), 2 := Done(op2, true), 3 := Done(op3, true)]
    ensures t.log == [Entry(1, op1, false), Entry(2, op2, false), Entry(3, op3, false)] && op2.scope !in t.disk
    ensures cfg.maxEntries >= 3 && Fresh(Record(op2.scope, op2.id, op2.now), cfg, op3.now) ==>
              op2.scope in Fold(s.disk, cfg, t.log)
  {
    s, acts, t := AllThreeFinish(cfg, op1, op2, op3);
    SavedScopes(map[], cfg, op1);
    SavedScopes(Mutate(map[], cfg, op1), cfg, op3);
    FoldOfThree(map[], cfg, t.log[0], t.log[1], t.log[2]);
    if cfg.maxEntries >= 3 && Fresh(Record(op2.scope, op2.id, op2.now), cfg, op3.now) {
      ThreeSavesKeepTheSecond(cfg, op1, op2, op3);
    }
  }

  lemma Finish(s: State, acts: seq<Action>, t: State, p: Pid) returns (acts': seq<Action>, t': State)
    requires Exec(s, acts) == Some(t) && p in t.pcs && t.pcs[p].Committed?
    ensures Exec(s, acts') == Some(t')
    ensures t' == t.(path := None, pcs := t.pcs[p := Done(t.pcs[p].op, t.pcs[p].ok)])
  {
    acts', t' := Extend(s, acts, t, Unlink(p));
    acts', t' := Extend(s, acts', t', Close(p));
  }

  lemma ThreeSavesKeepTheSecond(cfg: Config, op1: Op, op2: Op, op3: Op)
    requires op1.Save? && op2.Save? && op3.Save? && op2.scope != op3.scope && cfg.maxEntries >= 3
    requires Fresh(Record(op2.scope, op2.id, op2.now), cfg, op3.now)
    ensures op2.scope in Mutate(Mutate(Mutate(map[], cfg, op1), cfg, op2), cfg, op3)
  {
    var m1 := Mutate(map[], cfg, op1);
    SaveWithRoom(map[], cfg, op1.scope, op1.id, op1.now);
    SaveWithRoom(m1, cfg, op2.scope, op2.id, op2.now);
    SaveWithRoom(Mutate(m1, cfg, op2), cfg, op3.scope, op3.id, op3.now);
  }

  lemma FoldOfThree(m: Index, cfg: Config, x: Entry, y: Entry, z: Entry)
    ensures Fold(m, cfg, [x, y, z]) == Mutate(Mutate(Mutate(m, cfg, x.op), cfg, y.op), cfg, z.op)
  {
    assert [x, y, z][..2] == [x, y];
    FoldOfTwo(m, cfg, x, y);
  }

  // ------------------------------------------ what a refused read leads to

  /** The fresh records of other scopes. */
  function FreshOthers(m: Index, cfg: Config, scope: Scope, now: I64): set<Scope> {
    set j | j in m && j != scope && Fresh(m[j], cfg, now)
  }

  /** The operation leaves the same index whether it finds `m` or is refused
      it: a save that would leave no other record, a clear of nothing, a prune
      of nothing. */
  predicate Indifferent(m: Index, cfg: Config, op: Op) {
    match op
    case Save(scope, id, now) =>
      || cfg.maxEntries == 0
      || FreshOthers(m, cfg, scope, now) == {}
      || (cfg.maxEntries == 1 && Rivals(m, cfg, scope, now) == {})
    case Clear(scope) => scope !in m
    case Prune(now) => |m| <= cfg.maxEntries && forall k :: k in m ==> Fresh(m[k], cfg, now)
  }

  lemma SaveIntoNothing(cfg: Config, scope: Scope, id: string, now: I64)
    ensures Saved(map[], cfg, scope, id, now)
         == if cfg.maxEntries == 0 then map[] else map[scope := Record(scope, id, now)]
  {
    var m1: Index := map[scope := Record(scope, id, now)];
    assert FreshPart(m1, cfg, now) == m1;
    if cfg.maxEntries > 0 {
      NewestUnderTheCap(m1, cfg.maxEntries);
    }
  }

  lemma FreshAfterInsert(m: Index, cfg: Config, scope: Scope, id: string, now: I64)
    ensures |FreshPart(m[scope := Record(scope, id, now)], cfg, now)| == |FreshOthers(m, cfg, scope, now)| + 1
  {
    var f := FreshPart(m[scope := Record(scope, id, now)], cfg, now);
    assert f.Keys == FreshOthers(m, cfg, scope, now) + {scope};
  }

  lemma SavedIsKeptIff(m: Index, cfg: Config, scope: Scope, id: string, now: I64)
    ensures scope in Saved(m, cfg, scope, id, now) <==> |Rivals(m, cfg, scope, now)| < cfg.maxEntries
  {
    SaveThenLoadIff(m, cfg, scope, id, now, now);
  }

  /** How many records a save leaves, and when the saved one is among them. */
  lemma KeptBySave(m: Index, cfg: Config, scope: Scope, id: string, now: I64)
    ensures var kept := Saved(m, cfg, scope, id, now).Keys;
            && |kept| == Min(|FreshOthers(m, cfg, scope, now)| + 1, cfg.maxEntries)
            && (scope in kept <==> |Rivals(m, cfg, scope, now)| < cfg.maxEntries)
    ensures |Rivals(m, cfg, scope, now)| <= |FreshOthers(m, cfg, scope, now)|
  {
    FreshAfterInsert(m, cfg, scope, id, now);
    KeptIsTheNewest(m[scope := Record(scope, id, now)], cfg, now);
    SavedIsKeptIff(m, cfg, scope, id, now);
    SubsetSize(Rivals(m, cfg, scope, now), FreshOthers(m, cfg, scope, now));
  }

  lemma Singleton(a: set<Scope>, x: Scope)
    ensures a == {x} <==> x in a && |a| == 1
  {
    if x in a && |a| == 1 {
      SubsetSize({x}, a);
    }
  }

  lemma OnlyTheSavedIsKeptIff(m: Index, cfg: Config, scope: Scope, id: string, now: I64)
    requires cfg.maxEntries > 0
    ensures Saved(m, cfg, scope, id, now).Keys == {scope} <==> Indifferent(m, cfg, Save(scope, id, now))
  {
    KeptBySave(m, cfg, scope, id, now);
    Singleton(Saved(m, cfg, scope, id, now).Keys, scope);
  }

  lemma SavedIsTheRecord(m: Index, cfg: Config, scope: Scope, id: string, now: I64)
    ensures var m', r := Saved(m, cfg, scope, id, now), Record(scope, id, now);
            m' == map[scope := r] <==> m'.Keys == {scope}
  {
    var m', r := Saved(m, cfg, scope, id, now), Record(scope, id, now);
    assert map[scope := r].Keys == {scope};
    assert scope in m' ==> m'[scope] == r;
  }

  lemma RefusedIsIndifferentIff(m: Index, cfg: Config, op: Op)
    ensures Refused(m, cfg, op) == Mutate(m, cfg, op) <==> Indifferent(m, cfg, op)
  {
    match op
    case Save(scope, id, now) =>
      SaveIntoNothing(cfg, scope, id, now);
      if cfg.maxEntries > 0 {
        OnlyTheSavedIsKeptIff(m, cfg, scope, id, now);
        SavedIsTheRecord(m, cfg, scope, id, now);
      }
    case Clear(scope) =>
    case Prune(now) =>
      KeptIsTheNewest(m, cfg, now);
      SubsetSize(FreshPart(m, cfg, now).Keys, m.Keys);
      if Indifferent(m, cfg, op) {
        assert FreshPart(m, cfg, now) == m;
        NewestUnderTheCap(m, cfg.maxEntries);
      }
  }

  lemma RefusedSaveForgets(m1: Index, m2: Index, cfg: Config, e: Entry)
    requires e.refused && e.op.Save?
    ensures Serve(m1, cfg, e) == Serve(m2, cfg, e)
  {
  }

  lemma LastRefusedSave(m: Index, cfg: Config, front: seq<Entry>, e: Entry)
    requires e.refused && e.op.Save?
    ensures Served(m, cfg, front + [e]) == Served(map[], cfg, [e])
  {
    ServedLast(m, cfg, front, e);
    ServedLast(map[], cfg, [], e);
    assert [] + [e] == [e];
    RefusedSaveForgets(Served(m, cfg, front), map[], cfg, e);
  }

  /** What a refused save costs, over every log: it drops all that came before
      it, and nothing that comes after. */
  lemma {:induction false} RefusedSaveStartsAfresh(m: Index, cfg: Config, log: seq<Entry>, k: nat)
    requires k < |log| && log[k].refused && log[k].op.Save?
    ensures Served(m, cfg, log) == Served(map[], cfg, log[k..])
    decreases |log|
  {
    var front, e := log[..|log| - 1], log[|log| - 1];
    assert log == front + [e];
    if k == |front| {
      assert log[k..] == [e];
      LastRefusedSave(m, cfg, front, e);
    } else {
      assert log[k..] == front[k..] + [e];
      RefusedSaveStartsAfresh(m, cfg, front, k);
      ServedLast(m, cfg, front, e);
      ServedLast(map[], cfg, front[k..], e);
    }
  }

  /** The other refused operations do nothing at all. */
  lemma RefusedOthersDoNothing(m: Index, cfg: Config, log: seq<Entry>, e: Entry)
    requires e.refused && !e.op.Save?
    ensures Served(m, cfg, log + [e]) == Served(m, cfg, log)
  {
    ServedLast(m, cfg, log, e);
    if e.op.Prune? {
      assert Kept(map[], cfg, e.op.now) == map[];
    }
  }

  /** Exactly when an operation that was refused the data file, and goes on to
      commit, keeps the store the fold of the committed operations. */
  lemma RefusedReadIsHarmlessIff(init: Index, s: State, p: Pid)
    requires s.disk == Fold(init, s.cfg, s.log) && Enabled(s, LoadEmpty(p))
    ensures var t := Do(Do(s, LoadEmpty(p)), Commit(p));
            t.disk == Fold(init, t.cfg, t.log) <==> Indifferent(s.disk, s.cfg, s.pcs[p].op)
  {
    var t := Do(Do(s, LoadEmpty(p)), Commit(p));
    assert t.log[..|s.log|] == s.log;
    RefusedIsIndifferentIff(s.disk, s.cfg, s.pcs[p].op);
  }

  lemma SecondIsRefused(cfg: Config, op1: Op, op2: Op) returns (s: State, acts: seq<Action>, t: State)
    requires op1.Save?
    ensures Init(s) && s.disk == map[] && Exec(s, acts) == Some(t)
    ensures t == State(cfg, None, 1, Mutate(map[], cfg, op1),
                       map[1 := Done(op1, true), 2 := Loaded(op2, 0, map[], true), 3 := Idle], [Entry(1, op1, false)])
  {
    s, acts, t := StaleGrant(cfg, op1, op2);
    acts, t := Extend(s, acts, t, LoadEmpty(2));
  }

  lemma SecondCommitsBlind(cfg: Config, op1: Op, op2: Op) returns (s: State, acts: seq<Action>, t: State)
    requires op1.Save? && op2.Save?
    ensures Init(s) && s.disk == map[] && Exec(s, acts) == Some(t) && Exclusive(t)
    ensures t.log == [Entry(1, op1, false), Entry(2, op2, true)] && t.disk == Mutate(map[], cfg, op2)
  {
    s, acts, t := SecondIsRefused(cfg, op1, op2);
    acts, t := CommitSave(s, acts, t, 2);
  }

  /** Two saves, one after the other, the second refused the data file: the
      first record is lost, although the fold of the two keeps it (given room
      for two and a record still fresh). */
  lemma RefusedReadLosesARecord(cfg: Config, op1: Op, op2: Op) returns (s: State, acts: seq<Action>, t: State)
    requires op1.Save? && op2.Save? && op1.scope != op2.scope
    ensures Init(s) && Exec(s, acts) == Some(t) && Exclusive(t)
    ensures t.log == [Entry(1, op1, false), Entry(2, op2, true)] && op1.scope !in t.disk
    ensures cfg.maxEntries >= 2 && Fresh(Record(op1.scope, op1.id, op1.now), cfg, op2.now) ==>
              op1.scope in Fold(s.disk, cfg, t.log)
  {
    s, acts, t := SecondCommitsBlind(cfg, op1, op2);
    SavedScopes(map[], cfg, op2);
    FoldOfTwo(map[], cfg, t.log[0], t.log[1]);
    if cfg.maxEntries >= 2 && Fresh(Record(op1.scope, op1.id, op1.now), cfg, op2.now) {
      TwoSavesKeepBoth(map[], cfg, op1, op2);
    }
  }

  // ------------------------------------------- two writers, one save each

  predicate OneShot(acts: seq<Action>) { forall a :: a in acts ==> !a.Again? }

  predicate Past(pc: PC) { pc.Unlinked? || pc.Done? || pc.Crashed? }

  /** Until some writer is past its removal of the sidecar, every opened inode
      is the named one. */
  predicate SharedInode(s: State) {
    (exists p :: p in s.pcs && Past(s.pcs[p])) ||
    (forall p :: p in s.pcs && s.pcs[p].HasOpen() ==> s.path == Some(s.pcs[p].ino))
  }

  lemma StepKeepsSharedInode(s: State, a: Action)
    requires SharedInode(s) && Enabled(s, a) && !a.Again?
    ensures SharedInode(Do(s, a))
  {
    var s' := Do(s, a);
    if p :| p in s.pcs && Past(s.pcs[p]) {
      assert Past(s'.pcs[p]);
    } else if Past(s'.pcs[a.p]) {
    } else {
      assert forall p :: p in s'.pcs && p != a.p ==> s'.pcs[p] == s.pcs[p];
    }
  }

  /** With two writers that each run once, the race cannot bite: whoever is
      past the removal never enters again. */
  lemma TwoWritersAreExclusive(s: State, p: Pid, q: Pid)
    requires s.pcs.Keys == {p, q} && SharedInode(s) && OneHolderPerInode(s)
    ensures Exclusive(s)
  {
  }

  /** Which operations are in the log: each committed one, once. */
  predicate LogMatches(s: State) {
    && (forall i, j :: 0 <= i < j < |s.log| ==> s.log[i].p != s.log[j].p)
    && (forall i :: 0 <= i < |s.log| ==>
          s.log[i].p in s.pcs && var pc := s.pcs[s.log[i].p]; pc.Committed? || Past(pc))
    && forall p :: p in s.pcs && (s.pcs[p].Committed? || s.pcs[p].Unlinked? || s.pcs[p].Done?) && s.pcs[p].ok ==>
         Entry(p, s.pcs[p].op, false) in s.log || Entry(p, s.pcs[p].op, true) in s.log
  }

  lemma CommitKeepsLogMatches(s: State, p: Pid)
    requires LogMatches(s) && Enabled(s, Commit(p))
    ensures LogMatches(Do(s, Commit(p)))
  {
    var s' := Do(s, Commit(p));
    assert s'.log[|s.log|] == Entry(p, s.pcs[p].op, s.pcs[p].refused);
    assert forall e :: e in s.log ==> e in s'.log;
  }

  lemma StepKeepsLogMatches(s: State, a: Action)
    requires LogMatches(s) && Enabled(s, a) && !a.Again?
    ensures LogMatches(Do(s, a))
  {
    if a.Commit? {
      CommitKeepsLogMatches(s, a.p);
    }
  }

  ghost predicate TwoWriters(s: State, p: Pid, q: Pid) {
    s.pcs.Keys == {p, q} && SharedInode(s) && OneHolderPerInode(s) && LogMatches(s)
  }

  lemma StepKeepsTwoWriters(s: State, a: Action, p: Pid, q: Pid)
    requires TwoWriters(s, p, q) && Enabled(s, a) && !a.Again?
    ensures TwoWriters(Do(s, a), p, q) && Do(s, a).cfg == s.cfg
  {
    StepKeepsOneHolder(s, a);
    StepKeepsSharedInode(s, a);
    StepKeepsLogMatches(s, a);
    assert Do(s, a).pcs.Keys == s.pcs.Keys;
  }

  /** Every run of two one-operation writers, crashes and refused reads
      included, is exclusive and serial; if every load gets the data file, the
      store is the plain fold. */
  lemma {:induction false} TwoWritersSerialise(s: State, acts: seq<Action>, t: State, p: Pid, q: Pid)
    requires Init(s) && s.pcs.Keys == {p, q} && Exec(s, acts) == Some(t) && OneShot(acts)
    ensures TwoWriters(t, p, q) && t.cfg == s.cfg
    ensures Exclusive(t) && Serial(s.disk, t)
    ensures LoadsSucceed(acts) ==> t.disk == Fold(s.disk, t.cfg, t.log)
  {
    if acts != [] {
      var before, a := Exec(s, acts[..|acts| - 1]).value, acts[|acts| - 1];
      assert a in acts;
      TwoWritersSerialise(s, acts[..|acts| - 1], before, p, q);
      StepKeepsTwoWriters(before, a, p, q);
      StepKeepsSerial(s.disk, before, a);
    }
    TwoWritersAreExclusive(t, p, q);
    if LoadsSucceed(acts) {
      SerialIsFold(s, acts, t);
    }
  }

  /** With room under the cap, saving only drops stale records. */
  lemma SaveWithRoom(m: Index, cfg: Config, scope: Scope, id: string, now: I64)
    requires |m| < cfg.maxEntries
    ensures var m' := Saved(m, cfg, scope, id, now);
            && |m'| <= |m| + 1
            && scope in m' && m'[scope] == Record(scope, id, now)
            && forall k :: k in m && k != scope && Fresh(m[k], cfg, now) ==> k in m' && m'[k] == m[k]
  {
    var m1 := m[scope := Record(scope, id, now)];
    assert m1.Keys == m.Keys + {scope};
    var f := FreshPart(m1, cfg, now);
    SubsetSize(f.Keys, m1.Keys);
    NewestUnderTheCap(f, cfg.maxEntries);
  }

  lemma TwoSavesKeepBoth(m: Index, cfg: Config, a: Op, b: Op)
    requires a.Save? && b.Save? && a.scope != b.scope && |m| + 2 <= cfg.maxEntries
    requires Fresh(Record(a.scope, a.id, a.now), cfg, b.now)
    ensures var m' := Mutate(Mutate(m, cfg, a), cfg, b);
            && a.scope in m' && m'[a.scope] == Record(a.scope, a.id, a.now)
            && b.scope in m' && m'[b.scope] == Record(b.scope, b.id, b.now)
  {
    SaveWithRoom(m, cfg, a.scope, a.id, a.now);
    SaveWithRoom(Mutate(m, cfg, a), cfg, b.scope, b.id, b.now);
  }

  function Pids(log: seq<Entry>): set<Pid> { set e | e in log :: e.p }

  lemma {:induction false} DistinctPids(log: seq<Entry>)
    requires forall i, j :: 0 <= i < j < |log| ==> log[i].p != log[j].p
    ensures |Pids(log)| == |log|
  {
    if log != [] {
      DistinctPids(log[1..]);
      assert log[0].p !in Pids(log[1..]);
      assert log == [log[0]] + log[1..];
      assert Pids(log) == {log[0].p} + Pids(log[1..]);
    }
  }

  /** What the log of two one-operation writers can be, one of them having
      committed. */
  lemma LogOfTwo(log: seq<Entry>, x: Entry, q: Pid) returns (y: Entry)
    requires x in log && Pids(log) <= {x.p, q}
    requires forall i, j :: 0 <= i < j < |log| ==> log[i].p != log[j].p
    ensures log == [x] || (y in log && y.p == q && y.p != x.p && (log == [x, y] || log == [y, x]))
  {
    DistinctPids(log);
    SubsetSize(Pids(log), {x.p, q});
    y := x;
    if |log| == 2 {
      y := if log[0] == x then log[1] else log[0];
    }
  }

  lemma FoldOfTwo(m: Index, cfg: Config, x: Entry, y: Entry)
    ensures Fold(m, cfg, [x, y]) == Mutate(Mutate(m, cfg, x.op), cfg, y.op)
  {
    assert [x, y][..1] == [x] && [x][..0] == [];
    assert Fold(m, cfg, [x]) == Mutate(m, cfg, x.op);
  }

  /** With room, a save stores its record, refused or not, and one that got
      the data file keeps the other fresh ones. */
  lemma ServeStores(m: Index, cfg: Config, e: Entry)
    requires e.op.Save? && |m| < cfg.maxEntries
    ensures var m', op := Serve(m, cfg, e), e.op;
            && |m'| <= |m| + 1 && op.scope in m' && m'[op.scope] == Record(op.scope, op.id, op.now)
            && (!e.refused ==>
                  forall k :: k in m && k != op.scope && Fresh(m[k], cfg, op.now) ==> k in m' && m'[k] == m[k])
  {
    SaveWithRoom(if e.refused then map[] else m, cfg, e.op.scope, e.op.id, e.op.now);
  }

  lemma ServedOfTwo(m: Index, cfg: Config, x: Entry, y: Entry)
    ensures Served(m, cfg, [x]) == Serve(m, cfg, x)
    ensures Served(m, cfg, [x, y]) == Serve(Serve(m, cfg, x), cfg, y)
  {
    assert [x, y][..1] == [x] && [x][..0] == [];
    assert Served(m, cfg, [x]) == Serve(m, cfg, x);
  }

  /** The rival's operation, if it committed, is a save of another scope that
      got the data file, at a clock at which the record is still fresh. */
  predicate RivalSaves(log: seq<Entry>, cfg: Config, q: Pid, a: Op)
    requires a.Save?
  {
    forall e :: e in log && e.p == q ==>
      && e.op.Save? && e.op.scope != a.scope && !e.refused
      && Fresh(Record(a.scope, a.id, a.now), cfg, e.op.now)
  }

  /** Of two processes that each save once, to different scopes, one that has
      committed finds its record stored, whatever becomes of the other: saved,
      timed out, failed or crashed at any step. */
  lemma CommittedSaveIsNeverLost(s: State, acts: seq<Action>, t: State, p: Pid, q: Pid, x: Entry)
    requires Init(s) && p != q && s.pcs.Keys == {p, q} && Exec(s, acts) == Some(t) && OneShot(acts)
    requires x in t.log && x.p == p && x.op.Save? && RivalSaves(t.log, s.cfg, q, x.op)
    requires |s.disk| + 2 <= s.cfg.maxEntries
    ensures x.op.scope in t.disk && t.disk[x.op.scope] == Record(x.op.scope, x.op.id, x.op.now)
  {
    TwoWritersSerialise(s, acts, t, p, q);
    assert Pids(t.log) <= {p, q};
    var y := LogOfTwo(t.log, x, q);
    ServeStores(s.disk, s.cfg, x);
    if t.log == [x] {
      ServedOfTwo(s.disk, s.cfg, x, x);
    } else if t.log == [x, y] {
      ServedOfTwo(s.disk, s.cfg, x, y);
      ServeStores(Serve(s.disk, s.cfg, x), s.cfg, y);
    } else {
      ServedOfTwo(s.disk, s.cfg, y, x);
      ServeStores(s.disk, s.cfg, y);
      ServeStores(Serve(s.disk, s.cfg, y), s.cfg, x);
    }
  }

  /** Two processes that each save once, to different scopes, never lose
      either record while there is room and neither record is stale. */
  lemma TwoSavesAreNeverLost(s: State, acts: seq<Action>, t: State, p: Pid, q: Pid, a: Op, b: Op)
    requires Init(s) && p != q && s.pcs.Keys == {p, q} && Exec(s, acts) == Some(t)
    requires OneShot(acts) && LoadsSucceed(acts)
    requires t.pcs.Keys == {p, q} && t.pcs[p] == Done(a, true) && t.pcs[q] == Done(b, true)
    requires a.Save? && b.Save? && a.scope != b.scope && |s.disk| + 2 <= s.cfg.maxEntries
    requires Fresh(Record(a.scope, a.id, a.now), s.cfg, b.now) && Fresh(Record(b.scope, b.id, b.now), s.cfg, a.now)
    ensures a.scope in t.disk && t.disk[a.scope] == Record(a.scope, a.id, a.now)
    ensures b.scope in t.disk && t.disk[b.scope] == Record(b.scope, b.id, b.now)
  {
    TwoWritersSerialise(s, acts, t, p, q);
    LoadsThatSucceed(s, acts, t);
    var x, y := Entry(p, a, false), Entry(q, b, false);
    assert x in t.log && y in t.log;
    OneEntryEach(t.log, x);
    OneEntryEach(t.log, y);
    CommittedSaveIsNeverLost(s, acts, t, p, q, x);
    CommittedSaveIsNeverLost(s, acts, t, q, p, y);
  }

  lemma OneEntryEach(log: seq<Entry>, x: Entry)
    requires x in log && forall i, j :: 0 <= i < j < |log| ==> log[i].p != log[j].p
    ensures forall e :: e in log && e.p == x.p ==> e == x
  {
  }
}

/** The engine-session store: one record per scope, a freshness window, a cap
    on the number of records, and the load / save / clear / prune operations. */
module SessionStore {
  import opened FixedWidth
  import opened Sets

  type Scope = string

  datatype Record = Record(scope: Scope, sessionId: string, updated: I64)

  type Index = map<Scope, Record>

  datatype Config = Config(maxAge: I64, maxEntries: nat)

  predicate Fresh(r: Record, cfg: Config, now: I64) {
    cfg.maxAge > 0 ==> SatSub(now, r.updated) <= cfg.maxAge
  }

  /** Freshness in numbers: no window, the widest one, or an age within it. */
  lemma FreshIff(r: Record, cfg: Config, now: I64)
    ensures Fresh(r, cfg, now) <==>
              cfg.maxAge <= 0 || cfg.maxAge == 0x7fff_ffff_ffff_ffff || now - r.updated <= cfg.maxAge
  {
  }

  // ------------------------------------------------------- the age ordering

  /** String order: the first differing character decides, and a proper
      prefix comes first. */
  predicate LexLess(a: string, b: string) {
    b != "" && (a == "" || a[0] < b[0] || (a[0] == b[0] && LexLess(a[1..], b[1..])))
  }

  lemma {:induction false} LexIsTotal(a: string, b: string)
    ensures a == b <==> !LexLess(a, b) && !LexLess(b, a)
    ensures !(LexLess(a, b) && LexLess(b, a))
  {
    if a != "" && b != "" {
      LexIsTotal(a[1..], b[1..]);
      assert a == [a[0]] + a[1..] && b == [b[0]] + b[1..];
    }
  }

  lemma {:induction false} LexIsTransitive(a: string, b: string, c: string)
    requires LexLess(a, b) && LexLess(b, c)
    ensures LexLess(a, c)
  {
    if a != "" && a[0] == b[0] == c[0] {
      LexIsTransitive(a[1..], b[1..], c[1..]);
    }
  }

  /** Oldest first, ties broken by scope. */
  predicate Older(m: Index, a: Scope, b: Scope)
    requires a in m && b in m
  {
    m[a].updated < m[b].updated || (m[a].updated == m[b].updated && LexLess(a, b))
  }

  lemma OlderIsTotal(m: Index, a: Scope, b: Scope)
    requires a in m && b in m
    ensures a == b <==> !Older(m, a, b) && !Older(m, b, a)
    ensures !(Older(m, a, b) && Older(m, b, a))
  {
    LexIsTotal(a, b);
  }

  lemma OlderIsTransitive(m: Index, a: Scope, b: Scope, c: Scope)
    requires a in m && b in m && c in m && Older(m, a, b) && Older(m, b, c)
    ensures Older(m, a, c)
  {
    if m[a].updated == m[b].updated == m[c].updated {
      LexIsTransitive(a, b, c);
    }
  }

  // ------------------------------------------------- what eviction must keep

  function FreshPart(m: Index, cfg: Config, now: I64): Index {
    map k | k in m && Fresh(m[k], cfg, now) :: m[k]
  }

  function Newer(m: Index, k: Scope): set<Scope>
    requires k in m
  {
    set j | j in m && Older(m, k, j)
  }

  /** The records with fewer than `cap` records newer than them. The
      definition mentions neither sorting nor order of removal. */
  function Newest(m: Index, cap: nat): Index {
    map k | k in m && |Newer(m, k)| < cap :: m[k]
  }

  function Kept(m: Index, cfg: Config, now: I64): Index {
    Newest(FreshPart(m, cfg, now), cfg.maxEntries)
  }

  // ------------------------------------------------------- the sorted keys

  predicate Sorted(m: Index, s: seq<Scope>) {
    && (forall k :: k in s ==> k in m)
    && forall i, j :: 0 <= i < j < |s| ==> Older(m, s[i], s[j])
  }

  lemma ConsSorted(m: Index, x: Scope, s: seq<Scope>)
    requires x in m && Sorted(m, s) && forall y :: y in s ==> y in m && Older(m, x, y)
    ensures Sorted(m, [x] + s)
  {
  }

  /** Put `k` where it belongs in the sorted `s`. */
  function Insert(m: Index, s: seq<Scope>, k: Scope): (r: seq<Scope>)
    requires k in m && k !in s && Sorted(m, s)
    ensures Sorted(m, r) && (forall x :: x in r <==> x == k || x in s)
  {
    if s == [] then [k]
    else
      assert forall x :: x in s <==> x == s[0] || x in s[1..];
      if Older(m, k, s[0]) then
        assert forall y :: y in s ==> Older(m, k, y) by {
          forall y | y in s ensures Older(m, k, y) {
            if y != s[0] { OlderIsTransitive(m, k, s[0], y); }
          }
        }
        ConsSorted(m, k, s);
        [k] + s
      else
        OlderIsTotal(m, k, s[0]);
        var rest := Insert(m, s[1..], k);
        ConsSorted(m, s[0], rest);
        [s[0]] + rest
  }

  /** The sorted keys of a map exist (the order they are picked in is open). */
  lemma SortedKeys(m: Index, keys: set<Scope>) returns (s: seq<Scope>)
    requires keys <= m.Keys
    ensures Sorted(m, s) && forall x :: x in s <==> x in keys
  {
    if keys == {} {
      s := [];
    } else {
      var k :| k in keys;
      s := SortedKeys(m, keys - {k});
      s := Insert(m, s, k);
    }
  }

  lemma {:induction false} SortedSize(m: Index, s: seq<Scope>)
    requires Sorted(m, s)
    ensures |Elements(s)| == |s|
  {
    if s != [] {
      var rest := s[1..];
      SortedSize(m, rest);
      if s[0] in rest {
        var j :| 0 <= j < |rest| && rest[j] == s[0];
        assert Older(m, s[0], s[j + 1]);
        OlderIsTotal(m, s[0], s[0]);
      }
      assert Elements(s) == {s[0]} + Elements(rest);
    }
  }

  /** In the sorted keys, the records newer than the one at `i` are those
      after it. */
  lemma RankInSorted(m: Index, s: seq<Scope>, i: nat)
    requires Sorted(m, s) && (forall x :: x in s <==> x in m) && i < |s|
    ensures Newer(m, s[i]) == Elements(s[i + 1..])
    ensures |Newer(m, s[i])| == |s| - 1 - i
  {
    forall k | k in m ensures k in Newer(m, s[i]) <==> k in s[i + 1..] {
      var j :| 0 <= j < |s| && s[j] == k;
      OlderIsTotal(m, s[i], k);
      if j > i {
        assert k == s[i + 1..][j - i - 1];
      }
    }
    SortedSize(m, s[i + 1..]);
  }

  /** Under the cap nothing is evicted for being old. */
  lemma UnderTheCap(m: Index, cap: nat, k: Scope)
    requires k in m && |m| <= cap
    ensures |Newer(m, k)| < cap
  {
    OlderIsTotal(m, k, k);
    assert Newer(m, k) <= m.Keys - {k};
    SubsetSize(Newer(m, k), m.Keys - {k});
  }

  // --------------------------------------------------------------- eviction

  method OldestFirst(m: Index) returns (s: seq<Scope>)
    ensures Sorted(m, s) && forall x :: x in s <==> x in m
  {
    s := [];
    var rest := m.Keys;
    while rest != {}
      invariant rest <= m.Keys && Sorted(m, s)
      invariant forall x :: x in s <==> x in m.Keys - rest
      decreases |rest|
    {
      var k :| k in rest;
      s := Insert(m, s, k);
      rest := rest - {k};
    }
  }

  lemma RemoveOneMore(m: Index, s: seq<Scope>, i: nat)
    requires i < |s|
    ensures m - Elements(s[..i]) - {s[i]} == m - Elements(s[..i + 1])
  {
    assert s[..i + 1] == s[..i] + [s[i]];
    assert Elements(s[..i + 1]) == Elements(s[..i]) + {s[i]};
  }

  /** Remove the oldest records until `cap` are left. */
  method DropOldest(m: Index, cap: nat) returns (left: Index)
    requires |m| > cap
    ensures left == Newest(m, cap)
  {
    var byAge := OldestFirst(m);
    assert |byAge| == |m| by {
      SortedSize(m, byAge);
      assert Elements(byAge) == m.Keys;
    }
    left := m;
    for i := 0 to |m| - cap
      invariant left == m - Elements(byAge[..i])
    {
      RemoveOneMore(m, byAge, i);
      left := left - {byAge[i]};
    }
    NewestIsTheSuffix(m, byAge, |m| - cap);
  }

  /** Drop the stale records, then the oldest ones over the cap. */
  method EvictInPlace(index: Index, cfg: Config, now: I64) returns (left: Index, evicted: nat)
    ensures left == Kept(index, cfg, now)
    ensures evicted == |index| - |left|
  {
    left := index;
    if |index| == 0 {
      return left, 0;
    }
    if cfg.maxAge > 0 {
      left := map k | k in left && SatSub(now, left[k].updated) <= cfg.maxAge :: left[k];
    }
    assert left == FreshPart(index, cfg, now);
    if |left| <= cfg.maxEntries {
      NewestUnderTheCap(left, cfg.maxEntries);
    } else {
      left := DropOldest(left, cfg.maxEntries);
    }
    SubsetSize(left.Keys, index.Keys);
    evicted := |index| - |left|;
  }

  lemma NewestUnderTheCap(m: Index, cap: nat)
    requires |m| <= cap
    ensures Newest(m, cap) == m
  {
    forall k | k in m ensures |Newer(m, k)| < cap {
      UnderTheCap(m, cap, k);
    }
  }

  /** Removing the first `over` of the sorted keys leaves the newest ones. */
  lemma NewestIsTheSuffix(m: Index, s: seq<Scope>, over: nat)
    requires Sorted(m, s) && (forall x :: x in s <==> x in m) && over <= |s|
    ensures m - Elements(s[..over]) == Newest(m, |s| - over)
    ensures Newest(m, |s| - over).Keys == Elements(s[over..])
  {
    forall k | k in m ensures k in s[..over] <==> |Newer(m, k)| >= |s| - over
                      ensures k in s[over..] <==> |Newer(m, k)| < |s| - over {
      forall i | 0 <= i < |s| && s[i] == k ensures |Newer(m, k)| == |s| - 1 - i {
        RankInSorted(m, s, i);
      }
      var i :| 0 <= i < |s| && s[i] == k;
      if i < over {
        assert k == s[..over][i];
      } else {
        assert k == s[over..][i - over];
      }
    }
  }

  /** Fewer newer records means newer. */
  lemma RankOrders(m: Index, a: Scope, b: Scope)
    requires a in m && b in m && |Newer(m, a)| < |Newer(m, b)|
    ensures Older(m, b, a)
  {
    OlderIsTotal(m, a, b);
    if Older(m, a, b) {
      forall k | k in Newer(m, b) ensures k in Newer(m, a) {
        OlderIsTransitive(m, a, b, k);
      }
      SubsetSize(Newer(m, b), Newer(m, a));
    }
  }

  lemma SuffixSize(m: Index, s: seq<Scope>, cap: nat)
    requires Sorted(m, s) && (forall x :: x in s <==> x in m) && cap <= |s|
    ensures |Newest(m, cap).Keys| == cap
  {
    NewestIsTheSuffix(m, s, |s| - cap);
    SortedSize(m, s[|s| - cap..]);
  }

  lemma NewestSize(m: Index, cap: nat)
    ensures |Newest(m, cap).Keys| == Min(|m|, cap)
  {
    if |m| <= cap {
      NewestUnderTheCap(m, cap);
    } else {
      var s := SortedKeys(m, m.Keys);
      assert |s| == |m| by {
        SortedSize(m, s);
        assert Elements(s) == m.Keys;
      }
      SuffixSize(m, s, cap);
    }
  }

  /** What eviction keeps: as many fresh records as the cap allows, all newer
      than every fresh record it drops. */
  lemma KeptIsTheNewest(m: Index, cfg: Config, now: I64)
    ensures var f, kept := FreshPart(m, cfg, now), Kept(m, cfg, now);
            && |kept.Keys| == Min(|f|, cfg.maxEntries)
            && forall a, b :: a in kept && b in f && b !in kept ==> Older(f, b, a)
  {
    var f := FreshPart(m, cfg, now);
    NewestSize(f, cfg.maxEntries);
    forall a, b | a in Kept(m, cfg, now) && b in f && b !in Kept(m, cfg, now) ensures Older(f, b, a) {
      RankOrders(f, a, b);
    }
  }

  /** Those two facts determine the surviving set. */
  lemma KeptIsUnique(m: Index, cfg: Config, now: I64, keys: set<Scope>)
    requires var f := FreshPart(m, cfg, now);
             && keys <= f.Keys && |keys| == Min(|f|, cfg.maxEntries)
             && forall a, b :: a in keys && b in f && b !in keys ==> Older(f, b, a)
    ensures keys == Kept(m, cfg, now).Keys
  {
    var f, kept := FreshPart(m, cfg, now), Kept(m, cfg, now);
    KeptIsTheNewest(m, cfg, now);
    if kept.Keys <= keys {
      SubsetSize(kept.Keys, keys);
    } else {
      var y :| y in kept.Keys && y !in keys;
      if keys <= kept.Keys {
        SubsetSize(keys, kept.Keys);
      } else {
        // Each of the two records would be older than the other.
        var x :| x in keys && x !in kept.Keys;
        OlderIsTotal(f, x, y);
      }
    }
  }

  lemma EvictionIsIdempotent(m: Index, cfg: Config, now: I64)
    ensures Kept(Kept(m, cfg, now), cfg, now) == Kept(m, cfg, now)
  {
    var kept := Kept(m, cfg, now);
    KeptIsTheNewest(m, cfg, now);
    assert FreshPart(kept, cfg, now) == kept;
    NewestUnderTheCap(kept, cfg.maxEntries);
  }

  // ---------------------------------------------------- loading and saving

  function Load(m: Index, cfg: Config, scope: Scope, now: I64): Option<Record> {
    if scope in m && Fresh(m[scope], cfg, now) then Some(m[scope]) else None
  }

  function Saved(m: Index, cfg: Config, scope: Scope, id: string, now: I64): Index {
    Kept(m[scope := Record(scope, id, now)], cfg, now)
  }

  lemma FreshEarlier(r: Record, cfg: Config, now: I64, later: I64)
    requires now <= later && Fresh(r, cfg, later)
    ensures Fresh(r, cfg, now)
  {
  }

  ghost predicate PruneIsInvisible(m: Index, cfg: Config, now: I64) {
    forall scope: Scope, later: I64 :: later >= now ==>
      Load(Kept(m, cfg, now), cfg, scope, later) == Load(m, cfg, scope, later)
  }

  /** Pruning is invisible to every load at the same or a later clock exactly
      when the fresh records fit under the cap. */
  lemma PruneIsInvisibleIff(m: Index, cfg: Config, now: I64)
    ensures PruneIsInvisible(m, cfg, now) <==> |FreshPart(m, cfg, now)| <= cfg.maxEntries
  {
    var f, kept := FreshPart(m, cfg, now), Kept(m, cfg, now);
    KeptIsTheNewest(m, cfg, now);
    if |f| <= cfg.maxEntries {
      NewestUnderTheCap(f, cfg.maxEntries);
      forall scope: Scope, later: I64 | later >= now
        ensures Load(kept, cfg, scope, later) == Load(m, cfg, scope, later)
      {
        if scope in m && Fresh(m[scope], cfg, later) {
          FreshEarlier(m[scope], cfg, now, later);
          assert scope in f;
        }
      }
    } else {
      if f.Keys <= kept.Keys {
        SubsetSize(f.Keys, kept.Keys);
      }
      var scope :| scope in f.Keys && scope !in kept.Keys;
      assert Load(kept, cfg, scope, now) != Load(m, cfg, scope, now);
    }
  }

  /** The other fresh records that order above a record saved now. */
  function Rivals(m: Index, cfg: Config, scope: Scope, now: I64): set<Scope> {
    set j | && j in m && j != scope && Fresh(m[j], cfg, now)
            && (m[j].updated > now || (m[j].updated == now && LexLess(scope, j)))
  }

  /** Saving and then loading gives the saved record back exactly when it is
      still fresh and fewer rivals than the cap order above it. */
  lemma SaveThenLoadIff(m: Index, cfg: Config, scope: Scope, id: string, now: I64, later: I64)
    ensures var young := cfg.maxAge <= 0 || cfg.maxAge == 0x7fff_ffff_ffff_ffff || later - now <= cfg.maxAge;
            Load(Saved(m, cfg, scope, id, now), cfg, scope, later) ==
            if young && |Rivals(m, cfg, scope, now)| < cfg.maxEntries then Some(Record(scope, id, now)) else None
  {
    FreshIff(Record(scope, id, now), cfg, later);
    var m1 := m[scope := Record(scope, id, now)];
    var f := FreshPart(m1, cfg, now);
    assert scope in f;
    OlderIsTotal(f, scope, scope);
    assert Newer(f, scope) == Rivals(m, cfg, scope, now);
  }

  /** With a cap of at least one and every other record strictly older, the
      saved record survives. */
  lemma SaveSurvivesWhenNewest(m: Index, cfg: Config, scope: Scope, id: string, now: I64)
    requires cfg.maxEntries >= 1
    requires forall j :: j in m && j != scope ==> m[j].updated < now
    ensures Load(Saved(m, cfg, scope, id, now), cfg, scope, now) == Some(Record(scope, id, now))
  {
    assert Rivals(m, cfg, scope, now) == {};
    SaveThenLoadIff(m, cfg, scope, id, now, now);
  }

  /** On a timestamp tie the record just saved can be the one evicted. */
  lemma SavedRecordCanBeEvicted()
    ensures var m: Index := map["b" := Record("b", "x", 5)];
            Load(Saved(m, Config(0, 1), "a", "y", 5), Config(0, 1), "a", 5) == None
  {
    var m: Index := map["b" := Record("b", "x", 5)];
    assert "b" in Rivals(m, Config(0, 1), "a", 5);
    SaveThenLoadIff(m, Config(0, 1), "a", "y", 5, 5);
  }

  // -------------------------------------------------------------- the store

  /** The store file: absent, unreadable, not valid JSON, or an index. */
  datatype File = Missing | Unreadable | Corrupt | Parsed(index: Index)

  datatype Loaded = Found(record: Record) | NotFound | ReadError

  /** What a writer merges onto: any unusable file counts as empty. */
  function Merged(f: File): Index { if f.Parsed? then f.index else map[] }

  class EngineSessionStore {
    const cfg: Config
    var file: File

    constructor (cfg: Config, file: File)
      ensures this.cfg == cfg && this.file == file
    {
      this.cfg := cfg;
      this.file := file;
    }

    method LoadRecord(scope: Scope, now: I64) returns (r: Loaded)
      ensures r.ReadError? <==> file.Unreadable?
      ensures !file.Unreadable? ==>
                Load(Merged(file), cfg, scope, now) == if r.Found? then Some(r.record) else None
    {
      match file
      case Unreadable => r := ReadError;
      case Missing => r := NotFound;
      case Corrupt => r := NotFound;
      case Parsed(index) =>
        if scope !in index {
          return NotFound;
        }
        var age := SatSub(now, index[scope].updated);
        r := if cfg.maxAge > 0 && age > cfg.maxAge then NotFound else Found(index[scope]);
    }

    /** `works` says whether the lock and the write both succeed. */
    method Save(scope: Scope, id: string, now: I64, works: bool)
      modifies this
      ensures file == if works then Parsed(Saved(Merged(old(file)), cfg, scope, id, now)) else old(file)
    {
      var index := Merged(file);
      index := index[scope := Record(scope, id, now)];
      var evicted;
      index, evicted := EvictInPlace(index, cfg, now);
      if works {
        file := Parsed(index);
      }
    }

    /** Writes only when there is something to remove. */
    method Clear(scope: Scope, works: bool)
      modifies this
      ensures file == if works && scope in Merged(old(file)) then Parsed(Merged(old(file)) - {scope}) else old(file)
    {
      var index := Merged(file);
      if works && scope in index {
        file := Parsed(index - {scope});
      }
    }

    method Prune(now: I64, works: bool) returns (evicted: nat)
      modifies this
      ensures Merged(file) == if works then Kept(Merged(old(file)), cfg, now) else Merged(old(file))
      ensures works ==> evicted == |Merged(old(file))| - |Merged(file)|
      ensures evicted == 0 ==> file == old(file)
    {
      var index;
      index, evicted := EvictInPlace(Merged(file), cfg, now);
      if works && evicted > 0 {
        file := Parsed(index);
      } else if evicted == 0 {
        SubsetSize(index.Keys, Merged(file).Keys);
        assert index == Merged(file);
      }
    }
  }
}

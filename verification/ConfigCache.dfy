/** The memoised reader of a JSON file: a parse is reused while the file keeps
    its modification time, its length and its content hash. */
module ConfigCache {
  import opened FixedWidth

  type Path = string

  /** A file as one system call sees it, permission bits included. */
  datatype View = Absent | File(content: string, modified: Option<int>, mode: nat)

  datatype Stamp = Stamp(modified: Option<int>, len: nat)

  /** The loader, the hash, and the serialisation of the parsed value. The
      loader may look at all of the file, its mode as well as its bytes. */
  datatype Codec<!V> = Codec(
    parse: View -> V,
    hash: string -> nat,
    encode: V -> Option<string>,
    decode: string -> Option<V>)

  datatype Entry = Entry(stamp: Stamp, hash: nat, json: string)

  datatype Cache = Cache(entries: map<Path, Entry>, hits: nat, loads: nat)

  function StampOf(v: View): Option<Stamp> {
    if v.Absent? then None else Some(Stamp(v.modified, |v.content|))
  }

  /** One call looks at the file three times: metadata, hash, parse. */
  datatype Call = Call(path: Path, meta: View, read: View, parsed: View) {
    /** Nothing was written between the three looks. */
    predicate Undisturbed() { meta == read == parsed }
  }

  function Hit<V>(k: Codec<V>, c: Cache, call: Call): Option<V> {
    if StampOf(call.meta).None? || call.read.Absent? || call.path !in c.entries then None
    else
      var e := c.entries[call.path];
      if e.stamp == StampOf(call.meta).value && e.hash == k.hash(call.read.content) then k.decode(e.json) else None
  }

  function Value<V>(k: Codec<V>, c: Cache, call: Call): V {
    var hit := Hit(k, c, call);
    if hit.Some? then hit.value else k.parse(call.parsed)
  }

  function Next<V>(k: Codec<V>, c: Cache, call: Call): Cache {
    if Hit(k, c, call).Some? then c.(hits := c.hits + 1)
    else
      var json := k.encode(k.parse(call.parsed));
      if call.meta.Absent? || call.read.Absent? || json.None? then c.(loads := c.loads + 1)
      else
        var e := Entry(StampOf(call.meta).value, k.hash(call.read.content), json.value);
        c.(loads := c.loads + 1, entries := c.entries[call.path := e])
  }

  class Memo<V> {
    const k: Codec<V>
    var entries: map<Path, Entry>
    var hits: nat
    var loads: nat

    constructor (k: Codec<V>)
      ensures this.k == k && entries == map[] && hits == 0 && loads == 0
    {
      this.k, entries, hits, loads := k, map[], 0, 0;
    }

    method Cached(call: Call) returns (value: V)
      modifies this
      ensures value == Value(k, old(Cache(entries, hits, loads)), call)
      ensures Cache(entries, hits, loads) == Next(k, old(Cache(entries, hits, loads)), call)
    {
      var stamp := StampOf(call.meta);
      var hash := if stamp.Some? && call.read.File? then Some(k.hash(call.read.content)) else None;
      if stamp.Some? && hash.Some? && call.path in entries {
        var e := entries[call.path];
        if e.stamp == stamp.value && e.hash == hash.value {
          var decoded := k.decode(e.json);
          if decoded.Some? {
            hits := hits + 1;
            return decoded.value;
          }
        }
      }
      loads := loads + 1;
      value := k.parse(call.parsed);
      var json := k.encode(value);
      if stamp.Some? && hash.Some? && json.Some? {
        entries := entries[call.path := Entry(stamp.value, hash.value, json.value)];
      }
    }
  }

  // -------------------------------------------------------------- hypotheses

  /** Reading back a value's own serialisation gives the value. */
  ghost predicate RoundTrips<V(!new)>(k: Codec<V>) {
    forall v: V :: k.encode(v).Some? ==> k.decode(k.encode(v).value) == Some(v)
  }

  /** The cache cannot tell the two files apart. */
  predicate LookAlike<V>(k: Codec<V>, a: View, b: View) {
    && a.File? && b.File? && a.modified == b.modified && |a.content| == |b.content|
    && k.hash(a.content) == k.hash(b.content)
  }

  /** Of the files seen, those the cache cannot tell apart load alike. */
  ghost predicate Agrees<V>(k: Codec<V>, seen: set<View>) {
    forall a, b | a in seen && b in seen && LookAlike(k, a, b) ::
      k.encode(k.parse(a)).Some? ==> k.parse(a) == k.parse(b)
  }

  /** A cached stamp and hash answer for this file. */
  predicate Matches<V>(k: Codec<V>, v: View, stamp: Stamp, hash: nat) {
    StampOf(v) == Some(stamp) && k.hash(v.content) == hash
  }

  /** An entry answers correctly for every file seen that it can match. */
  ghost predicate EntryGood<V>(k: Codec<V>, seen: set<View>, e: Entry) {
    forall v :: v in seen && Matches(k, v, e.stamp, e.hash) ==> k.decode(e.json) == Some(k.parse(v))
  }

  ghost predicate Good<V>(k: Codec<V>, seen: set<View>, c: Cache) {
    forall p :: p in c.entries ==> EntryGood(k, seen, c.entries[p])
  }

  // ---------------------------------------------------------------- theorems

  const EMPTY := Cache(map[], 0, 0)

  /** One undisturbed call returns what a plain load would, and keeps the
      cache good. */
  lemma CallIsFresh<V(!new)>(k: Codec<V>, seen: set<View>, c: Cache, call: Call)
    requires Agrees(k, seen) && RoundTrips(k) && Good(k, seen, c)
    requires call.Undisturbed() && call.meta in seen
    ensures Value(k, c, call) == k.parse(call.meta)
    ensures Good(k, seen, Next(k, c, call))
  {
    var c' := Next(k, c, call);
    forall p | p in c'.entries ensures EntryGood(k, seen, c'.entries[p]) {
      if p in c.entries && c'.entries[p] == c.entries[p] {
        assert EntryGood(k, seen, c.entries[p]);
      } else {
        var e := c'.entries[p];
        assert forall v :: v in seen && Matches(k, v, e.stamp, e.hash) ==> LookAlike(k, call.meta, v);
      }
    }
  }

  function Run<V>(k: Codec<V>, c: Cache, calls: seq<Call>): Cache {
    if calls == [] then c else Next(k, Run(k, c, calls[..|calls| - 1]), calls[|calls| - 1])
  }

  /** Calls that nothing disturbs, of files that are seen. */
  predicate CallsOver(seen: set<View>, calls: seq<Call>) {
    forall c :: c in calls ==> c.Undisturbed() && c.meta in seen
  }

  /** The last of the calls, from an empty cache, returns what a plain load of
      the file would. */
  ghost predicate LastIsFresh<V>(k: Codec<V>, calls: seq<Call>) {
    calls != [] ==>
      var last := calls[|calls| - 1];
      Value(k, Run(k, EMPTY, calls[..|calls| - 1]), last) == k.parse(last.meta)
  }

  /** Over every run of external changes (between calls) and reads, every read
      equals a plain load, and each call is one hit or one load. */
  lemma {:induction false} EveryReadIsFresh<V(!new)>(k: Codec<V>, seen: set<View>, calls: seq<Call>)
    requires Agrees(k, seen) && RoundTrips(k) && CallsOver(seen, calls)
    ensures Good(k, seen, Run(k, EMPTY, calls))
    ensures var c := Run(k, EMPTY, calls); c.hits + c.loads == |calls|
    ensures LastIsFresh(k, calls)
  {
    if calls != [] {
      var front, last := calls[..|calls| - 1], calls[|calls| - 1];
      assert last in calls;
      EveryReadIsFresh(k, seen, front);
      CallIsFresh(k, seen, Run(k, EMPTY, front), last);
    }
  }

  /** Two files that look alike but load differently: the second read gets the
      first one's value. */
  lemma LookAlikesAreConfused<V(!new)>(k: Codec<V>, a: View, b: View, path: Path)
    requires RoundTrips(k) && LookAlike(k, a, b) && k.encode(k.parse(a)).Some?
    ensures Value(k, Next(k, EMPTY, Call(path, a, a, a)), Call(path, b, b, b)) == k.parse(a)
  {
  }

  /** The condition is exact: every read of every run over the files seen
      equals a plain load if and only if files that look alike load alike. */
  lemma FreshnessIff<V(!new)>(k: Codec<V>, seen: set<View>)
    requires RoundTrips(k)
    ensures Agrees(k, seen) <==> forall calls: seq<Call> :: CallsOver(seen, calls) ==> LastIsFresh(k, calls)
  {
    if Agrees(k, seen) {
      forall calls: seq<Call> | CallsOver(seen, calls) ensures LastIsFresh(k, calls) {
        EveryReadIsFresh(k, seen, calls);
      }
    } else {
      var a, b :| a in seen && b in seen && LookAlike(k, a, b)
               && k.encode(k.parse(a)).Some? && k.parse(a) != k.parse(b);
      var first, second := Call("f", a, a, a), Call("f", b, b, b);
      LookAlikesAreConfused(k, a, b, "f");
      assert [first, second][..1] == [first] && [first][..0] == [];
      assert Run(k, EMPTY, [first]) == Next(k, EMPTY, first);
      assert CallsOver(seen, [first, second]) && !LastIsFresh(k, [first, second]);
    }
  }

  // ----------------------------------------------- what the loaders look at

  /** Of the files seen, no two with equal stamps and equal hashes differ in
      content. */
  ghost predicate NoCollisions<V>(k: Codec<V>, seen: set<View>) {
    forall a, b | a in seen && b in seen && LookAlike(k, a, b) :: a.content == b.content
  }

  /** A loader of the bytes alone, such as the health store's. */
  ghost predicate ReadsContentOnly<V>(k: Codec<V>) {
    forall a: View, b: View :: a.File? && b.File? && a.content == b.content ==> k.parse(a) == k.parse(b)
  }

  lemma ContentLoadersAgree<V>(k: Codec<V>, seen: set<View>)
    requires NoCollisions(k, seen) && ReadsContentOnly(k)
    ensures Agrees(k, seen)
  {
  }

  const MAX_PRICE_BYTES := 2_097_152

  /** The group or world write bit, 0o020 or 0o002. */
  predicate LooselyWritable(mode: nat) { mode / 16 % 2 == 1 || mode / 2 % 2 == 1 }

  predicate Rejected(v: View) { v.Absent? || |v.content| > MAX_PRICE_BYTES || LooselyWritable(v.mode) }

  /** The pricing loader: an empty catalogue for a file it does not trust. */
  ghost predicate LoadsPricing<V>(k: Codec<V>, empty: V, read: string -> V) {
    forall v: View :: k.parse(v) == if Rejected(v) then empty else read(v.content)
  }

  /** Some file's mode changes what the loader makes of it, and nothing else
      about it changes. */
  ghost predicate ModeMatters<V>(empty: V, read: string -> V, seen: set<View>) {
    exists a, b :: a in seen && b in seen && a.File? && b.File? && a.content == b.content && StampOf(a) == StampOf(b)
                && Rejected(a) && !Rejected(b) && read(a.content) != empty
  }

  /** The pricing cache is always fresh if and only if no file seen is made
      (or ceases to be) loosely writable with its bytes and times unchanged. */
  lemma PricingAgreesIff<V>(k: Codec<V>, empty: V, read: string -> V, seen: set<View>)
    requires LoadsPricing(k, empty, read) && NoCollisions(k, seen) && forall v: V :: k.encode(v).Some?
    ensures Agrees(k, seen) <==> !ModeMatters(empty, read, seen)
  {
    if ModeMatters(empty, read, seen) {
      var a, b :| a in seen && b in seen && a.File? && b.File? && a.content == b.content && StampOf(a) == StampOf(b)
               && Rejected(a) && !Rejected(b) && read(a.content) != empty;
      assert LookAlike(k, a, b) && k.parse(a) != k.parse(b);
    } else {
      forall a, b | a in seen && b in seen && LookAlike(k, a, b) ensures k.parse(a) == k.parse(b) {
        assert a.content == b.content;
      }
    }
  }

  /** A catalogue read while group-writable goes on being served as empty
      after the mode is put right, and one read while trusted goes on being
      served after it is opened up. */
  lemma ChangeOfModeIsMissed<V(!new)>(k: Codec<V>, empty: V, read: string -> V,
                                      content: string, at: Option<int>, path: Path)
    requires LoadsPricing(k, empty, read) && RoundTrips(k) && |content| <= MAX_PRICE_BYTES && read(content) != empty
    requires k.encode(empty).Some? && k.encode(read(content)).Some?
    ensures var loose, tight := File(content, at, 436), File(content, at, 420);
            var readLoose, readTight := Call(path, loose, loose, loose), Call(path, tight, tight, tight);
            && k.parse(tight) == read(content) && k.parse(loose) == empty
            && Value(k, Next(k, EMPTY, readLoose), readTight) == empty
            && Value(k, Next(k, EMPTY, readTight), readLoose) == read(content)
  {
    var loose, tight := File(content, at, 436), File(content, at, 420);
    assert Rejected(loose) && !Rejected(tight);
    LookAlikesAreConfused(k, loose, tight, path);
    LookAlikesAreConfused(k, tight, loose, path);
  }

  // --------------------------------------------- changes inside one call

  /** What a miss stores when the file may change between the three looks: the
      cache stays good exactly when every file seen with the stamp of the
      first look and the hash of the second loads as the third look did. */
  lemma MissKeepsGoodIff<V(!new)>(k: Codec<V>, seen: set<View>, c: Cache, call: Call)
    requires RoundTrips(k) && Good(k, seen, c)
    requires Hit(k, c, call).None? && call.meta.File? && call.read.File? && k.encode(k.parse(call.parsed)).Some?
    ensures Good(k, seen, Next(k, c, call)) <==>
              forall v :: v in seen && Matches(k, v, StampOf(call.meta).value, k.hash(call.read.content)) ==>
                k.parse(v) == k.parse(call.parsed)
  {
    var s := Next(k, c, call);
    var e := s.entries[call.path];
    assert k.decode(e.json) == Some(k.parse(call.parsed));
    forall p | p in s.entries && p != call.path ensures EntryGood(k, seen, s.entries[p]) {
      assert s.entries[p] == c.entries[p];
    }
    assert Good(k, seen, s) <==> EntryGood(k, seen, e);
  }

  /** If the first two looks see one stamp, that is: exactly when the content
      hashed and the content parsed give the same value. */
  lemma SteadyMissKeepsGoodIff<V(!new)>(k: Codec<V>, seen: set<View>, c: Cache, call: Call)
    requires Agrees(k, seen) && RoundTrips(k) && Good(k, seen, c)
    requires Hit(k, c, call).None? && call.read.File? && StampOf(call.read) == StampOf(call.meta) && call.read in seen
    requires k.encode(k.parse(call.parsed)).Some?
    ensures Good(k, seen, Next(k, c, call)) <==> k.parse(call.parsed) == k.parse(call.read)
  {
    MissKeepsGoodIff(k, seen, c, call);
    if k.parse(call.parsed) == k.parse(call.read) {
      forall v | v in seen && Matches(k, v, StampOf(call.meta).value, k.hash(call.read.content))
        ensures k.parse(v) == k.parse(call.parsed)
      {
        assert LookAlike(k, call.read, v);
      }
    }
  }

  /** Whatever the three looks of a call see, an entry it stores answers
      correctly for every file seen that it can match. */
  ghost predicate StoresSafely<V>(k: Codec<V>, seen: set<View>, call: Call) {
    call.meta.File? && call.read.File? && k.encode(k.parse(call.parsed)).Some? ==>
      forall v :: v in seen && Matches(k, v, StampOf(call.meta).value, k.hash(call.read.content)) ==>
        k.parse(v) == k.parse(call.parsed)
  }

  /** An undisturbed call of a file seen does, if look-alikes load alike. */
  lemma UndisturbedStoresSafely<V>(k: Codec<V>, seen: set<View>, call: Call)
    requires Agrees(k, seen) && call.Undisturbed() && call.meta in seen
    ensures StoresSafely(k, seen, call)
  {
    if call.meta.File? {
      assert forall v :: v in seen && Matches(k, v, StampOf(call.meta).value, k.hash(call.read.content)) ==>
          LookAlike(k, call.meta, v);
    }
  }

  lemma SafeCallKeepsGood<V(!new)>(k: Codec<V>, seen: set<View>, c: Cache, call: Call)
    requires RoundTrips(k) && Good(k, seen, c) && StoresSafely(k, seen, call)
    ensures Good(k, seen, Next(k, c, call))
  {
    if Hit(k, c, call).None? && call.meta.File? && call.read.File? && k.encode(k.parse(call.parsed)).Some? {
      MissKeepsGoodIff(k, seen, c, call);
    }
  }

  /** Files may change inside calls too: as long as each call stores safely,
      every undisturbed read of a file seen equals a plain load. */
  lemma {:induction false} UndisturbedReadsAreFresh<V(!new)>(k: Codec<V>, seen: set<View>, calls: seq<Call>)
    requires RoundTrips(k) && forall c :: c in calls ==> StoresSafely(k, seen, c)
    ensures Good(k, seen, Run(k, EMPTY, calls))
    ensures calls != [] && calls[|calls| - 1].Undisturbed() && calls[|calls| - 1].meta in seen ==>
              LastIsFresh(k, calls)
  {
    if calls != [] {
      var front, last := calls[..|calls| - 1], calls[|calls| - 1];
      assert last in calls;
      UndisturbedReadsAreFresh(k, seen, front);
      SafeCallKeepsGood(k, seen, Run(k, EMPTY, front), last);
      if last.Undisturbed() && last.meta in seen {
        HitIsFresh(k, seen, Run(k, EMPTY, front), last);
      }
    }
  }

  lemma HitIsFresh<V>(k: Codec<V>, seen: set<View>, c: Cache, call: Call)
    requires Good(k, seen, c) && call.Undisturbed() && call.meta in seen
    ensures Value(k, c, call) == k.parse(call.meta)
  {
    if call.path in c.entries {
      assert EntryGood(k, seen, c.entries[call.path]);
    }
  }

  /** A rewrite between the hash and the parse, undone within the same
      timestamp tick, makes the next read serve a value the file never held
      under that hash. */
  lemma RewriteInsideACallPoisons<V(!new)>(k: Codec<V>, a: View, b: View, path: Path)
    requires RoundTrips(k) && a.File? && k.parse(a) != k.parse(b) && k.encode(k.parse(b)).Some?
    ensures var c := Next(k, EMPTY, Call(path, a, a, b));
            var again := Call(path, a, a, a);
            again.Undisturbed() && Value(k, c, again) == k.parse(b) != k.parse(a)
  {
  }
}

/** The corpus publish pipeline: fetch the benchmark sources, decide whether
    the rebuilt overlay may replace the committed one, gate on the prices, and
    commit only when the gate passes. Fractions are exact reals. */
module CorpusPublish {
  import opened FixedWidth

  const MIN_AGENTIC_SCORE_COUNT := 50
  const DROP_THRESHOLD := 0.25
  const CANDIDATE_NAME := "overlay-candidate.json"
  const STATUS_NAME := "build-status.json"

  /** File name to contents; overlay entry to "has an agentic score". */
  type Files = map<string, string>
  type Overlay = map<string, bool>

  function CountScored(o: Option<Overlay>): nat {
    if o.None? then 0 else |set m | m in o.value && o.value[m]|
  }

  // -------------------------------------------------------------- a run's input

  datatype Source = Source(name: string, outputs: seq<string>, ok: bool, written: Files)

  /** `previousCatalog` is what the run finds; the builder reports the rest. */
  datatype Prices = Prices(litellmOk: bool, openrouterOk: bool, catalogModels: nat)

  /** What the overlay builder does: it fails, which stops the run, or it ends
      well with or without a candidate file. */
  datatype Build = BuildFailed | Built(candidate: Option<Overlay>)

  datatype Inputs = Inputs(
    now: int,
    raw: Files,
    lkg: Files,
    sources: seq<Source>,
    allowLkg: bool,
    builder: Files -> Build,
    prices: Prices)

  /** The committed files the two scripts read and write. */
  datatype Tree = Tree(overlay: Option<Overlay>, baseline: Option<int>, catalogModels: nat, builtAt: Option<int>)

  datatype Entry = Entry(name: string, ok: bool, lkg: bool)

  datatype Report = Report(
    entries: seq<Entry>,
    pricesOk: bool,
    prices: Prices,
    previousCatalog: nat,
    stale: bool,
    builtAt: int)

  // ------------------------------------------------- last-known-good files

  predicate AllIn(outputs: seq<string>, lkg: Files) { forall f :: f in outputs ==> f in lkg }

  predicate Covered(outputs: seq<string>, lkg: Files) { outputs != [] && AllIn(outputs, lkg) }

  /** `raw` with the outputs copied back one after the other. */
  function Restored(outputs: seq<string>, raw: Files, lkg: Files): Files {
    if outputs == [] then raw
    else
      var before, f := Restored(outputs[..|outputs| - 1], raw, lkg), outputs[|outputs| - 1];
      if f in lkg then before[f := lkg[f]] else before
  }

  /** What is restored: the last-known-good bytes of the outputs that have
      some, and every other file as it was. */
  lemma {:induction false} RestoredFile(outputs: seq<string>, raw: Files, lkg: Files, f: string)
    ensures var r := Restored(outputs, raw, lkg);
            if f in outputs && f in lkg then f in r && r[f] == lkg[f]
            else (f in r <==> f in raw) && (f in raw ==> r[f] == raw[f])
  {
    if outputs != [] {
      RestoredFile(outputs[..|outputs| - 1], raw, lkg, f);
      assert outputs == outputs[..|outputs| - 1] + [outputs[|outputs| - 1]];
    }
  }

  lemma OneMoreOutput(outputs: seq<string>, i: nat, raw: Files, lkg: Files)
    requires i < |outputs|
    ensures var before, f := Restored(outputs[..i], raw, lkg), outputs[i];
            Restored(outputs[..i + 1], raw, lkg) == if f in lkg then before[f := lkg[f]] else before
    ensures AllIn(outputs[..i + 1], lkg) <==> AllIn(outputs[..i], lkg) && outputs[i] in lkg
  {
    assert outputs[..i + 1][..i] == outputs[..i];
    assert outputs[..i + 1] == outputs[..i] + [outputs[i]];
  }

  /** Copy back each output that has a last-known-good file; true only when
      every output had one. */
  method RestoreLkgFor(outputs: seq<string>, raw: Files, lkg: Files) returns (covered: bool, raw': Files)
    ensures raw' == Restored(outputs, raw, lkg)
    ensures covered == Covered(outputs, lkg)
  {
    raw' := raw;
    var restored := 0;
    for i := 0 to |outputs|
      invariant restored <= i
      invariant restored == i <==> AllIn(outputs[..i], lkg)
      invariant raw' == Restored(outputs[..i], raw, lkg)
    {
      OneMoreOutput(outputs, i, raw, lkg);
      if outputs[i] in lkg {
        raw' := raw'[outputs[i] := lkg[outputs[i]]];
        restored := restored + 1;
      }
    }
    assert outputs[..|outputs|] == outputs;
    covered := outputs != [] && restored == |outputs|;
  }

  function EntryOf(s: Source, lkg: Files, allowLkg: bool): Entry {
    Entry(s.name, s.ok, !s.ok && allowLkg && Covered(s.outputs, lkg))
  }

  function Entries(i: Inputs, lkg: Files): seq<Entry> {
    seq(|i.sources|, k requires 0 <= k < |i.sources| => EntryOf(i.sources[k], lkg, i.allowLkg))
  }

  function Fetched(raw: Files, sources: seq<Source>): Files {
    if sources == [] then raw
    else Fetched(raw, sources[..|sources| - 1]) + sources[|sources| - 1].written
  }

  function Refilled(raw: Files, sources: seq<Source>, lkg: Files, allowLkg: bool): Files {
    if sources == [] then raw
    else
      var s, before := sources[|sources| - 1], Refilled(raw, sources[..|sources| - 1], lkg, allowLkg);
      if s.ok || !allowLkg then before else Restored(s.outputs, before, lkg)
  }

  /** Some failed source lists the file among its outputs. */
  predicate OutputOfFailed(sources: seq<Source>, f: string) {
    exists k :: 0 <= k < |sources| && !sources[k].ok && f in sources[k].outputs
  }

  /** What the refill leaves in each file: the last-known-good bytes exactly
      where a failed source lists it and there are some, else what was
      fetched. The order of the sources does not matter. */
  lemma {:induction false} RefilledFile(raw: Files, sources: seq<Source>, lkg: Files, allowLkg: bool, f: string)
    ensures var r := Refilled(raw, sources, lkg, allowLkg);
            if allowLkg && f in lkg && OutputOfFailed(sources, f) then f in r && r[f] == lkg[f]
            else (f in r <==> f in raw) && (f in raw ==> r[f] == raw[f])
  {
    if sources != [] {
      var front, s := sources[..|sources| - 1], sources[|sources| - 1];
      RefilledFile(raw, front, lkg, allowLkg, f);
      RestoredFile(s.outputs, Refilled(raw, front, lkg, allowLkg), lkg, f);
      FailedOneMore(sources, f);
    }
  }

  lemma FailedOneMore(sources: seq<Source>, f: string)
    requires sources != []
    ensures var front, s := sources[..|sources| - 1], sources[|sources| - 1];
            OutputOfFailed(sources, f) <==> OutputOfFailed(front, f) || (!s.ok && f in s.outputs)
  {
    var front, s := sources[..|sources| - 1], sources[|sources| - 1];
    if k :| 0 <= k < |front| && !front[k].ok && f in front[k].outputs {
      assert sources[k] == front[k];
    }
    if k :| 0 <= k < |sources| && !sources[k].ok && f in sources[k].outputs {
      assert k < |front| ==> front[k] == sources[k];
    }
  }

  /** What fetching leaves in each file: what the last source to write it
      wrote, else what was there. */
  lemma {:induction false} FetchedFile(raw: Files, sources: seq<Source>, f: string)
    ensures var r := Fetched(raw, sources);
            || (&& (forall k :: 0 <= k < |sources| ==> f !in sources[k].written)
                && (f in r <==> f in raw) && (f in raw ==> r[f] == raw[f]))
            || (exists k :: 0 <= k < |sources| && f in sources[k].written && f in r && r[f] == sources[k].written[f]
                         && forall j :: k < j < |sources| ==> f !in sources[j].written)
  {
    if sources != [] && f !in sources[|sources| - 1].written {
      var front := sources[..|sources| - 1];
      FetchedFile(raw, front, f);
      assert forall k :: 0 <= k < |front| ==> front[k] == sources[k];
    }
  }

  method FetchSources(raw: Files, sources: seq<Source>) returns (raw': Files)
    ensures raw' == Fetched(raw, sources)
  {
    raw' := raw;
    for k := 0 to |sources|
      invariant raw' == Fetched(raw, sources[..k])
    {
      raw' := raw' + sources[k].written;
      assert sources[..k + 1][..k] == sources[..k];
    }
    assert sources[..|sources|] == sources;
  }

  method RefillOne(s: Source, raw: Files, lkg: Files, allowLkg: bool) returns (entry: Entry, raw': Files)
    ensures raw' == if s.ok || !allowLkg then raw else Restored(s.outputs, raw, lkg)
    ensures entry == EntryOf(s, lkg, allowLkg)
  {
    var covered := false;
    raw' := raw;
    if !s.ok && allowLkg {
      covered, raw' := RestoreLkgFor(s.outputs, raw, lkg);
    }
    entry := Entry(s.name, s.ok, covered);
  }

  lemma RefilledOneMore(raw: Files, sources: seq<Source>, k: nat, lkg: Files, allowLkg: bool)
    requires k < |sources|
    ensures var before := Refilled(raw, sources[..k], lkg, allowLkg);
            Refilled(raw, sources[..k + 1], lkg, allowLkg) ==
            if sources[k].ok || !allowLkg then before else Restored(sources[k].outputs, before, lkg)
  {
    assert sources[..k + 1][..k] == sources[..k];
  }

  method RefillFailed(raw: Files, i: Inputs, lkg: Files) returns (entries: seq<Entry>, raw': Files)
    ensures raw' == Refilled(raw, i.sources, lkg, i.allowLkg)
    ensures entries == Entries(i, lkg)
  {
    entries, raw' := [], raw;
    for k := 0 to |i.sources|
      invariant raw' == Refilled(raw, i.sources[..k], lkg, i.allowLkg)
      invariant |entries| == k && forall j :: 0 <= j < k ==> entries[j] == EntryOf(i.sources[j], lkg, i.allowLkg)
    {
      RefilledOneMore(raw, i.sources, k, lkg, i.allowLkg);
      var entry;
      entry, raw' := RefillOne(i.sources[k], raw', lkg, i.allowLkg);
      entries := entries + [entry];
    }
    assert i.sources[..|i.sources|] == i.sources;
  }

  // -------------------------------------------------------------- decisions

  predicate Missing(e: Entry) { !e.ok && !e.lkg }

  /** Whether the candidate overlay may replace the committed one. */
  predicate DecideOverlay(entries: seq<Entry>, candidate: nat, committed: nat, committedExists: bool) {
    && (forall e :: e in entries ==> !Missing(e))
    && candidate >= MIN_AGENTIC_SCORE_COUNT
    && !(committedExists && committed > 0 &&
         (committed as real - candidate as real) / committed as real > DROP_THRESHOLD)
  }

  /** The price status the pipeline writes into its report. */
  predicate PricesOk(p: Prices, previous: nat) {
    var shrink := if previous != 0 && p.catalogModels < previous
                  then (previous as real - p.catalogModels as real) / previous as real else 0.0;
    p.litellmOk && p.openrouterOk && shrink <= DROP_THRESHOLD
  }

  /** The gate's own reading of the same report. */
  predicate PriceGate(r: Report) {
    && r.prices.litellmOk
    && r.prices.openrouterOk
    && !(r.previousCatalog != 0 &&
         r.prices.catalogModels as real < r.previousCatalog as real * (1.0 - DROP_THRESHOLD))
  }

  lemma ScaleKeepsOrder(q: real, c: real, w: real)
    requires w > 0.0
    ensures q > c <==> q * w > c * w
  {
    assert (q - c) * w == q * w - c * w;
    if q > c {
      assert (q - c) * w > 0.0;
    } else {
      assert (c - q) * w >= 0.0;
    }
  }

  lemma QuotientExceeds(x: real, w: real, c: real)
    requires w > 0.0
    ensures x / w > c <==> x > c * w
  {
    assert x / w * w == x;
    ScaleKeepsOrder(x / w, c, w);
  }

  /** The three ways the scripts ask whether a count has dropped too far. */
  lemma FractionDropped(part: nat, whole: nat)
    requires whole > 0
    ensures (whole as real - part as real) / whole as real > DROP_THRESHOLD <==> 4 * part < 3 * whole
    ensures part as real < whole as real * (1.0 - DROP_THRESHOLD) <==> 4 * part < 3 * whole
    ensures (part as real - whole as real) / whole as real < 0.0 <==> part < whole
  {
    var w, p := whole as real, part as real;
    QuotientExceeds(w - p, w, DROP_THRESHOLD);
    QuotientExceeds(w - p, w, 0.0);
    OppositeQuotient(p, w);
  }

  lemma OppositeQuotient(p: real, w: real)
    requires w > 0.0
    ensures (p - w) / w == -((w - p) / w)
  {
    assert (p - w) / w * w == p - w && -((w - p) / w) * w == p - w;
  }

  /** The two scripts agree: a written report says the prices are good exactly
      when the gate would let them through. */
  lemma ScriptsAgreeOnPrices(r: Report)
    requires r.pricesOk == PricesOk(r.prices, r.previousCatalog)
    ensures r.pricesOk <==> PriceGate(r)
  {
    if r.previousCatalog > 0 {
      FractionDropped(r.prices.catalogModels, r.previousCatalog);
    }
  }

  // ------------------------------------------------------------ the pipeline

  /** The last-known-good directory after the raw files are copied into it. */
  function Lkg(i: Inputs): Files { i.lkg + (i.raw - {CANDIDATE_NAME, STATUS_NAME}) }

  function BuildOf(i: Inputs): Build {
    i.builder(Refilled(Fetched(i.raw, i.sources), i.sources, Lkg(i), i.allowLkg))
  }

  predicate Aborts(i: Inputs) { BuildOf(i).BuildFailed? }

  function Candidate(i: Inputs): Option<Overlay> { if Aborts(i) then None else BuildOf(i).candidate }

  predicate Accepts(t: Tree, i: Inputs) {
    DecideOverlay(Entries(i, Lkg(i)), CountScored(Candidate(i)), CountScored(t.overlay), t.overlay.Some?)
  }

  function PipelineReport(t: Tree, i: Inputs): Report {
    Report(Entries(i, Lkg(i)), PricesOk(i.prices, t.catalogModels), i.prices, t.catalogModels, !Accepts(t, i),
           if Accepts(t, i) || t.builtAt.None? then i.now else t.builtAt.value)
  }

  function PipelineTree(t: Tree, i: Inputs): Tree {
    t.(overlay := if Accepts(t, i) then Candidate(i) else t.overlay,
       catalogModels := i.prices.catalogModels,
       builtAt := Some(PipelineReport(t, i).builtAt))
  }

  /** The overlay on disk against the floor and the baseline. */
  predicate FloorHolds(t: Tree) {
    var count := CountScored(t.overlay);
    && count >= MIN_AGENTIC_SCORE_COUNT
    && !(t.baseline.Some? && t.baseline.value > 0 && count as real < t.baseline.value as real * (1.0 - DROP_THRESHOLD))
  }

  predicate CoverageHolds(t: Tree) {
    var count := CountScored(t.overlay);
    && count >= MIN_AGENTIC_SCORE_COUNT
    && !(t.baseline.Some? && t.baseline.value > 0 &&
         var drop := (count as real - t.baseline.value as real) / t.baseline.value as real;
         drop < 0.0 && -drop > DROP_THRESHOLD)
  }

  predicate GatePasses(t: Tree, r: Report) {
    PriceGate(r) && if r.stale then FloorHolds(t) else CoverageHolds(t)
  }

  /** The baseline advances only with a fresh overlay. */
  function GateTree(t: Tree, r: Report): Tree {
    if GatePasses(t, r) && !r.stale then t.(baseline := Some(CountScored(t.overlay))) else t
  }

  predicate Kept(t: Tree, i: Inputs) { !Aborts(i) && GatePasses(PipelineTree(t, i), PipelineReport(t, i)) }

  /** One scheduled run: what is committed afterwards. */
  function Publish(t: Tree, i: Inputs): Tree {
    if Kept(t, i) then GateTree(PipelineTree(t, i), PipelineReport(t, i)) else t
  }

  // ------------------------------------------------------------- the scripts

  class Checkout {
    var tree: Tree
    var report: Option<Report>

    constructor (tree: Tree)
      ensures this.tree == tree && report.None?
    {
      this.tree, report := tree, None;
    }

    /** Fetch, refill from last-known-good files, build, decide, record. A
        failing builder ends the run before anything is decided. */
    method RunPipeline(i: Inputs) returns (ok: bool)
      modifies this
      ensures ok <==> !Aborts(i)
      ensures ok ==> tree == PipelineTree(old(tree), i) && report == Some(PipelineReport(old(tree), i))
      ensures !ok ==> tree == old(tree) && report == old(report)
    {
      var lkg := Lkg(i);
      var raw := FetchSources(i.raw, i.sources);
      var entries;
      entries, raw := RefillFailed(raw, i, lkg);
      var build := i.builder(raw);
      if build.BuildFailed? {
        return false;
      }
      var candidate := build.candidate;
      var committed := CountScored(tree.overlay);
      var accept := DecideOverlay(entries, CountScored(candidate), committed, tree.overlay.Some?);
      var overlay, builtAt := tree.overlay, i.now;
      if accept {
        overlay := candidate;
      } else if tree.builtAt.Some? {
        builtAt := tree.builtAt.value;
      }
      var previous := tree.catalogModels;
      report := Some(Report(entries, PricesOk(i.prices, previous), i.prices, previous, !accept, builtAt));
      tree := Tree(overlay, tree.baseline, i.prices.catalogModels, Some(builtAt));
      ok := true;
    }

    /** The gate; exit code 2 when there is no report. */
    method CheckFreshness() returns (exit: nat)
      modifies this
      ensures report == old(report)
      ensures exit == if report.None? then 2 else if GatePasses(old(tree), report.value) then 0 else 1
      ensures tree == if report.None? then old(tree) else GateTree(old(tree), report.value)
    {
      if report.None? {
        return 2;
      }
      if !PriceGate(report.value) {
        return 1;
      }
      if report.value.stale {
        return if FloorHolds(tree) then 0 else 1;
      }
      if !CoverageHolds(tree) {
        return 1;
      }
      tree := tree.(baseline := Some(CountScored(tree.overlay)));
      exit := 0;
    }

    /** One scheduled run on a clean checkout: nothing is kept unless the gate
        exits 0. */
    method PublishRun(i: Inputs) returns (exit: nat)
      modifies this
      ensures tree == Publish(old(tree), i)
      ensures exit == 0 <==> Kept(old(tree), i)
    {
      var committed := tree;
      var ok := RunPipeline(i);
      if !ok {
        return 1;
      }
      exit := CheckFreshness();
      if exit != 0 {
        tree := committed;
      }
    }
  }

  // ---------------------------------------------------------------- theorems

  /** The baseline is the committed overlay's own count, and at least 50. */
  predicate Sound(t: Tree) {
    t.overlay.Some? && t.baseline == Some(CountScored(t.overlay)) && CountScored(t.overlay) >= MIN_AGENTIC_SCORE_COUNT
  }

  /** Counting scored models: none in no overlay, none in an empty one, and an
      entry more counts exactly when it is scored. */
  lemma CountOneMore(o: Overlay, m: string, scored: bool)
    requires m !in o
    ensures CountScored(None) == 0 && CountScored(Some(map[])) == 0
    ensures CountScored(Some(o[m := scored])) == CountScored(Some(o)) + if scored then 1 else 0
  {
    var o' := o[m := scored];
    var before, after := set k | k in o && o[k], set k | k in o' && o'[k];
    assert after == if scored then before + {m} else before;
  }

  function Content(files: Files, f: string): Option<string> { if f in files then Some(files[f]) else None }

  /** The last-known-good bytes of a file: what the run finds among the raw
      files, its own two work files excepted, else what was put by before. */
  function LastGood(i: Inputs, f: string): Option<string> {
    if f in i.raw && f != "overlay-candidate.json" && f != "build-status.json" then Some(i.raw[f])
    else Content(i.lkg, f)
  }

  lemma LkgIsLastGood(i: Inputs, f: string)
    ensures Content(Lkg(i), f) == LastGood(i, f)
  {
  }

  /** What the last source to write the file wrote. */
  function LastWritten(sources: seq<Source>, f: string): Option<string> {
    if sources == [] then None
    else if f in sources[|sources| - 1].written then Some(sources[|sources| - 1].written[f])
    else LastWritten(sources[..|sources| - 1], f)
  }

  lemma {:induction false} FetchedContent(raw: Files, sources: seq<Source>, f: string)
    ensures Content(Fetched(raw, sources), f) ==
            if LastWritten(sources, f).Some? then LastWritten(sources, f) else Content(raw, f)
  {
    if sources != [] {
      FetchedContent(raw, sources[..|sources| - 1], f);
    }
  }

  /** What the builder must find in a file. */
  function Expected(i: Inputs, f: string): Option<string> {
    if i.allowLkg && OutputOfFailed(i.sources, f) && LastGood(i, f).Some? then LastGood(i, f)
    else if LastWritten(i.sources, f).Some? then LastWritten(i.sources, f)
    else Content(i.raw, f)
  }

  /** What the overlay builder is given, file by file. */
  lemma BuilderInput(i: Inputs) returns (files: Files)
    ensures BuildOf(i) == i.builder(files) && forall f :: Content(files, f) == Expected(i, f)
  {
    var fetched := Fetched(i.raw, i.sources);
    files := Refilled(fetched, i.sources, Lkg(i), i.allowLkg);
    forall f ensures Content(files, f) == Expected(i, f) {
      RefilledFile(fetched, i.sources, Lkg(i), i.allowLkg, f);
      FetchedContent(i.raw, i.sources, f);
      LkgIsLastGood(i, f);
    }
  }

  /** The source was fetched, or all its outputs have last-known-good bytes
      that may be used. */
  predicate Available(i: Inputs, s: Source) {
    s.ok || (i.allowLkg && s.outputs != [] && forall f :: f in s.outputs ==> LastGood(i, f).Some?)
  }

  lemma AvailableIff(i: Inputs, s: Source)
    ensures Available(i, s) <==> !Missing(EntryOf(s, Lkg(i), i.allowLkg))
  {
    forall f | f in s.outputs ensures f in Lkg(i) <==> LastGood(i, f).Some? {
      LkgIsLastGood(i, f);
    }
  }

  /** Exactly when the candidate is accepted: every source is available, it
      scores at least 50 models, and at least three quarters of the committed
      overlay's. */
  lemma AcceptsIff(t: Tree, i: Inputs)
    ensures Accepts(t, i) <==>
              && (forall s :: s in i.sources ==> Available(i, s))
              && CountScored(Candidate(i)) >= 50
              && 4 * CountScored(Candidate(i)) >= 3 * CountScored(t.overlay)
  {
    if CountScored(t.overlay) > 0 {
      FractionDropped(CountScored(Candidate(i)), CountScored(t.overlay));
    }
    forall s | s in i.sources ensures Available(i, s) <==> !Missing(EntryOf(s, Lkg(i), i.allowLkg)) {
      AvailableIff(i, s);
    }
    EntriesAreOfSources(i);
  }

  lemma EntriesAreOfSources(i: Inputs)
    ensures (forall e :: e in Entries(i, Lkg(i)) ==> !Missing(e)) <==>
            forall s :: s in i.sources ==> !Missing(EntryOf(s, Lkg(i), i.allowLkg))
  {
    var entries := Entries(i, Lkg(i));
    if forall e :: e in entries ==> !Missing(e) {
      forall s | s in i.sources ensures !Missing(EntryOf(s, Lkg(i), i.allowLkg)) {
        var k :| 0 <= k < |i.sources| && i.sources[k] == s;
        assert entries[k] in entries;
      }
    }
  }

  /** Exactly when a run is kept, from any repository: its builder does not
      fail, both price sources are good, the catalogue keeps three quarters of
      its models, and the overlay it leaves has at least 50 scored models and
      three quarters of the baseline, if there is one. */
  lemma KeptIff(t: Tree, i: Inputs)
    ensures var count := CountScored(if Accepts(t, i) then Candidate(i) else t.overlay);
            Kept(t, i) <==>
              && !Aborts(i) && i.prices.litellmOk && i.prices.openrouterOk
              && 4 * i.prices.catalogModels >= 3 * t.catalogModels
              && count >= 50
              && (t.baseline.Some? && t.baseline.value > 0 ==> 4 * count >= 3 * t.baseline.value)
  {
    if t.catalogModels > 0 {
      FractionDropped(i.prices.catalogModels, t.catalogModels);
    }
    if t.baseline.Some? && t.baseline.value > 0 {
      OverlayChecksAgree(PipelineTree(t, i));
    }
  }

  /** What the report says of the run: whether its prices are good, whether the
      overlay was kept stale, and when the overlay it speaks of was built. */
  lemma ReportIsTrue(t: Tree, i: Inputs)
    ensures var r := PipelineReport(t, i);
            && (r.pricesOk <==> i.prices.litellmOk && i.prices.openrouterOk &&
                                4 * i.prices.catalogModels >= 3 * t.catalogModels)
            && (r.pricesOk <==> PriceGate(r))
            && (r.stale <==> !Accepts(t, i))
            && Some(r.builtAt) == PipelineTree(t, i).builtAt
  {
    ScriptsAgreeOnPrices(PipelineReport(t, i));
    if t.catalogModels > 0 {
      FractionDropped(i.prices.catalogModels, t.catalogModels);
    }
  }

  /** What a kept run publishes, from any repository: with an accepted
      candidate, the overlay the builder made, stamped with the run's time and
      with its own count as the baseline; otherwise the overlay, the baseline
      and the build time it found. The catalogue is the run's either way. */
  lemma KeptRunPublishes(t: Tree, i: Inputs)
    requires Kept(t, i)
    ensures var t' := Publish(t, i);
            && t'.catalogModels == i.prices.catalogModels
            && (Accepts(t, i) ==>
                  && BuildOf(i) == Built(t'.overlay) && t'.builtAt == Some(i.now)
                  && t'.baseline == Some(CountScored(t'.overlay)))
            && (!Accepts(t, i) ==>
                  && t'.overlay == t.overlay && t'.baseline == t.baseline
                  && t'.builtAt == if t.builtAt.Some? then t.builtAt else Some(i.now))
  {
  }

  lemma AcceptedCount(t: Tree, i: Inputs)
    requires Accepts(t, i)
    ensures Candidate(i).Some? && CountScored(Candidate(i)) >= MIN_AGENTIC_SCORE_COUNT
    ensures 4 * CountScored(Candidate(i)) >= 3 * CountScored(t.overlay)
  {
    if CountScored(t.overlay) > 0 {
      FractionDropped(CountScored(Candidate(i)), CountScored(t.overlay));
    }
  }

  /** The two overlay checks of the gate, and the acceptance rule, are one
      condition: at least 50, and at least three quarters of the reference. */
  lemma OverlayChecksAgree(t: Tree)
    requires t.baseline.Some? && t.baseline.value > 0
    ensures FloorHolds(t) <==> CoverageHolds(t)
    ensures CoverageHolds(t) <==>
              CountScored(t.overlay) >= MIN_AGENTIC_SCORE_COUNT && 4 * CountScored(t.overlay) >= 3 * t.baseline.value
  {
    FractionDropped(CountScored(t.overlay), t.baseline.value);
    OppositeQuotient(CountScored(t.overlay) as real, t.baseline.value as real);
  }

  /** In a sound repository the overlay checks never block: a run that is not
      stopped by its builder passes exactly when the prices do. */
  lemma GateBlocksExactlyOnPrices(t: Tree, i: Inputs)
    requires Sound(t)
    ensures Kept(t, i) <==> !Aborts(i) && PriceGate(PipelineReport(t, i))
  {
    OverlayChecksAgree(PipelineTree(t, i));
    if Accepts(t, i) {
      AcceptedCount(t, i);
    }
  }

  /** One run from a sound repository: it stays sound, loses at most a quarter
      of its scored models, and a stale run leaves the overlay, the baseline
      and the build time as they were. */
  lemma PublishKeepsSound(t: Tree, i: Inputs)
    requires Sound(t)
    ensures Sound(Publish(t, i))
    ensures 4 * CountScored(Publish(t, i).overlay) >= 3 * CountScored(t.overlay)
    ensures PipelineReport(t, i).stale ==>
              Publish(t, i).overlay == t.overlay && Publish(t, i).baseline == t.baseline
              && (t.builtAt.Some? ==> Publish(t, i).builtAt == t.builtAt)
    ensures Aborts(i) || !PriceGate(PipelineReport(t, i)) ==> Publish(t, i) == t
  {
    GateBlocksExactlyOnPrices(t, i);
    if Accepts(t, i) {
      AcceptedCount(t, i);
    }
  }

  function PublishAll(t: Tree, runs: seq<Inputs>): Tree {
    if runs == [] then t else Publish(PublishAll(t, runs[..|runs| - 1]), runs[|runs| - 1])
  }

  /** What the run `i` does to `t`: neither the scored models nor the priced
      ones drop by more than a quarter, a stale run keeps the overlay, and only
      bad prices or a failing builder discard the run. */
  predicate GoodRun(t: Tree, i: Inputs) {
    && 4 * CountScored(Publish(t, i).overlay) >= 3 * CountScored(t.overlay)
    && 4 * Publish(t, i).catalogModels >= 3 * t.catalogModels
    && (PipelineReport(t, i).stale ==> Publish(t, i).overlay == t.overlay && Publish(t, i).baseline == t.baseline)
    && (Kept(t, i) <==> !Aborts(i) && PriceGate(PipelineReport(t, i)))
  }

  /** What the price gate protects, from any repository. */
  lemma CatalogShrinksSlowly(t: Tree, i: Inputs)
    ensures 4 * Publish(t, i).catalogModels >= 3 * t.catalogModels
  {
    if t.catalogModels > 0 {
      FractionDropped(i.prices.catalogModels, t.catalogModels);
    }
  }

  lemma SoundRunsAreGood(t: Tree, i: Inputs)
    requires Sound(t)
    ensures Sound(Publish(t, i)) && GoodRun(t, i)
  {
    PublishKeepsSound(t, i);
    GateBlocksExactlyOnPrices(t, i);
    CatalogShrinksSlowly(t, i);
  }

  /** Every sequence of runs keeps a sound repository sound. */
  lemma {:induction false} EverySequenceStaysSound(t: Tree, runs: seq<Inputs>)
    requires Sound(t)
    ensures Sound(PublishAll(t, runs))
  {
    if runs != [] {
      EverySequenceStaysSound(t, runs[..|runs| - 1]);
      SoundRunsAreGood(PublishAll(t, runs[..|runs| - 1]), runs[|runs| - 1]);
    }
  }

  /** Each run of every sequence from a sound repository is a good one. */
  lemma EveryRunIsGood(t: Tree, runs: seq<Inputs>, k: nat)
    requires Sound(t) && k < |runs|
    ensures GoodRun(PublishAll(t, runs[..k]), runs[k])
  {
    EverySequenceStaysSound(t, runs[..k]);
    SoundRunsAreGood(PublishAll(t, runs[..k]), runs[k]);
  }

  /** Remark. From any repository at all, a kept run leaves at least 50 scored models,
      and a kept run with a fresh overlay leaves a sound repository. */
  lemma KeptRunRepairs(t: Tree, i: Inputs)
    requires Kept(t, i)
    ensures CountScored(Publish(t, i).overlay) >= MIN_AGENTIC_SCORE_COUNT
    ensures !PipelineReport(t, i).stale ==> Sound(Publish(t, i))
  {
  }

  /** With no last-known-good bytes, one failed source keeps the overlay. */
  lemma OneOutageKeepsTheOverlay(t: Tree, i: Inputs, s: Source)
    requires i.raw == map[] && i.lkg == map[] && s in i.sources && !s.ok
    ensures PipelineReport(t, i).stale && PipelineTree(t, i).overlay == t.overlay
    ensures Publish(t, i).overlay == t.overlay && Publish(t, i).baseline == t.baseline
  {
    var k :| 0 <= k < |i.sources| && i.sources[k] == s;
    var e := Entries(i, Lkg(i))[k];
    assert s.outputs != [] ==> s.outputs[0] in s.outputs && s.outputs[0] !in Lkg(i);
    assert Missing(e) && e in Entries(i, Lkg(i));
  }
}

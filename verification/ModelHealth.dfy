/** The per-model health record: the failure-counting breaker, the
    classification / quota-wall skip rule and the pre-query gate, with the
    operations that update a record and the store that holds the records. */
module ModelHealth {
  import opened FixedWidth

  const BREAKER_THRESHOLD := 3
  const BREAKER_COOLDOWN_SECS := 300
  const CAPACITY_CLASSIFICATION_TTL_SECS := 1800
  const GATE_BACKOFF_BASE_SECS := 30
  const GATE_BACKOFF_CAP_SECS := 900
  const GATE_HALF_OPEN_CLAIM_SECS := 60

  datatype Classification = Reachable | Capacity | Unprovisioned | Unauthorized | Error | Unknown {
    predicate SkipsConsult() {
      Capacity? || Unprovisioned? || Unauthorized?
    }
  }

  datatype Gate = Gate(openCount: U32, retryNotBefore: Option<I64>, claimUntil: Option<I64>)

  datatype Health = Health(
    calls: U64,
    failures: U64,
    consecutiveFailures: U32,
    lastFailure: Option<I64>,
    provider: Option<string>,
    classification: Option<Classification>,
    checkedAt: Option<I64>,
    quotaWallUntil: Option<I64>,
    gate: Option<Gate>)

  const DEFAULT := Health(0, 0, 0, None, None, None, None, None, None)

  datatype Precheck = Fresh(checkedAt: I64) | NeedsProbe(halfOpen: bool) | Skip(until: I64)

  // ------------------------------------------------------------- decisions

  function PrecheckAt(h: Health, now: I64, ttl: I64): Precheck {
    if h.gate.Some? && h.gate.value.retryNotBefore.Some? && h.gate.value.retryNotBefore.value > now then
      Skip(h.gate.value.retryNotBefore.value)
    else if h.gate.Some? && h.gate.value.openCount > 0 then
      if h.gate.value.claimUntil.Some? && h.gate.value.claimUntil.value > now then
        Skip(h.gate.value.claimUntil.value)
      else
        NeedsProbe(true)
    else if h.classification == Some(Reachable) && h.checkedAt.Some? && SatSub(now, h.checkedAt.value) < ttl then
      Fresh(h.checkedAt.value)
    else
      NeedsProbe(false)
  }

  predicate SkippedAt(h: Health, now: I64) {
    if h.quotaWallUntil.Some? && now < h.quotaWallUntil.value then true
    else match h.classification
      case Some(Capacity) =>
        h.checkedAt.Some? && SatSub(now, h.checkedAt.value) < CAPACITY_CLASSIFICATION_TTL_SECS
      case Some(Unprovisioned) => true
      case Some(Unauthorized) => true
      case _ => false
  }

  predicate BreakerOpenAt(h: Health, now: I64) {
    && h.consecutiveFailures >= BREAKER_THRESHOLD
    && h.lastFailure.Some?
    && SatSub(now, h.lastFailure.value) < BREAKER_COOLDOWN_SECS
  }

  // --------------------------------------------------------------- updates

  /** The backoff the code computes: the shift amount is clamped to 16. */
  function Backoff(openCount: U32): I64 {
    var exp := Min(Max(openCount - 1, 0), 16);
    Min(Clamp(GATE_BACKOFF_BASE_SECS * Pow2(exp)), GATE_BACKOFF_CAP_SECS)
  }

  function RetryAfterSecs(retryAfter: Option<U64>): I64 {
    if retryAfter.None? then 0 else Min(retryAfter.value, I64_MAX)
  }

  function ClaimHalfOpen(h: Health, now: I64): Health {
    if h.gate.None? then h
    else h.(gate := Some(h.gate.value.(claimUntil := Some(WrapAdd(now, GATE_HALF_OPEN_CLAIM_SECS)))))
  }

  function GateFailed(h: Health, now: I64, provider: string, cls: Classification, retryAfter: Option<U64>): Health {
    var n := Inc32(if h.gate.Some? then h.gate.value.openCount else 0);
    h.(gate := Some(Gate(n, Some(SatAdd(now, Max(Backoff(n), RetryAfterSecs(retryAfter)))), None)),
       checkedAt := Some(now),
       provider := Some(provider),
       classification := Some(cls),
       lastFailure := Some(now))
  }

  function GateSucceeded(h: Health, now: I64, provider: string): Health {
    h.(gate := None, checkedAt := Some(now), provider := Some(provider), classification := Some(Reachable))
  }

  function MarkChecked(h: Health, now: I64, provider: string, cls: Classification): Health {
    h.(checkedAt := Some(now), provider := Some(provider), classification := Some(cls))
  }

  // ------------------------------------------------------------- histories

  /** One recorded outcome, or one gate decision taken under the store lock. */
  datatype Event =
    | Success(at: I64)
    | ClassifiedSuccess(at: I64, provider: string, cls: Classification)
    | Failure(at: I64)
    | ClassifiedFailure(at: I64, provider: string, cls: Classification, wall: Option<I64>)
    | GateFailure(at: I64, provider: string, cls: Classification, retryAfter: Option<U64>)
    | GateSuccess(at: I64, provider: string)
    | Decide(at: I64, ttl: I64)
  {
    /** A skip-class failure of the classified recorder: the provider is full,
        the model not provisioned, or the credential refused. */
    predicate Neutral() { ClassifiedFailure? && (cls.Capacity? || cls.Unprovisioned? || cls.Unauthorized?) }

    /** A failure that counts against the breaker. */
    predicate Counted() { Failure? || (ClassifiedFailure? && (cls.Error? || cls.Unknown? || cls.Reachable?)) }

    predicate Succeeds() { Success? || ClassifiedSuccess? }

    predicate GateOutcome() { GateFailure? || GateSuccess? }
  }

  function Step(h: Health, e: Event): Health {
    match e
    case Success(at) =>
      h.(calls := Inc64(h.calls), consecutiveFailures := 0, checkedAt := Some(at))
    case ClassifiedSuccess(at, provider, cls) =>
      MarkChecked(h.(quotaWallUntil := None, calls := Inc64(h.calls), consecutiveFailures := 0), at, provider, cls)
    case Failure(at) =>
      h.(calls := Inc64(h.calls), failures := Inc64(h.failures),
         consecutiveFailures := Inc32(h.consecutiveFailures),
         lastFailure := Some(at), checkedAt := Some(at))
    case ClassifiedFailure(at, provider, cls, wall) =>
      var h := h.(calls := Inc64(h.calls), quotaWallUntil := if wall.Some? then wall else h.quotaWallUntil);
      if cls.SkipsConsult() then
        if provider != "" then MarkChecked(h, at, provider, cls)
        else h.(checkedAt := Some(at), classification := Some(cls))
      else
        var h := h.(failures := Inc64(h.failures), consecutiveFailures := Inc32(h.consecutiveFailures),
                    lastFailure := Some(at));
        if provider != "" then MarkChecked(h, at, provider, cls) else h.(checkedAt := Some(at))
    case GateFailure(at, provider, cls, retryAfter) => GateFailed(h, at, provider, cls, retryAfter)
    case GateSuccess(at, provider) => GateSucceeded(h, at, provider)
    case Decide(at, ttl) =>
      if PrecheckAt(h, at, ttl) == NeedsProbe(true) then ClaimHalfOpen(h, at) else h
  }

  function Run(h: Health, es: seq<Event>): Health {
    if es == [] then h else Step(Run(h, es[..|es| - 1]), es[|es| - 1])
  }

  predicate IsNotNeutral(e: Event) { !e.Neutral() }

  predicate IsCounted(e: Event) { e.Counted() }

  predicate IsGateFailure(e: Event) { e.GateFailure? }

  /** The events of `es` that satisfy `p`, in order. */
  function Select(es: seq<Event>, p: Event -> bool): seq<Event> {
    if es == [] then []
    else Select(es[..|es| - 1], p) + if p(es[|es| - 1]) then [es[|es| - 1]] else []
  }

  lemma SelectLast(es: seq<Event>, p: Event -> bool)
    requires es != []
    ensures var front, e := Select(es[..|es| - 1], p), es[|es| - 1];
            Select(es, p) == if p(e) then front + [e] else front
  {
  }

  // ------------------------------------------------------- breaker theorems

  function Erase(es: seq<Event>): seq<Event> { Select(es, IsNotNeutral) }

  /** What the breaker reads and what its callers report. */
  predicate SameBreaker(a: Health, b: Health) {
    && a.failures == b.failures
    && a.consecutiveFailures == b.consecutiveFailures
    && a.lastFailure == b.lastFailure
  }

  /** A step changes the breaker fields as a function of those fields alone,
      except for gate decisions, which change none of them. */
  lemma BreakerStep(a: Health, b: Health, e: Event)
    requires SameBreaker(a, b)
    ensures SameBreaker(Step(a, e), Step(b, e))
    ensures e.Neutral() ==> SameBreaker(Step(a, e), b)
  {
  }

  /** Erasing every skip-class failure from any history leaves the breaker as
      it was, at every time. */
  lemma {:induction false} SkipClassFailuresAreBreakerNeutral(h: Health, es: seq<Event>)
    ensures SameBreaker(Run(h, es), Run(h, Erase(es)))
    ensures forall now: I64 :: BreakerOpenAt(Run(h, es), now) == BreakerOpenAt(Run(h, Erase(es)), now)
  {
    if es != [] {
      var front, e := es[..|es| - 1], es[|es| - 1];
      SkipClassFailuresAreBreakerNeutral(h, front);
      BreakerStep(Run(h, front), Run(h, Erase(front)), e);
      if e.Neutral() {
        assert Erase(es) == Erase(front);
      } else {
        assert Erase(es)[..|Erase(es)| - 1] == Erase(front);
      }
    }
  }

  lemma CounterStep(h: Health, e: Event)
    requires !e.Succeeds()
    ensures Step(h, e).consecutiveFailures ==
            if e.Counted() then Inc32(h.consecutiveFailures) else h.consecutiveFailures
  {
  }

  /** The counter is the saturated number of counted failures since the last
      success (`es` holds no success; `h` is any record, so any prefix). */
  lemma {:induction false} ConsecutiveFailuresCountsTheTail(h: Health, es: seq<Event>)
    requires forall e :: e in es ==> !e.Succeeds()
    ensures Run(h, es).consecutiveFailures
         == Min(h.consecutiveFailures + |Select(es, IsCounted)|, U32_MAX)
  {
    if es != [] {
      var front, e := es[..|es| - 1], es[|es| - 1];
      ConsecutiveFailuresCountsTheTail(h, front);
      CounterStep(Run(h, front), e);
      assert |Select(es, IsCounted)| == |Select(front, IsCounted)| + if e.Counted() then 1 else 0;
    }
  }

  predicate IsStamp(e: Event) { e.Counted() || e.GateFailure? }

  lemma StampStep(h: Health, e: Event)
    ensures Step(h, e).lastFailure == if IsStamp(e) then Some(e.at) else h.lastFailure
  {
  }

  /** The failure time is that of the latest counted or gate failure. */
  lemma {:induction false} LastFailureIsTheLatestStamp(h: Health, es: seq<Event>)
    ensures var stamps := Select(es, IsStamp);
            Run(h, es).lastFailure == if stamps == [] then h.lastFailure else Some(stamps[|stamps| - 1].at)
  {
    if es != [] {
      LastFailureIsTheLatestStamp(h, es[..|es| - 1]);
      StampStep(Run(h, es[..|es| - 1]), es[|es| - 1]);
      SelectLast(es, IsStamp);
    }
  }

  /** The events since the last success; all of them if there is none. */
  function SinceSuccess(es: seq<Event>): seq<Event> {
    if es == [] || es[|es| - 1].Succeeds() then [] else SinceSuccess(es[..|es| - 1]) + [es[|es| - 1]]
  }

  /** The counter over a whole history, from the empty record. */
  lemma {:induction false} CounterIsTheTail(es: seq<Event>)
    ensures Run(DEFAULT, es).consecutiveFailures == Min(|Select(SinceSuccess(es), IsCounted)|, U32_MAX)
  {
    if es != [] && !es[|es| - 1].Succeeds() {
      CounterIsTheTail(es[..|es| - 1]);
      CounterStep(Run(DEFAULT, es[..|es| - 1]), es[|es| - 1]);
      var tail := SinceSuccess(es);
      assert tail[..|tail| - 1] == SinceSuccess(es[..|es| - 1]);
      SelectLast(tail, IsCounted);
    }
  }

  /** The breaker in full, for every history: it is open exactly when at least
      three counted failures follow the last success, if there was one, and
      the latest counted or gate failure is less than the cooldown ago. */
  lemma BreakerOpenIff(es: seq<Event>, now: I64)
    ensures var stamps := Select(es, IsStamp);
            BreakerOpenAt(Run(DEFAULT, es), now) <==>
              && |Select(SinceSuccess(es), IsCounted)| >= 3
              && stamps != [] && now - stamps[|stamps| - 1].at < 300
  {
    CounterIsTheTail(es);
    LastFailureIsTheLatestStamp(DEFAULT, es);
  }

  /** The gate recorder is not breaker-neutral: it stamps the failure time for
      a skip-class outcome too, and so re-arms a breaker whose cooldown is
      over, although the outcome is never counted. */
  lemma GateFailureReArmsTheBreaker()
    ensures var es := [Failure(0), Failure(1), Failure(2)];
            && !BreakerOpenAt(Run(DEFAULT, es), 400)
            && BreakerOpenAt(Run(DEFAULT, es + [GateFailure(390, "p", Capacity, None)]), 400)
            && Run(DEFAULT, es + [GateFailure(390, "p", Capacity, None)]).failures == Run(DEFAULT, es).failures
  {
    var es := [Failure(0), Failure(1), Failure(2)];
    assert es[..2] == [Failure(0), Failure(1)] && es[..2][..1] == [Failure(0)] && es[..2][..1][..0] == [];
    var h1 := Step(DEFAULT, Failure(0));
    assert Run(DEFAULT, [Failure(0)]) == h1;
    var h2 := Step(h1, Failure(1));
    assert Run(DEFAULT, es[..2]) == h2;
    assert Run(DEFAULT, es) == Step(h2, Failure(2));
    assert (es + [GateFailure(390, "p", Capacity, None)])[..3] == es;
  }

  /** Remark. Exactly when one gate failure changes the breaker's answer at a time:
      the counter has reached the threshold and just one of the two stamps is
      inside the cooldown. */
  lemma GateFailureBreakerEffect(h: Health, e: Event, now: I64)
    requires e.GateFailure?
    ensures BreakerOpenAt(Step(h, e), now) != BreakerOpenAt(h, now)
       <==> && h.consecutiveFailures >= BREAKER_THRESHOLD
            && (SatSub(now, e.at) < BREAKER_COOLDOWN_SECS)
            != (h.lastFailure.Some? && SatSub(now, h.lastFailure.value) < BREAKER_COOLDOWN_SECS)
  {
  }

  // ---------------------------------------------------------- gate theorems

  function OpenCount(h: Health): U32 { if h.gate.Some? then h.gate.value.openCount else 0 }

  /** The documented backoff, with no clamp on the shift: 30 s doubling to a
      cap of 15 minutes. */
  function DocumentedBackoff(k: nat): nat
    requires k >= 1
  {
    Min(30 * Pow2(k - 1), 900)
  }

  lemma {:induction false} Pow2AtLeast(m: nat, n: nat)
    requires m <= n
    ensures Pow2(m) <= Pow2(n)
  {
    if m < n {
      Pow2AtLeast(m, n - 1);
    }
  }

  /** Neither the shift clamp nor the counter's saturation changes the backoff. */
  lemma ShiftClampIsInvisible(k: nat)
    requires k >= 1
    ensures Backoff(Min(k, U32_MAX)) == DocumentedBackoff(k)
  {
    assert Pow2(5) == 32;
    if k >= 6 {
      Pow2AtLeast(5, k - 1);
      Pow2AtLeast(5, Min(Min(k, U32_MAX) - 1, 16));
      Pow2AtLeast(Min(Min(k, U32_MAX) - 1, 16), 16);
      assert Pow2(16) == 65536 by { Pow2Of16(); }
    } else {
      Pow2AtLeast(k - 1, 5);
    }
  }

  lemma Pow2Of16()
    ensures Pow2(16) == 65536
  {
    assert Pow2(8) == 256;
    assert Pow2(12) == 4096;
  }

  /** The documented horizon of the `k`-th failure in a row, in numbers: the
      backoff, or the provider's Retry-After if that is longer. */
  function Horizon(k: nat, failure: Event): I64
    requires k >= 1 && failure.GateFailure?
  {
    match failure.retryAfter
    case None => Min(failure.at + DocumentedBackoff(k), 0x7fff_ffff_ffff_ffff)
    case Some(secs) =>
      Min(failure.at + Max(DocumentedBackoff(k), Min(secs, 0x7fff_ffff_ffff_ffff)), 0x7fff_ffff_ffff_ffff)
  }

  /** One step of an open gate, with `k` the unsaturated number of failures. */
  lemma GateStep(h: Health, e: Event, k: nat)
    requires !e.GateSuccess? && OpenCount(h) == Min(k, U32_MAX)
    ensures e.GateFailure? ==> Step(h, e).gate == Some(Gate(Min(k + 1, U32_MAX), Some(Horizon(k + 1, e)), None))
    ensures !e.GateFailure? ==>
              && OpenCount(Step(h, e)) == OpenCount(h)
              && (h.gate.Some? ==>
                    && Step(h, e).gate.Some?
                    && Step(h, e).gate.value.retryNotBefore == h.gate.value.retryNotBefore)
  {
    ShiftClampIsInvisible(k + 1);
  }

  lemma {:induction false} OpenCountCountsFailures(h: Health, es: seq<Event>)
    requires forall e :: e in es ==> !e.GateSuccess?
    ensures OpenCount(Run(h, es)) == Min(OpenCount(h) + |Select(es, IsGateFailure)|, U32_MAX)
  {
    if es != [] {
      var front, e := es[..|es| - 1], es[|es| - 1];
      OpenCountCountsFailures(h, front);
      GateStep(Run(h, front), e, OpenCount(h) + |Select(front, IsGateFailure)|);
      SelectLast(es, IsGateFailure);
    }
  }

  /** The gate after any run of events in which it is never closed: the count
      of gate failures, and the horizon set by the latest one. */
  lemma {:induction false} GateAfterFailures(h: Health, es: seq<Event>)
    requires forall e :: e in es ==> !e.GateSuccess?
    ensures var fs := Select(es, IsGateFailure);
            var k := OpenCount(h) + |fs|;
            var g := Run(h, es).gate;
            && OpenCount(Run(h, es)) == Min(k, U32_MAX)
            && (fs != [] ==>
                  && fs[|fs| - 1].GateFailure? && g.Some?
                  && g.value.retryNotBefore == Some(Horizon(k, fs[|fs| - 1])))
  {
    OpenCountCountsFailures(h, es);
    if es != [] {
      var front, e := es[..|es| - 1], es[|es| - 1];
      GateAfterFailures(h, front);
      GateStep(Run(h, front), e, OpenCount(h) + |Select(front, IsGateFailure)|);
      SelectLast(es, IsGateFailure);
      if !e.GateFailure? {
        assert Select(es, IsGateFailure) == Select(front, IsGateFailure);
      }
    }
  }

  /** Once a gate failure is recorded, no history without a gate success ever
      answers Fresh again: every answer is a skip or the half-open probe. */
  lemma NeverFreshBeforeGateSuccess(h: Health, es: seq<Event>, now: I64, ttl: I64)
    requires forall e :: e in es ==> !e.GateSuccess?
    requires OpenCount(h) > 0 || Select(es, IsGateFailure) != []
    ensures var d := PrecheckAt(Run(h, es), now, ttl); d.Skip? || d == NeedsProbe(true)
  {
    GateAfterFailures(h, es);
  }

  /** The event at `k` is a decision that the record so far answers with the
      half-open probe: the only kind that claims the gate. */
  predicate Admitted(h: Health, es: seq<Event>, k: nat)
    requires k < |es|
  {
    es[k].Decide? && PrecheckAt(Run(h, es[..k]), es[k].at, es[k].ttl) == NeedsProbe(true)
  }

  /** The claim those events leave: that of the latest admission. */
  function LatestClaim(h: Health, es: seq<Event>): Option<I64> {
    if es == [] then None
    else if Admitted(h, es, |es| - 1) then Some(WrapAdd(es[|es| - 1].at, GATE_HALF_OPEN_CLAIM_SECS))
    else LatestClaim(h, es[..|es| - 1])
  }

  /** Between outcomes only an admission touches the gate. */
  lemma ClaimStep(h: Health, e: Event)
    requires h.gate.Some? && !e.GateOutcome()
    ensures Step(h, e).gate ==
            if e.Decide? && PrecheckAt(h, e.at, e.ttl) == NeedsProbe(true)
            then Some(h.gate.value.(claimUntil := Some(WrapAdd(e.at, GATE_HALF_OPEN_CLAIM_SECS))))
            else h.gate
  {
  }

  /** While no outcome is recorded the count and the horizon stand, and the
      claim is that of the latest admission. */
  lemma {:induction false} ClaimComesFromAnAdmission(h: Health, es: seq<Event>)
    requires h.gate.Some? && h.gate.value.claimUntil.None?
    requires forall e :: e in es ==> !e.GateOutcome()
    ensures Run(h, es).gate == Some(h.gate.value.(claimUntil := LatestClaim(h, es)))
  {
    if es != [] {
      ClaimComesFromAnAdmission(h, es[..|es| - 1]);
      ClaimStep(Run(h, es[..|es| - 1]), es[|es| - 1]);
    }
  }

  lemma AdmittedInPrefix(h: Health, es: seq<Event>, k: nat)
    requires k < |es| - 1
    ensures Admitted(h, es[..|es| - 1], k) <==> Admitted(h, es, k)
  {
    assert es[..|es| - 1][..k] == es[..k];
  }

  /** The latest claim is an admission's, and no admission follows it. */
  lemma {:induction false} LatestClaimIsAnAdmission(h: Health, es: seq<Event>) returns (k: nat)
    requires LatestClaim(h, es).Some?
    ensures k < |es| && Admitted(h, es, k)
    ensures LatestClaim(h, es).value == WrapAdd(es[k].at, GATE_HALF_OPEN_CLAIM_SECS)
    ensures forall j :: k < j < |es| ==> !Admitted(h, es, j)
  {
    if Admitted(h, es, |es| - 1) {
      k := |es| - 1;
    } else {
      k := LatestClaimIsAnAdmission(h, es[..|es| - 1]);
      forall j | k <= j < |es| - 1 ensures Admitted(h, es[..|es| - 1], j) <==> Admitted(h, es, j) {
        AdmittedInPrefix(h, es, j);
      }
    }
  }

  /** After a gate failure, and until the next outcome: a skip until the
      failure's horizon; then a skip until the end of the latest claim, if it
      is still running; and from then on the probe. */
  lemma ProbeIsOfferedIff(h: Health, failure: Event, es: seq<Event>, now: I64, ttl: I64)
    requires failure.GateFailure?
    requires forall e :: e in es ==> !e.GateOutcome()
    ensures var horizon, claim := Horizon(OpenCount(h) + 1, failure), LatestClaim(Step(h, failure), es);
            PrecheckAt(Run(Step(h, failure), es), now, ttl) ==
            if now < horizon then Skip(horizon)
            else if claim.Some? && now < claim.value then Skip(claim.value)
            else NeedsProbe(true)
  {
    ClaimComesFromAnAdmission(Step(h, failure), es);
    ShiftClampIsInvisible(OpenCount(h) + 1);
  }

  /** Past the horizon, and 60 s after every admission since the failure, the
      answer is the half-open probe and never a skip. Decisions answered with
      a skip do not put it off. */
  lemma ProbeIsEventuallyOffered(h: Health, failure: Event, es: seq<Event>, now: I64, ttl: I64)
    requires failure.GateFailure?
    requires forall e :: e in es ==> !e.GateOutcome()
    requires now >= Horizon(OpenCount(h) + 1, failure)
    requires forall k :: 0 <= k < |es| && Admitted(Step(h, failure), es, k) ==>
               now >= es[k].at + 60
    ensures PrecheckAt(Run(Step(h, failure), es), now, ttl) == NeedsProbe(true)
  {
    ProbeIsOfferedIff(h, failure, es, now, ttl);
    if LatestClaim(Step(h, failure), es).Some? {
      var k := LatestClaimIsAnAdmission(Step(h, failure), es);
    }
  }

  /** The gate is open and claimed until at least 60 s after `t`. */
  predicate ClaimedSince(h: Health, t: I64) {
    && h.gate.Some? && h.gate.value.openCount > 0
    && h.gate.value.claimUntil.Some? && h.gate.value.claimUntil.value >= t + 60
  }

  /** A half-open admission claims the gate exactly when the clock is at least
      60 s below the end of its range; past that point the sum wraps, and the
      gate admits a second probe at the same instant. */
  lemma ClaimHoldsUnlessTheClockWraps(h: Health, t: I64, ttl: I64)
    requires PrecheckAt(h, t, ttl) == NeedsProbe(true)
    ensures var h' := Step(h, Decide(t, ttl));
            && (ClaimedSince(h', t) <==> t <= I64_MAX - GATE_HALF_OPEN_CLAIM_SECS)
            && (PrecheckAt(h', t, ttl) == NeedsProbe(true) <==> t > I64_MAX - GATE_HALF_OPEN_CLAIM_SECS)
  {
  }

  lemma ClaimSurvives(h: Health, e: Event, t: I64)
    requires ClaimedSince(h, t)
    requires !e.GateOutcome()
    requires e.Decide? && PrecheckAt(h, e.at, e.ttl) == NeedsProbe(true) ==> e.at <= I64_MAX - GATE_HALF_OPEN_CLAIM_SECS
    ensures ClaimedSince(Step(h, e), t)
    ensures e.Decide? && PrecheckAt(h, e.at, e.ttl) == NeedsProbe(true) ==> e.at >= t + 60
  {
  }

  /** The gate is open with a horizon of at least `u`. */
  predicate ShutUntil(h: Health, u: I64) {
    && h.gate.Some? && h.gate.value.openCount > 0
    && h.gate.value.retryNotBefore.Some? && h.gate.value.retryNotBefore.value >= u
  }

  lemma FailureShuts(h: Health, e: Event)
    requires e.GateFailure?
    ensures ShutUntil(Step(h, e), Horizon(OpenCount(h) + 1, e))
  {
    ShiftClampIsInvisible(OpenCount(h) + 1);
  }

  lemma ShutSurvives(h: Health, e: Event, u: I64)
    requires ShutUntil(h, u)
    requires !e.GateOutcome()
    ensures ShutUntil(Step(h, e), u)
    ensures e.Decide? && !PrecheckAt(h, e.at, e.ttl).Skip? ==> e.at >= u
  {
  }

  /** A recorded failure keeps the earlier horizon exactly when its own
      horizon is no earlier; otherwise an earlier Retry-After is forgotten. */
  lemma LaterFailureKeepsHorizonIff(h: Health, e: Event, u: I64)
    requires e.GateFailure?
    ensures ShutUntil(Step(h, e), u) <==> Horizon(OpenCount(h) + 1, e) >= u
  {
    ShiftClampIsInvisible(OpenCount(h) + 1);
  }

  lemma RetryAfterCanBeForgotten()
    ensures var first := GateFailure(1000, "p", Capacity, Some(5000));
            var second := GateFailure(1001, "p", Error, None);
            && ShutUntil(Step(DEFAULT, first), 6000)
            && PrecheckAt(Step(Step(DEFAULT, first), second), 1061, 300) == NeedsProbe(true)
  {
    assert Pow2(1) == 2;
  }

  // ----------------------------------------------------- quota-wall theorem

  /** After a wall until `u`, every history without a classified success or
      another wall keeps the model skipped before `u`. */
  lemma {:induction false} WallHolds(h: Health, es: seq<Event>, u: I64, now: I64)
    requires h.quotaWallUntil == Some(u)
    requires forall e :: e in es ==> !e.ClassifiedSuccess? && !(e.ClassifiedFailure? && e.wall.Some?)
    requires now < u
    ensures Run(h, es).quotaWallUntil == Some(u) && SkippedAt(Run(h, es), now)
  {
    if es != [] {
      WallHolds(h, es[..|es| - 1], u, now);
    }
  }

  lemma QuotaWallOutlastsEverythingElse(h: Health, wall: Event, es: seq<Event>, now: I64)
    requires wall.ClassifiedFailure? && wall.wall.Some?
    requires forall e :: e in es ==> !e.ClassifiedSuccess? && !(e.ClassifiedFailure? && e.wall.Some?)
    requires now < wall.wall.value
    ensures SkippedAt(Run(Step(h, wall), es), now)
  {
    WallHolds(Step(h, wall), es, wall.wall.value, now);
  }

  // ------------------------------------------- the record and its history

  predicate IsRecorded(e: Event) { !e.Decide? }

  predicate IsCall(e: Event) { e.Succeeds() || e.Failure? || e.ClassifiedFailure? }

  predicate IsGateOutcome(e: Event) { e.GateOutcome() }

  /** Says what class the model is in: a failure without a provider does so
      only for a skip class. */
  predicate Classifies(e: Event) {
    e.ClassifiedSuccess? || e.GateOutcome() || (e.ClassifiedFailure? && (e.provider != "" || e.Neutral()))
  }

  function ClassOf(e: Event): Classification
    requires Classifies(e)
  {
    if e.GateSuccess? then Reachable else e.cls
  }

  function LatestClass(h: Health, es: seq<Event>): Option<Classification> {
    if es == [] then h.classification
    else if Classifies(es[|es| - 1]) then Some(ClassOf(es[|es| - 1]))
    else LatestClass(h, es[..|es| - 1])
  }

  function LatestCheck(h: Health, es: seq<Event>): Option<I64> {
    var rs := Select(es, IsRecorded);
    if rs == [] then h.checkedAt else Some(rs[|rs| - 1].at)
  }

  lemma RecordStep(h: Health, e: Event)
    ensures var r := Step(h, e);
            && r.calls == (if IsCall(e) then Inc64(h.calls) else h.calls)
            && r.failures == (if e.Counted() then Inc64(h.failures) else h.failures)
            && r.checkedAt == (if IsRecorded(e) then Some(e.at) else h.checkedAt)
            && r.classification == (if Classifies(e) then Some(ClassOf(e)) else h.classification)
  {
  }

  /** The calls and failures reported are those of the history, saturated. */
  lemma {:induction false} CountersCountTheHistory(h: Health, es: seq<Event>)
    ensures Run(h, es).calls == Min(h.calls + |Select(es, IsCall)|, U64_MAX)
    ensures Run(h, es).failures == Min(h.failures + |Select(es, IsCounted)|, U64_MAX)
  {
    if es != [] {
      CountersCountTheHistory(h, es[..|es| - 1]);
      RecordStep(Run(h, es[..|es| - 1]), es[|es| - 1]);
      SelectLast(es, IsCall);
      SelectLast(es, IsCounted);
    }
  }

  /** The record holds the time of the latest record of any kind, and the
      class that the latest classifying record gave. */
  lemma {:induction false} RecordIsTheLatest(h: Health, es: seq<Event>)
    ensures Run(h, es).checkedAt == LatestCheck(h, es)
    ensures Run(h, es).classification == LatestClass(h, es)
  {
    if es != [] {
      RecordIsTheLatest(h, es[..|es| - 1]);
      RecordStep(Run(h, es[..|es| - 1]), es[|es| - 1]);
      SelectLast(es, IsRecorded);
    }
  }

  lemma GateOutcomeStep(h: Health, e: Event)
    ensures e.GateSuccess? ==> Step(h, e).gate.None?
    ensures e.GateFailure? ==> Step(h, e).gate.Some? && OpenCount(Step(h, e)) > 0
    ensures !e.GateOutcome() ==> (Step(h, e).gate.None? <==> h.gate.None?) && OpenCount(Step(h, e)) == OpenCount(h)
  {
  }

  /** The gate is closed exactly when its latest outcome, if any, was a
      success. */
  lemma {:induction false} GateIsClosedIff(es: seq<Event>)
    ensures var outs := Select(es, IsGateOutcome);
            Run(DEFAULT, es).gate.None? <==> outs == [] || outs[|outs| - 1].GateSuccess?
    ensures Run(DEFAULT, es).gate.Some? ==> OpenCount(Run(DEFAULT, es)) > 0
  {
    if es != [] {
      GateIsClosedIff(es[..|es| - 1]);
      GateOutcomeStep(Run(DEFAULT, es[..|es| - 1]), es[|es| - 1]);
      SelectLast(es, IsGateOutcome);
    }
  }

  /** A probe is saved exactly when the gate is closed, the latest class is
      Reachable and the latest record is younger than the caller's limit; the
      answer then carries that record's time. */
  lemma FreshIff(es: seq<Event>, now: I64, ttl: I64)
    ensures var outs, checked := Select(es, IsGateOutcome), LatestCheck(DEFAULT, es);
            var d := PrecheckAt(Run(DEFAULT, es), now, ttl);
            && (d.Fresh? <==>
                  && (outs == [] || outs[|outs| - 1].GateSuccess?)
                  && LatestClass(DEFAULT, es) == Some(Reachable)
                  && checked.Some? && now - checked.value < ttl && ttl != -0x8000_0000_0000_0000)
            && (d.Fresh? ==> Some(d.checkedAt) == checked)
            && (outs == [] || outs[|outs| - 1].GateSuccess? ==> d.Fresh? || d == NeedsProbe(false))
  {
    GateIsClosedIff(es);
    RecordIsTheLatest(DEFAULT, es);
  }

  /** Says which provider the model was last checked through. */
  predicate NamesProvider(e: Event) {
    e.ClassifiedSuccess? || e.GateOutcome() || (e.ClassifiedFailure? && e.provider != "")
  }

  function LatestProvider(h: Health, es: seq<Event>): Option<string> {
    if es == [] then h.provider
    else if NamesProvider(es[|es| - 1]) then Some(es[|es| - 1].provider)
    else LatestProvider(h, es[..|es| - 1])
  }

  lemma ProviderStep(h: Health, e: Event)
    ensures Step(h, e).provider == if NamesProvider(e) then Some(e.provider) else h.provider
  {
  }

  lemma {:induction false} ProviderIsTheLatest(h: Health, es: seq<Event>)
    ensures Run(h, es).provider == LatestProvider(h, es)
  {
    if es != [] {
      ProviderIsTheLatest(h, es[..|es| - 1]);
      ProviderStep(Run(h, es[..|es| - 1]), es[|es| - 1]);
    }
  }

  /** The wall in force: the latest one recorded since a classified success. */
  function LatestWall(es: seq<Event>): Option<I64> {
    if es == [] || es[|es| - 1].ClassifiedSuccess? then None
    else if es[|es| - 1].ClassifiedFailure? && es[|es| - 1].wall.Some? then es[|es| - 1].wall
    else LatestWall(es[..|es| - 1])
  }

  lemma {:induction false} WallIsTheLatest(es: seq<Event>)
    ensures Run(DEFAULT, es).quotaWallUntil == LatestWall(es)
  {
    if es != [] {
      WallIsTheLatest(es[..|es| - 1]);
    }
  }

  /** The skip rule in full, for every history. */
  lemma SkippedIff(es: seq<Event>, now: I64)
    ensures SkippedAt(Run(DEFAULT, es), now) <==>
              || (LatestWall(es).Some? && now < LatestWall(es).value)
              || LatestClass(DEFAULT, es) == Some(Unprovisioned)
              || LatestClass(DEFAULT, es) == Some(Unauthorized)
              || (LatestClass(DEFAULT, es) == Some(Capacity) && LatestCheck(DEFAULT, es).Some? &&
                  now - LatestCheck(DEFAULT, es).value < 1800)
  {
    WallIsTheLatest(es);
    RecordIsTheLatest(DEFAULT, es);
  }

  // ----------------------------------------------------------------- store

  type Store = map<string, Health>

  function Get(s: Store, model: string): Health { if model in s then s[model] else DEFAULT }

  datatype Delta = Delta(model: string, event: Event)

  function StoreStep(s: Store, d: Delta): Store { s[d.model := Step(Get(s, d.model), d.event)] }

  function RunStore(s: Store, ds: seq<Delta>): Store {
    if ds == [] then s else StoreStep(RunStore(s, ds[..|ds| - 1]), ds[|ds| - 1])
  }

  /** The answer a gate decision gets from a store; other updates have none. */
  function Answer(s: Store, d: Delta): Option<Precheck> {
    if d.event.Decide? then Some(PrecheckAt(Get(s, d.model), d.event.at, d.event.ttl)) else None
  }

  /** The events of one model in a log of all models. */
  function Project(ds: seq<Delta>, model: string): seq<Event> {
    if ds == [] then []
    else Project(ds[..|ds| - 1], model) + if ds[|ds| - 1].model == model then [ds[|ds| - 1].event] else []
  }

  /** Records do not interfere: each model sees its own history, in order. */
  lemma {:induction false} StoreIsPerModel(s: Store, ds: seq<Delta>, model: string)
    ensures Get(RunStore(s, ds), model) == Run(Get(s, model), Project(ds, model))
  {
    if ds != [] {
      var front := ds[..|ds| - 1];
      StoreIsPerModel(s, front, model);
      if ds[|ds| - 1].model == model {
        assert Project(ds, model)[..|Project(ds, model)| - 1] == Project(front, model);
      } else {
        assert Project(ds, model) == Project(front, model);
      }
    }
  }

  /** The store in memory, updated field by field as the code does. */
  class HealthStore {
    var models: Store

    constructor (loaded: Store)
      ensures models == loaded
    {
      models := loaded;
    }

    method RecordSuccess(model: string, now: I64)
      modifies this
      ensures models == StoreStep(old(models), Delta(model, Success(now)))
    {
      var h := Get(models, model);
      h := h.(calls := Inc64(h.calls));
      h := h.(consecutiveFailures := 0);
      h := h.(checkedAt := Some(now));
      models := models[model := h];
    }

    method RecordClassifiedSuccess(model: string, now: I64, provider: string, cls: Classification)
      modifies this
      ensures models == StoreStep(old(models), Delta(model, ClassifiedSuccess(now, provider, cls)))
    {
      var h := Get(models, model);
      h := h.(quotaWallUntil := None);
      h := h.(calls := Inc64(h.calls));
      h := h.(consecutiveFailures := 0);
      models := models[model := MarkChecked(h, now, provider, cls)];
    }

    method RecordFailure(model: string, now: I64)
      modifies this
      ensures models == StoreStep(old(models), Delta(model, Failure(now)))
    {
      var h := Get(models, model);
      h := h.(calls := Inc64(h.calls));
      h := h.(failures := Inc64(h.failures));
      h := h.(consecutiveFailures := Inc32(h.consecutiveFailures));
      h := h.(lastFailure := Some(now));
      h := h.(checkedAt := Some(now));
      models := models[model := h];
    }

    method RecordClassifiedFailure(model: string, now: I64, provider: string, cls: Classification, wall: Option<I64>)
      modifies this
      ensures models == StoreStep(old(models), Delta(model, ClassifiedFailure(now, provider, cls, wall)))
    {
      var h := Get(models, model);
      h := h.(calls := Inc64(h.calls));
      if wall.Some? {
        h := h.(quotaWallUntil := wall);
      }
      if !cls.SkipsConsult() {
        h := h.(failures := Inc64(h.failures));
        h := h.(consecutiveFailures := Inc32(h.consecutiveFailures));
        h := h.(lastFailure := Some(now));
      }
      if provider != "" {
        h := MarkChecked(h, now, provider, cls);
      } else {
        h := h.(checkedAt := Some(now));
        if cls.SkipsConsult() {
          h := h.(classification := Some(cls));
        }
      }
      models := models[model := h];
    }

    method RecordGateFailure(model: string, now: I64, provider: string, cls: Classification, retryAfter: Option<U64>)
      modifies this
      ensures models == StoreStep(old(models), Delta(model, GateFailure(now, provider, cls, retryAfter)))
    {
      var h := Get(models, model);
      var gate := if h.gate.Some? then h.gate.value else Gate(0, None, None);
      gate := gate.(openCount := Inc32(gate.openCount));
      var wait := Max(Backoff(gate.openCount), RetryAfterSecs(retryAfter));
      gate := gate.(retryNotBefore := Some(SatAdd(now, wait)));
      gate := gate.(claimUntil := None);
      h := h.(gate := Some(gate), lastFailure := Some(now));
      models := models[model := MarkChecked(h, now, provider, cls)];
    }

    method RecordGateSuccess(model: string, now: I64, provider: string)
      modifies this
      ensures models == StoreStep(old(models), Delta(model, GateSuccess(now, provider)))
    {
      var h := Get(models, model);
      h := h.(gate := None);
      models := models[model := MarkChecked(h, now, provider, Reachable)];
    }

    /** The closure `decide_with_ttl` runs under the store lock. */
    method DecideLocked(model: string, at: I64, ttl: I64) returns (d: Precheck)
      modifies this
      ensures models == StoreStep(old(models), Delta(model, Decide(at, ttl)))
      ensures Some(d) == Answer(old(models), Delta(model, Decide(at, ttl)))
    {
      var h := Get(models, model);
      d := PrecheckAt(h, at, ttl);
      if d == NeedsProbe(true) {
        h := ClaimHalfOpen(h, at);
      }
      models := models[model := h];
    }
  }
}

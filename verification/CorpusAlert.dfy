/** The corpus-sync alert: counting failed runs, deciding, and keeping one
    labelled issue on a tracker whose replies can be lost. */
module CorpusAlert {
  import opened FixedWidth
  import opened Sets
  import opened Sorting

  const MAX_OVERLAY_AGE_DAYS := 7
  const MAX_LOOKBACK := 10
  const HTTP_ATTEMPTS := 3
  const PER_PAGE := 100

  // ------------------------------------------------------------ the decision

  /** What is known of the sync; None stands for "unknown". */
  datatype SyncState = SyncState(
    thisFailed: Option<bool>,
    prevFailed: Option<bool>,
    consecutiveFailures: Option<nat>,
    pricesOk: Option<bool>,
    overlayAgeDays: Option<int>,
    overlayStale: Option<bool>)

  datatype Decision = Alert | Healthy | Quiet | Unknown

  function Decide(s: SyncState): Decision {
    if s.thisFailed == Some(true) && s.prevFailed == Some(true) then Alert
    else if s.overlayStale == Some(true) then Alert
    else if s.overlayAgeDays.Some? && s.overlayAgeDays.value > MAX_OVERLAY_AGE_DAYS then Alert
    else if s.pricesOk == Some(false) then Alert
    else if s.thisFailed == Some(false) && s.pricesOk == Some(true) then Healthy
    else if s.thisFailed == Some(true) then Quiet
    else Unknown
  }

  /** The leading previous runs whose job is known to have failed. */
  function LeadingFailures(previous: seq<Option<bool>>): nat {
    if previous != [] && previous[0] == Some(true) then 1 + LeadingFailures(previous[1..]) else 0
  }

  /** Walks the previous runs, newest first, until one did not fail or its job
      status is unknown. */
  method GatherState(thisFailed: Option<bool>, previous: seq<Option<bool>>, report: SyncState) returns (s: SyncState)
    ensures s.pricesOk == report.pricesOk
    ensures s.overlayAgeDays == report.overlayAgeDays && s.overlayStale == report.overlayStale
    ensures s.thisFailed == thisFailed
    ensures s.prevFailed == if previous == [] then None else previous[0]
    ensures s.consecutiveFailures ==
            if thisFailed.None? then None
            else if thisFailed.value then Some(Min(LeadingFailures(previous), 10) + 1)
            else Some(0)
  {
    var consecutive: nat := 0;
    var prevFailed: Option<bool> := None;
    var index := 0;
    while index < |previous|
      invariant index == consecutive <= |previous| && consecutive < MAX_LOOKBACK
      invariant index > 0 ==> prevFailed == previous[0]
      invariant index == 0 ==> prevFailed.None?
      invariant LeadingFailures(previous) == consecutive + LeadingFailures(previous[index..])
    {
      var failed := previous[index];
      if failed.None? {
        break;
      }
      if index == 0 {
        prevFailed := failed;
      }
      if !failed.value {
        break;
      }
      assert previous[index..][1..] == previous[index + 1..];
      consecutive, index := consecutive + 1, index + 1;
      if consecutive >= MAX_LOOKBACK {
        break;
      }
    }
    var total := if thisFailed.None? then None else Some(if thisFailed.value then consecutive + 1 else 0);
    s := report.(thisFailed := thisFailed, prevFailed := prevFailed, consecutiveFailures := total);
  }

  /** Remark. The count in the report agrees with the reason for the alert: two or
      more consecutive failures are counted exactly when this run and the one
      before it failed, and then the decision is to alert. */
  lemma CountAgreesWithDecision(s: SyncState, previous: seq<Option<bool>>)
    requires s.prevFailed == if previous == [] then None else previous[0]
    requires s.consecutiveFailures ==
             if s.thisFailed.None? then None
             else if s.thisFailed.value then Some(Min(LeadingFailures(previous), 10) + 1)
             else Some(0)
    ensures (s.consecutiveFailures.Some? && s.consecutiveFailures.value >= 2)
       <==> (s.thisFailed == Some(true) && s.prevFailed == Some(true))
    ensures s.consecutiveFailures.Some? && s.consecutiveFailures.value >= 2 ==> Decide(s).Alert?
  {
  }

  /** Something is wrong: two failed runs in a row, an overlay known to be
      stale or more than a week old, or prices known to be bad. */
  predicate IsTrouble(s: SyncState) {
    || (s.thisFailed == Some(true) && s.prevFailed == Some(true))
    || s.overlayStale == Some(true)
    || (s.overlayAgeDays.Some? && s.overlayAgeDays.value > 7)
    || s.pricesOk == Some(false)
  }

  /** The run succeeded and the prices are good. */
  predicate IsGood(s: SyncState) { s.thisFailed == Some(false) && s.pricesOk == Some(true) }

  /** Exactly when each decision is taken. Trouble always alerts. A healthy
      decision does not show that the overlay is current: with no overlay facts
      at all a good run is healthy. */
  lemma DecideIff(s: SyncState)
    ensures Decide(s).Alert? <==> IsTrouble(s)
    ensures Decide(s).Healthy? <==> !IsTrouble(s) && IsGood(s)
    ensures Decide(s).Quiet? <==> !IsTrouble(s) && s.thisFailed == Some(true)
    ensures Decide(s).Unknown? <==> !IsTrouble(s) && !IsGood(s) && s.thisFailed != Some(true)
    ensures Decide(SyncState(Some(false), None, Some(0), Some(true), None, None)).Healthy?
  {
  }

  // ------------------------------------------------------------- the client

  datatype Call = ListIssues | CreateIssue | AddNote(iid: nat) | CloseIssue(iid: nat) {
    /** Creating calls are sent once; the others may be repeated. */
    function Attempts(): nat { if CreateIssue? || AddNote? then 1 else HTTP_ATTEMPTS }
  }

  /** What becomes of one round trip: done; done but the reply lost; not done
      and worth trying again (5xx, 429, no connection); turned down. */
  datatype Fate = Done | DoneReplyLost | Dropped | TurnedDown {
    predicate Applies() { Done? || DoneReplyLost? }

    predicate Retryable() { DoneReplyLost? || Dropped? }
  }

  datatype Reply = Ok | Failed

  /** Round trip `m` brings the reply of a call whose first round trip is
      `first`: those before it failed, and were worth trying again. */
  predicate AnsweredAt(fate: nat -> Fate, first: nat, attempts: nat, m: nat) {
    first <= m < first + attempts && fate(m).Done? && AllRetryable(fate, first, m)
  }

  ghost predicate Answered(fate: nat -> Fate, first: nat, attempts: nat) {
    exists m: nat :: AnsweredAt(fate, first, attempts, m)
  }

  /** Some of the round trips from `lo` up to `hi` reached the tracker. */
  predicate Reached(fate: nat -> Fate, lo: nat, hi: nat) { exists n :: lo <= n < hi && fate(n).Applies() }

  predicate AllRetryable(fate: nat -> Fate, lo: nat, hi: nat) { forall n :: lo <= n < hi ==> fate(n).Retryable() }

  lemma ReachedOneMore(fate: nat -> Fate, lo: nat, hi: nat)
    requires lo <= hi
    ensures Reached(fate, lo, hi + 1) <==> Reached(fate, lo, hi) || fate(hi).Applies()
    ensures AllRetryable(fate, lo, hi + 1) <==> AllRetryable(fate, lo, hi) && fate(hi).Retryable()
  {
  }

  lemma NotAnswered(fate: nat -> Fate, first: nat, attempts: nat, m: nat)
    requires first <= m && AllRetryable(fate, first, m) && fate(m).TurnedDown?
    ensures !Answered(fate, first, attempts)
  {
  }

  /** All of them were done and answered. */
  predicate AllDone(fate: nat -> Fate, lo: nat, hi: nat) { forall n :: lo <= n < hi ==> fate(n).Done? }

  /** The open labelled issues after a call has taken effect once. */
  function Effect(call: Call, open: set<nat>, next: nat): set<nat> {
    match call
    case ListIssues => open
    case CreateIssue => open + {next}
    case AddNote(_) => open
    case CloseIssue(iid) => open - {iid}
  }

  /** A truthful page of open issues: sorted, and as many as fit. */
  predicate Page(open: set<nat>, issues: seq<nat>) {
    && |issues| == Min(|open|, PER_PAGE)
    && (forall i :: i in issues ==> i in open)
    && StrictlyAscending(issues)
  }

  /** What one run may do to the open issues, with `next` the first unused
      number: the run's decision, whether every call succeeded, and the sets
      before and after. */
  predicate RunEffect(d: Decision, delivered: bool, before: set<nat>, after: set<nat>, next: nat) {
    && after <= before + {next}
    && (next in after ==> before == {} && d.Alert?)
    && (d.Quiet? || d.Unknown? ==> after == before)
    && (delivered && d.Alert? ==> |after| == if before == {} then 1 else |before| - Min(|before|, PER_PAGE) + 1)
    && (delivered && d.Alert? && 0 < |before| <= PER_PAGE ==> forall m, x :: m in after && x in before ==> m <= x)
    && (delivered && d.Healthy? ==> |after| == |before| - Min(|before|, PER_PAGE))
  }

  /** How many notes each issue has after a call has taken effect once. */
  function Annotated(call: Call, notes: multiset<nat>): multiset<nat> {
    if call.AddNote? then notes + multiset{call.iid} else notes
  }

  /** Issues in `listed`, and no others, get at most one more note each, and
      those that were closed got theirs. */
  ghost predicate NotedOnce(listed: set<nat>, before: set<nat>, after: set<nat>,
                            notes: multiset<nat>, notes': multiset<nat>)
  {
    && before - after <= listed
    && (forall i :: notes[i] <= notes'[i] <= notes[i] + if i in listed then 1 else 0)
    && forall i :: i in before - after ==> notes'[i] == notes[i] + 1
  }

  predicate AllNoted(listed: set<nat>, notes: multiset<nat>, notes': multiset<nat>) {
    forall i :: i in listed ==> notes'[i] == notes[i] + 1
  }

  lemma NotedInTurn(a: set<nat>, b: set<nat>, open0: set<nat>, open1: set<nat>, open2: set<nat>,
                    notes0: multiset<nat>, notes1: multiset<nat>, notes2: multiset<nat>)
    requires a !! b && NotedOnce(a, open0, open1, notes0, notes1) && NotedOnce(b, open1, open2, notes1, notes2)
    ensures NotedOnce(a + b, open0, open2, notes0, notes2)
    ensures AllNoted(a, notes0, notes1) && AllNoted(b, notes1, notes2) ==> AllNoted(a + b, notes0, notes2)
  {
  }

  class GitLabClient {
    const dryRun: bool
    const fate: nat -> Fate
    var planned: seq<Call>
    var sent: seq<Call>
    var trips: nat
    // The tracker. `peak` is the most issues ever open at once.
    var open: set<nat>
    var notes: multiset<nat>
    var next: nat
    ghost var peak: nat
    // How many of the calls sent never got a reply.
    ghost var unanswered: nat

    ghost predicate Valid()
      reads this
    {
      (forall i :: i in open ==> i < next) && |open| <= peak
    }

    /** Since `from`, with `lost` calls unanswered before: success means that
        every call sent since was answered, and is certain when every round
        trip since was done. */
    ghost predicate Outcome(ok: bool, from: nat, lost: nat)
      reads this
    {
      from <= trips && lost <= unanswered && (ok <==> unanswered == lost) && (AllDone(fate, from, trips) ==> ok)
    }

    constructor (dryRun: bool, fate: nat -> Fate, open: set<nat>, next: nat)
      requires forall i :: i in open ==> i < next
      ensures Valid() && this.dryRun == dryRun && this.open == open && this.next == next
      ensures this.fate == fate && trips == 0 && unanswered == 0
      ensures peak == |open| && planned == [] && sent == [] && notes == multiset{}
    {
      this.dryRun, this.fate := dryRun, fate;
      planned, sent, trips := [], [], 0;
      this.open, this.next, notes, peak := open, next, multiset{}, |open|;
      unanswered := 0;
    }

    /** One round trip. */
    method Trip(call: Call) returns (f: Fate)
      requires Valid()
      modifies this`trips, this`open, this`notes, this`next, this`peak
      ensures Valid()
      ensures f == fate(old(trips)) && trips == old(trips) + 1
      ensures f.Applies() ==> open == Effect(call, old(open), old(next)) && notes == Annotated(call, old(notes))
      ensures !f.Applies() ==> open == old(open) && notes == old(notes)
      ensures next == if f.Applies() && call.CreateIssue? then old(next) + 1 else old(next)
      ensures peak == Max(old(peak), |open|)
    {
      f := fate(trips);
      trips := trips + 1;
      if f.Applies() {
        open := Effect(call, open, next);
        notes := Annotated(call, notes);
        if call.CreateIssue? {
          next := next + 1;
        }
      }
      peak := Max(peak, |open|);
    }

    /** What a call has done to the tracker since it was in the state given. */
    ghost predicate TakenEffect(call: Call, reached: bool,
                                open0: set<nat>, notes0: multiset<nat>, next0: nat, peak0: nat)
      reads this
    {
      && open == (if reached then Effect(call, open0, next0) else open0)
      && notes == (if reached then Annotated(call, notes0) else notes0)
      && next == (if reached && call.CreateIssue? then next0 + 1 else next0)
      && peak0 <= peak <= Max(peak0, |open|)
    }

    /** One more round trip of a call that may have taken effect already: what
        is sent again has no further effect. */
    method TripAgain(call: Call, ghost reached: bool,
                     ghost open0: set<nat>, ghost notes0: multiset<nat>, ghost next0: nat, ghost peak0: nat)
      returns (f: Fate)
      requires Valid() && TakenEffect(call, reached, open0, notes0, next0, peak0) && (reached ==> call.Attempts() > 1)
      requires |open0| <= peak0
      modifies this`trips, this`open, this`notes, this`next, this`peak
      ensures Valid() && f == fate(old(trips)) && trips == old(trips) + 1
      ensures TakenEffect(call, reached || f.Applies(), open0, notes0, next0, peak0)
    {
      f := Trip(call);
    }

    /** The retry loop. The reply is obtained exactly when a round trip within
        the number allowed brings it before one is turned down. However many
        round trips are made, the call takes effect once if any of them
        reached the tracker, and not at all otherwise. */
    method Send(call: Call) returns (r: Reply)
      requires Valid()
      modifies this`trips, this`open, this`notes, this`next, this`peak
      ensures Valid() && old(trips) < trips <= old(trips) + call.Attempts()
      ensures r.Ok? <==> Answered(fate, old(trips), call.Attempts())
      ensures r.Ok? ==> Reached(fate, old(trips), trips)
      ensures fate(old(trips)).Done? ==> r.Ok?
      ensures TakenEffect(call, Reached(fate, old(trips), trips), old(open), old(notes), old(next), old(peak))
    {
      var attempt := 0;
      ghost var reached := false;
      while attempt < call.Attempts()
        invariant Valid() && 0 <= attempt <= call.Attempts() && trips == old(trips) + attempt
        invariant AllRetryable(fate, old(trips), trips) && (reached <==> Reached(fate, old(trips), trips))
        invariant TakenEffect(call, reached, old(open), old(notes), old(next), old(peak))
        invariant attempt > 0 ==> !fate(old(trips)).Done?
        invariant reached ==> attempt > 0
      {
        ReachedOneMore(fate, old(trips), trips);
        var f := TripAgain(call, reached, old(open), old(notes), old(next), old(peak));
        reached := reached || f.Applies();
        if f.Done? {
          assert AnsweredAt(fate, old(trips), call.Attempts(), trips - 1);
          return Ok;
        }
        if f.TurnedDown? {
          NotAnswered(fate, old(trips), call.Attempts(), trips - 1);
          return Failed;
        }
        attempt := attempt + 1;
      }
      r := Failed;
    }

    /** Plan a call and, unless this is a dry run, send it. */
    method Request(call: Call) returns (r: Reply)
      requires Valid()
      modifies this
      ensures Valid() && planned == old(planned) + [call]
      ensures sent == if dryRun then old(sent) else old(sent) + [call]
      ensures dryRun ==> r.Ok? && trips == old(trips)
      ensures !dryRun ==>
                (r.Ok? <==> Answered(fate, old(trips), if call.CreateIssue? || call.AddNote? then 1 else 3))
      ensures !dryRun && r.Ok? ==> Reached(fate, old(trips), trips)
      ensures TakenEffect(call, Reached(fate, old(trips), trips), old(open), old(notes), old(next), old(peak))
      ensures unanswered == old(unanswered) + if r.Ok? then 0 else 1
      ensures Outcome(r.Ok?, old(trips), old(unanswered))
    {
      planned := planned + [call];
      if dryRun {
        return Ok;
      }
      sent := sent + [call];
      r := Send(call);
      unanswered := unanswered + if r.Ok? then 0 else 1;
    }

    /** The open labelled issues, oldest first; None when the call failed. A
        dry run gets no list and goes on as if there were none. */
    method OpenIssues() returns (issues: Option<seq<nat>>)
      requires Valid()
      modifies this
      ensures Valid() && open == old(open) && notes == old(notes) && next == old(next) && peak == old(peak)
      ensures dryRun ==> issues == Some([]) && sent == old(sent)
      ensures !dryRun ==> (issues.Some? <==> Answered(fate, old(trips), 3))
      ensures Outcome(issues.Some?, old(trips), old(unanswered))
      ensures !dryRun && issues.Some? ==> Page(open, issues.value)
    {
      var r := Request(ListIssues);
      if r.Failed? {
        return None;
      }
      if dryRun {
        return Some([]);
      }
      var chosen := Choose(open, Min(|open|, PER_PAGE));
      var page := InOrder(chosen);
      issues := Some(page);
    }

    /** A note, then the close. */
    method NoteAndClose(iid: nat) returns (r: Reply)
      requires Valid() && !dryRun
      modifies this
      ensures Valid() && next == old(next) && peak == old(peak)
      ensures Outcome(r.Ok?, old(trips), old(unanswered))
      ensures open == old(open) || open == old(open) - {iid}
      ensures NotedOnce({iid}, old(open), open, old(notes), notes)
      ensures r.Ok? ==> open == old(open) - {iid} && AllNoted({iid}, old(notes), notes)
    {
      r := Request(AddNote(iid));
      if r.Ok? {
        r := Request(CloseIssue(iid));
      }
    }

    /** Carry out the decision; `delivered` is false when a call failed. */
    method Act(d: Decision) returns (delivered: bool)
      requires Valid()
      modifies this
      ensures Valid()
      ensures next == old(next) || next == old(next) + 1
      ensures old(next) in open ==> next == old(next) + 1
      ensures dryRun ==> open == old(open) && notes == old(notes) && next == old(next) && sent == old(sent)
      ensures !dryRun ==> RunEffect(d, delivered, old(open), open, old(next))
      ensures Outcome(delivered, old(trips), old(unanswered))
      ensures NotedOnce(old(open), old(open), open, old(notes), notes)
      ensures !dryRun && delivered && (d.Alert? || d.Healthy?) && |old(open)| <= PER_PAGE ==>
                AllNoted(old(open), old(notes), notes)
      ensures !dryRun && AllDone(fate, old(trips), trips) ==>
                && delivered
                && (d.Alert? ==> (|open| == 1 <==> |old(open)| <= PER_PAGE))
                && (d.Healthy? ==> (open == {} <==> |old(open)| <= PER_PAGE))
      ensures d.Quiet? || d.Unknown? ==> sent == old(sent) && open == old(open) && notes == old(notes)
      ensures peak <= Max(old(peak), 1)
    {
      if d.Quiet? || d.Unknown? {
        return true;
      }
      var listed := OpenIssues();
      if listed.None? {
        return false;
      }
      delivered := Perform(d, listed.value);
    }

    /** Decide and act. When every round trip is done and at most a page was
        open, trouble leaves exactly one open issue and a good run none;
        otherwise nothing changes. */
    method Respond(s: SyncState) returns (delivered: bool)
      requires Valid()
      modifies this
      ensures Valid() && Outcome(delivered, old(trips), old(unanswered))
      ensures !dryRun && AllDone(fate, old(trips), trips) && |old(open)| <= 100 ==>
                && delivered
                && (IsTrouble(s) ==> |open| == 1)
                && (!IsTrouble(s) && IsGood(s) ==> open == {})
      ensures dryRun || (!IsTrouble(s) && !IsGood(s)) ==> open == old(open) && sent == old(sent)
      ensures peak <= Max(old(peak), 1)
    {
      DecideIff(s);
      delivered := Act(Decide(s));
    }

    /** The writes, given the listed issues. */
    method Perform(d: Decision, issues: seq<nat>) returns (delivered: bool)
      requires Valid() && (d.Alert? || d.Healthy?) && (if dryRun then issues == [] else Page(open, issues))
      modifies this
      ensures Valid()
      ensures next == old(next) || next == old(next) + 1
      ensures old(next) in open ==> next == old(next) + 1
      ensures dryRun ==> open == old(open) && notes == old(notes) && next == old(next) && sent == old(sent)
      ensures !dryRun ==> RunEffect(d, delivered, old(open), open, old(next))
      ensures Outcome(delivered, old(trips), old(unanswered))
      ensures NotedOnce(old(open), old(open), open, old(notes), notes)
      ensures !dryRun && delivered && (d.Alert? || d.Healthy?) && |old(open)| <= PER_PAGE ==>
                AllNoted(old(open), old(notes), notes)
      ensures peak <= Max(old(peak), 1)
    {
      if issues == [] {
        if d.Alert? {
          var r := Request(CreateIssue);
          return r.Ok?;
        }
        return true;
      }
      ghost var before, unused := open, next;
      delivered := FoldListed(d, issues);
      ListedGivesEffect(d, delivered, before, open, unused, issues);
      if |before| <= PER_PAGE {
        FullPage(before, issues);
      }
    }

    /** The oldest listed issue: a note, and on recovery the close. */
    method NotePrimary(d: Decision, iid: nat) returns (r: Reply)
      requires Valid() && !dryRun
      modifies this
      ensures Valid() && next == old(next) && peak == old(peak)
      ensures Outcome(r.Ok?, old(trips), old(unanswered))
      ensures open <= old(open) && NotedOnce({iid}, old(open), open, old(notes), notes)
      ensures r.Ok? ==> open == (if d.Alert? then old(open) else old(open) - {iid})
      ensures r.Ok? ==> AllNoted({iid}, old(notes), notes)
    {
      if d.Alert? {
        r := Request(AddNote(iid));
      } else {
        r := NoteAndClose(iid);
      }
    }

    /** Note (and on recovery close) the oldest listed issue, then close the
        other listed ones. */
    method FoldListed(d: Decision, issues: seq<nat>) returns (delivered: bool)
      requires Valid() && !dryRun && issues != [] && Page(open, issues)
      modifies this
      ensures Valid() && next == old(next) && peak == old(peak)
      ensures Outcome(delivered, old(trips), old(unanswered))
      ensures open <= old(open)
      ensures NotedOnce(Elements(issues), old(open), open, old(notes), notes)
      ensures delivered ==> open == old(open) - Elements(if d.Alert? then issues[1..] else issues)
      ensures delivered ==> AllNoted(Elements(issues), old(notes), notes)
    {
      HeadAndTail(issues);
      var r := NotePrimary(d, issues[0]);
      if r.Failed? {
        return false;
      }
      ghost var open1, notes1 := open, notes;
      delivered := CloseAll(issues[1..]);
      NotedInTurn({issues[0]}, Elements(issues[1..]), old(open), open1, open, old(notes), notes1, notes);
    }

    /** Fold the duplicates: note and close each. */
    method CloseAll(issues: seq<nat>) returns (ok: bool)
      requires Valid() && !dryRun && StrictlyAscending(issues)
      modifies this
      ensures Valid() && next == old(next) && peak == old(peak)
      ensures Outcome(ok, old(trips), old(unanswered))
      ensures open <= old(open)
      ensures NotedOnce(Elements(issues), old(open), open, old(notes), notes)
      ensures ok ==> open == old(open) - Elements(issues) && AllNoted(Elements(issues), old(notes), notes)
    {
      for i := 0 to |issues|
        invariant Valid() && next == old(next) && peak == old(peak)
        invariant Outcome(true, old(trips), old(unanswered))
        invariant Folded(issues, i, old(open), open, old(notes), notes)
      {
        ghost var open1, notes1 := open, notes;
        var r := NoteAndClose(issues[i]);
        FoldOneMore(issues, i, old(open), open1, open, old(notes), notes1, notes);
        if r.Failed? {
          return false;
        }
      }
      assert issues[..|issues|] == issues;
      ok := true;
    }
  }

  lemma HeadAndTail(s: seq<nat>)
    requires s != [] && StrictlyAscending(s)
    ensures Elements(s) == {s[0]} + Elements(s[1..]) && s[0] !in Elements(s[1..])
  {
  }

  /** The first `i` of the issues are noted once and closed. */
  ghost predicate Folded(issues: seq<nat>, i: nat, before: set<nat>, after: set<nat>,
                         notes: multiset<nat>, notes': multiset<nat>)
    requires i <= |issues|
  {
    && after == before - Elements(issues[..i])
    && NotedOnce(Elements(issues[..i]), before, after, notes, notes')
    && AllNoted(Elements(issues[..i]), notes, notes')
  }

  lemma FoldOneMore(issues: seq<nat>, i: nat, open0: set<nat>, open1: set<nat>, open2: set<nat>,
                    notes0: multiset<nat>, notes1: multiset<nat>, notes2: multiset<nat>)
    requires i < |issues| && StrictlyAscending(issues)
    requires Folded(issues, i, open0, open1, notes0, notes1) && NotedOnce({issues[i]}, open1, open2, notes1, notes2)
    ensures NotedOnce(Elements(issues), open0, open2, notes0, notes2)
    ensures open2 == open1 - {issues[i]} && AllNoted({issues[i]}, notes1, notes2) ==>
              Folded(issues, i + 1, open0, open2, notes0, notes2)
  {
    assert Elements(issues[..i + 1]) == Elements(issues[..i]) + {issues[i]};
    NotedInTurn(Elements(issues[..i]), {issues[i]}, open0, open1, open2, notes0, notes1, notes2);
    assert Elements(issues[..i + 1]) <= Elements(issues);
  }

  lemma {:induction false} DistinctSize(s: seq<nat>)
    requires StrictlyAscending(s)
    ensures |Elements(s)| == |s|
  {
    if s != [] {
      DistinctSize(s[1..]);
      HeadAndTail(s);
    }
  }

  /** What is left when all but the first of a page, or all of it, is closed. */
  lemma PageSizes(open: set<nat>, issues: seq<nat>)
    requires Page(open, issues) && issues != []
    ensures |open - Elements(issues[1..])| == |open| - Min(|open|, PER_PAGE) + 1
    ensures |open - Elements(issues)| == |open| - Min(|open|, PER_PAGE)
  {
    DistinctSize(issues);
    DistinctSize(issues[1..]);
    assert Elements(issues) <= open && Elements(issues[1..]) <= open;
    assert |open - Elements(issues)| == |open| - |Elements(issues)|;
    assert |open - Elements(issues[1..])| == |open| - |Elements(issues[1..])|;
  }

  /** One full page lists every issue, the oldest first. */
  lemma FullPage(open: set<nat>, issues: seq<nat>)
    requires Page(open, issues) && issues != [] && |open| <= PER_PAGE
    ensures Elements(issues) == open && forall x :: x in open ==> issues[0] <= x
  {
    DistinctSize(issues);
    SubsetSize(Elements(issues), open);
  }

  /** With every issue on the page, closing all but the first leaves only the
      oldest. */
  lemma OldestIsLeft(before: set<nat>, issues: seq<nat>)
    requires Page(before, issues) && issues != [] && |before| <= PER_PAGE
    ensures forall m, x :: m in before - Elements(issues[1..]) && x in before ==> m <= x
  {
    FullPage(before, issues);
    assert issues == [issues[0]] + issues[1..];
    assert before - Elements(issues[1..]) <= {issues[0]};
  }

  lemma ListedGivesEffect(d: Decision, delivered: bool, before: set<nat>, after: set<nat>, next: nat, issues: seq<nat>)
    requires Page(before, issues) && issues != [] && next !in before && (d.Alert? || d.Healthy?)
    requires after <= before
    requires delivered ==> after == before - Elements(if d.Alert? then issues[1..] else issues)
    ensures RunEffect(d, delivered, before, after, next)
  {
    if delivered {
      assert issues[0] in before;
      PageSizes(before, issues);
      if |before| <= PER_PAGE {
        OldestIsLeft(before, issues);
      }
    }
  }

  /** Any `n` elements of a set: which ones the tracker lists is open. */
  method Choose(s: set<nat>, n: nat) returns (r: set<nat>)
    requires n <= |s|
    ensures r <= s && |r| == n
  {
    r := {};
    var rest := s;
    while |r| < n
      invariant r !! rest && r + rest == s && |r| <= n && |r| + |rest| == |s|
      decreases n - |r|
    {
      var x :| x in rest;
      r, rest := r + {x}, rest - {x};
    }
  }

  method InOrder(s: set<nat>) returns (r: seq<nat>)
    ensures |r| == |s| && (forall y :: y in r <==> y in s) && StrictlyAscending(r)
  {
    r := [];
    var rest := s;
    while rest != {}
      invariant rest <= s && |r| + |rest| == |s| && forall y :: y in r <==> y in s - rest
      invariant StrictlyAscending(r) && Ascending(r)
      decreases |rest|
    {
      var x :| x in rest;
      InsertKeepsDistinct(r, x);
      r, rest := Insert(r, x), rest - {x};
    }
  }

  // ------------------------------------------------------------ many runs

  /** No run, delivered or not, raises the number of open issues above one. */
  lemma RunKeepsAtMostOne(d: Decision, delivered: bool, before: set<nat>, after: set<nat>, next: nat)
    requires RunEffect(d, delivered, before, after, next)
    ensures |after| <= Max(1, |before|)
  {
    if next in after {
      SubsetSize(after, {next});
    } else {
      SubsetSize(after, before);
    }
  }

  datatype Run = Run(d: Decision, delivered: bool, after: set<nat>, next: nat)

  /** Runs one after the other, each starting where the last one ended. */
  predicate History(open: set<nat>, runs: seq<Run>)
    decreases |runs|
  {
    runs != [] ==>
      && RunEffect(runs[0].d, runs[0].delivered, open, runs[0].after, runs[0].next)
      && History(runs[0].after, runs[1..])
  }

  /** From no open issue, over every sequence of runs, decisions and call
      outcomes, there is never more than one. */
  lemma {:induction false} AtMostOneOverEveryHistory(open: set<nat>, runs: seq<Run>, k: nat)
    requires |open| <= 1 && History(open, runs) && k < |runs|
    ensures |runs[k].after| <= 1
    decreases |runs|
  {
    RunKeepsAtMostOne(runs[0].d, runs[0].delivered, open, runs[0].after, runs[0].next);
    if k > 0 {
      AtMostOneOverEveryHistory(runs[0].after, runs[1..], k - 1);
    }
  }

  /** When a run with no failed call ends with the promised issues: exactly
      one on an alert if and only if at most one page was open before, none on
      a healthy run under the same condition. */
  lemma CleanRunIff(d: Decision, before: set<nat>, after: set<nat>, next: nat)
    requires RunEffect(d, true, before, after, next)
    ensures d.Alert? ==> (|after| == 1 <==> |before| <= PER_PAGE)
    ensures d.Healthy? ==> (|after| == 0 <==> |before| <= PER_PAGE)
  {
  }

  /** Any number of runs against one tracker, at every moment of every run. */
  method RunAll(client: GitLabClient, ds: seq<Decision>)
    requires client.Valid() && client.peak <= 1
    modifies client
    ensures client.Valid() && client.peak <= 1 && |client.open| <= 1
  {
    for i := 0 to |ds|
      invariant client.Valid() && client.peak <= 1
    {
      var delivered := client.Act(ds[i]);
    }
  }

  function FirstNumbers(n: nat): (r: set<nat>)
    ensures |r| == n && forall i :: i in r ==> i < n
  {
    if n == 0 then {} else FirstNumbers(n - 1) + {n - 1}
  }

  /** With one issue more than a page, an alert whose every round trip is done
      leaves two open. */
  method OneMoreThanAPage() returns (client: GitLabClient, delivered: bool)
    ensures fresh(client) && !client.dryRun && forall n :: client.fate(n).Done?
    ensures delivered && client.unanswered == 0 && |client.open| == 2
  {
    client := new GitLabClient(false, n => Done, FirstNumbers(101), 101);
    delivered := client.Act(Alert);
  }
}

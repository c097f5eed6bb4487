# zoder: a model of its stores, protocols and scanners

zoder routes model calls across providers. This project models, in Dafny, the
parts of it whose correctness depends on every run rather than on one call:

- **Model health** (`ModelHealth.dfy`, `HealthLock.dfy`): the record kept per
  model, with its failure-counting breaker, its classification and quota-wall
  skip rule and its pre-query gate (exponential backoff, Retry-After as in
  section 10.2.3 of RFC 9110, one half-open probe), and the locked
  read-modify-write that any number of processes use to update the store.
- **Engine sessions** (`SessionStore.dfy`, `SessionLock.dfy`,
  `BoundedWait.dfy`): the session index with its freshness window and cap, the
  writers' advisory lock modelled down to lock-file inodes, and the bounded
  wait for that lock.
- **Corpus jobs** (`CorpusAlert.dfy`, `CorpusPublish.dfy`): the alert that must
  keep at most one issue open although replies get lost (idempotent methods as
  in section 9.2.2 of RFC 9110), and the publish pipeline behind its two gates.
- **Provider slots** (`SlotSemaphore.dfy`): a host-wide counting semaphore made
  of lock files.
- **Memo and guard** (`ConfigCache.dfy`, `EnvGuard.dfy`): a cached read that
  must agree with a plain load, and an environment guard that must undo
  everything.
- **Scanners** (`RscArray.dfy`, `ResetTimestamp.dfy`): a bracket matcher over
  JSON text (RFC 8259) and a word-bounded marker and date search (dates as in
  section 5.6 of RFC 3339).

`FixedWidth.dfy`, `Sets.dfy`, `Sorting.dfy` and `Text.dfy` hold what they share:
Rust's integer ranges, set sizes, sorted insertion and substring search.

Pure code is modelled by functions. Objects that the source updates in place
are classes whose methods are proved equal to a function of the old state, and
the theorems are about that function over whole histories. Protocols are state
machines: `Action`, `Enabled`, `Do`, and `Exec` for a run of any length.

## Where the code does not do what it says

Each of these keeps the code's behaviour, gives a concrete input or run, and
states exactly when the promised behaviour holds.

- A gate failure stamps the failure time for skip classes too, and so re-arms
  a breaker whose cooldown is over, although such outcomes are documented as
  breaker-neutral (`GateFailureReArmsTheBreaker`, `GateFailureBreakerEffect`).
- A later gate failure can shorten an earlier Retry-After
  (`RetryAfterCanBeForgotten`, `LaterFailureKeepsHorizonIff`).
- The half-open claim is an unchecked addition; in the last 60 seconds of the
  clock's range it wraps and admits a second probe
  (`ClaimHoldsUnlessTheClockWraps`).
- Breaking a stale health lock is check, remove, create, and is not atomic: two
  breakers can both own it and lose an update (`TwoBreakersBothOwn`,
  `TwoBreakersLoseAnUpdate`, `BreakKeepsExclusionIff`).
- Removing the session lock file on release is called benign. With three
  writers it loses a record (`ThreeWritersLoseARecord`,
  `GrantKeepsExclusionIff`); with two it does not (`TwoSavesAreNeverLost`).
- A saved session does not always survive the eviction that follows
  (`SavedRecordCanBeEvicted`, `SaveThenLoadIff`).
- The alert promises at most one open issue after every run. After a run whose
  calls were all answered that holds exactly when no more than one page was open
  (`CleanRunIff`, `OneMoreThanAPage`); starting from none it holds after every
  run, answered or not (`AtMostOneOverEveryHistory`).
- A healthy decision does not need the overlay's age or staleness to be known
  (`DecideIff`).
- A timed-out slot request says that others hold every slot; a sweep can be
  refused although one was free at every moment (`RefusalWithoutExhaustion`).
  What a refusal does show is that each slot was held at a moment of the sweep
  (`RefusedSlotsWereHeld`), and all of them at its end if none was let go
  meanwhile (`QuietRefusalIsExhaustion`); alone, it is exact (`LoneRefusalIff`).
- The lock promises that no update is lost. A load that is refused the file, or
  finds it over the size limit, goes on with an empty store under the lock and
  drops what was there (`EmptyLoadLosesAnUpdate`, `EmptyLoadIsHarmlessIff`,
  `EveryRunHoldsASuffix`); the session store does the same on a read error
  (`RefusedReadLosesARecord`, `RefusedReadIsHarmlessIff`).
- So a recorded Retry-After can be forgotten with the lock held correctly
  (`EmptyLoadForgetsRetryAfter`): a query is let through before the horizon
  exactly when the store that was read has lost the gate, which takes an empty
  load since the failure (`EarlyAnswerIff`, `LostGateNeedsAnEmptyLoad`). The
  half-open probe itself is never early, and never twice in a minute.
- A cached catalogue is said to be a function of the bytes. Its loader also
  looks at the file's mode, which the cache does not (`ChangeOfModeIsMissed`,
  `PricingAgreesIff`, `FreshnessIff`).
- A rewrite between a cached read's hash and its parse poisons the cache
  (`RewriteInsideACallPoisons`, `MissKeepsGoodIff`).
- A key that contains `[` makes the array scan start inside the key
  (`BracketInKeyMissesTheArray`, `StartIsTheArrayIff`).
- The word search misses words that overlap an earlier occurrence. It is
  complete exactly for needles whose every border continues a word on its left,
  which all the markers modelled here do (`OverlappingWordIsMissed`,
  `WordSearchIsCompleteIff`, `MarkersAreWordBorderless`); whether there is such
  a word at all is answered right for a few needles more (`HasWordIsExactIff`).

## Model

| member | source | states |
|---|---|---|
| `ModelHealth.SkipClassFailuresAreBreakerNeutral` | crates/model-health/src/lib.rs:557-639 | Deleting every skip-class failure of the classified recorder from any history leaves the failure count, the consecutive count, the failure time and the breaker's answer at every time as they were |
| `ModelHealth.ConsecutiveFailuresCountsTheTail` | crates/model-health/src/lib.rs:507-639 | The consecutive counter is the saturated number of counted failures since the last success |
| `ModelHealth.LastFailureIsTheLatestStamp` | crates/model-health/src/lib.rs:340-365 | The failure time is that of the latest counted or gate failure of the whole history |
| `ModelHealth.BreakerOpenIff` | crates/model-health/src/lib.rs:427-444 | For every history: the breaker is open if and only if three counted failures follow the last success (or the beginning, if there was none) and the latest stamp is inside the cooldown |
| `ModelHealth.GateFailureReArmsTheBreaker` | crates/model-health/src/lib.rs:360-365 | A concrete history in which an uncounted skip-class gate failure reopens a breaker whose cooldown was over |
| `ModelHealth.GateFailureBreakerEffect` | crates/model-health/src/lib.rs:340-365 | Remark: when one gate failure changes the breaker's answer at a given time |
| `ModelHealth.ShiftClampIsInvisible` | crates/model-health/src/lib.rs:348-353 | Clamping the shift and saturating the count never change the documented backoff min(30·2^(k-1), 900), for every k |
| `ModelHealth.GateAfterFailures` | crates/model-health/src/lib.rs:340-365 | After any run of events without a gate success: the open count is the number k of gate failures, and the horizon is the latest failure's time plus min(30·2^(k-1), 900) seconds, or plus its Retry-After if that is given and longer, saturated |
| `ModelHealth.NeverFreshBeforeGateSuccess` | crates/model-health/src/lib.rs:298-328 | Once a gate failure is recorded, every answer until a gate success is a skip or the half-open probe |
| `ModelHealth.ClaimComesFromAnAdmission` | crates/model-health/src/lib.rs:332-336 | Between gate outcomes the count and the horizon stand, and the claim is that of the latest decision answered with the half-open probe |
| `ModelHealth.ProbeIsOfferedIff` | crates/model-health/src/lib.rs:298-328 | After a gate failure and until the next outcome: a skip until the failure's horizon, then a skip until the end of the latest claim if it is still running, and from then on the probe |
| `ModelHealth.ProbeIsEventuallyOffered` | crates/model-health/src/lib.rs:298-328 | Past the horizon and 60 s after every admission since, the answer is the half-open probe and never a skip; polls answered with a skip do not put it off |
| `ModelHealth.ClaimHoldsUnlessTheClockWraps` | crates/model-health/src/lib.rs:332-336 | A half-open admission claims the gate if and only if the clock is at least 60 s below its maximum; otherwise the same instant admits again |
| `ModelHealth.LaterFailureKeepsHorizonIff` | crates/model-health/src/lib.rs:340-365 | A later gate failure keeps an earlier horizon if and only if its own is no earlier |
| `ModelHealth.RetryAfterCanBeForgotten` | crates/model-health/src/lib.rs:354-357 | A concrete pair of failures after which a 5000 s Retry-After is over in one minute |
| `ModelHealth.QuotaWallOutlastsEverythingElse` | crates/model-health/src/lib.rs:393-410 | After a wall until U, every history without a classified success or another wall keeps the model skipped before U |
| `ModelHealth.CountersCountTheHistory` | crates/model-health/src/lib.rs:507-639 | Calls and failures are the saturated counts of the calls and the counted failures of the history |
| `ModelHealth.RecordIsTheLatest` | crates/model-health/src/lib.rs:368-382 | The check time is that of the latest record of any kind, and the class that of the latest classifying record |
| `ModelHealth.ProviderIsTheLatest` | crates/model-health/src/lib.rs:378-382 | The provider on record is the one the latest record that names one named |
| `ModelHealth.GateIsClosedIff` | crates/model-health/src/lib.rs:340-373 | The gate is closed if and only if its latest outcome, if any, was a success |
| `ModelHealth.FreshIff` | crates/model-health/src/lib.rs:319-327 | For every history: a probe is saved if and only if the gate is closed, the latest class is Reachable and the latest record is younger than the limit, and the answer carries that record's time |
| `ModelHealth.SkippedIff` | crates/model-health/src/lib.rs:393-410 | For every history: the skip rule in terms of the wall in force, the latest class and the latest check |
| `ModelHealth.StoreIsPerModel` | crates/model-health/src/lib.rs:447-453 | In a log of updates of all models, each model's record is the one its own events give, in order |
| `ModelHealth.HealthStore.RecordSuccess` | crates/model-health/src/lib.rs:507-518 | The store after the call is the history step of a success, for that model only |
| `ModelHealth.HealthStore.RecordClassifiedSuccess` | crates/model-health/src/lib.rs:525-545 | The same for a classified success, which lifts the wall |
| `ModelHealth.HealthStore.RecordFailure` | crates/model-health/src/lib.rs:547-555 | The same for a counted failure |
| `ModelHealth.HealthStore.RecordClassifiedFailure` | crates/model-health/src/lib.rs:599-639 | The same for a classified failure, with or without a provider and a wall |
| `ModelHealth.HealthStore.RecordGateFailure` | crates/zoder-cli/src/provider_health.rs:232-253 | The same for a gate failure |
| `ModelHealth.HealthStore.RecordGateSuccess` | crates/zoder-cli/src/provider_health.rs:256-264 | The same for a gate success |
| `ModelHealth.HealthStore.DecideLocked` | crates/zoder-cli/src/provider_health.rs:114-124 | The locked decision: the answer of the store before it, and a claim exactly for the half-open probe |
| `HealthLock.RenameKeepsChained` | crates/model-health/src/lib.rs:673-696 | A rename adds one link to the chain of updates: computed from the store the last one wrote, or from nothing at an empty load |
| `HealthLock.StepKeepsInv` | crates/model-health/src/lib.rs:715-729 | Every step of every process, empty loads included, keeps the protocol invariant, if a break takes no working process's lock |
| `HealthLock.EveryRunIsSerial` | crates/model-health/src/lib.rs:673-729 | For any number of processes and any interleaving, with crashes anywhere, if every load gets the store file: at most one process is in the critical section, the store file is whole and is the fold of the committed updates in rename order, and every answer is the one the fold gives |
| `HealthLock.EveryRunIsChained` | crates/model-health/src/lib.rs:715-795 | Refused and oversized loads included: at most one process is in the critical section, the store file is never torn, and each update was computed from the store the one before it wrote unless an empty load came between |
| `HealthLock.EveryRunCleansUp` | crates/model-health/src/lib.rs:664-696 | In every run, whatever its breaks and loads, each temporary file belongs to a process that is writing it or has crashed |
| `HealthLock.NobodyIsStuck` | crates/model-health/src/lib.rs:673-729 | In every good state a process may stop, its load may get the store or not, its write may fail at any point, and it always has a step to go on with |
| `HealthLock.EveryRunHoldsASuffix` | crates/model-health/src/lib.rs:456-482 | Refused and oversized loads included: the store is always the fold, in rename order, of all the committed updates or of those since the log length at some such load of the run |
| `HealthLock.EmptyLoadIsHarmlessIff` | crates/model-health/src/lib.rs:456-482 | A load that yields the empty store, carried through to the rename, keeps the fold if and only if no other model was recorded and every field of the record that the event does not overwrite is as in a new one |
| `HealthLock.EmptyLoadLosesAnUpdate` | crates/model-health/src/lib.rs:456-482 | A run with the lock held correctly throughout in which one such load loses a committed update |
| `HealthLock.NoBreakIsSafe` | crates/model-health/src/lib.rs:751-795 | Runs without a stale-lock break meet that theorem's hypothesis |
| `HealthLock.TimelyBreaksAreSafe` | crates/model-health/src/lib.rs:751-809 | If every holder finishes or stops within the stale age of its create and every break removes the file it judged, every break is safe |
| `HealthLock.BreakKeepsExclusionIff` | crates/model-health/src/lib.rs:767-774 | From any state of a good run, a break followed by the breaker's create keeps mutual exclusion if and only if the broken lock's owner was not at work |
| `HealthLock.TwoBreakersBothOwn` | crates/model-health/src/lib.rs:767-774 | A run from the initial state in which two breakers are in the critical section together |
| `HealthLock.TwoBreakersLoseAnUpdate` | crates/model-health/src/lib.rs:767-774 | The same run goes on: both updates are renamed and the first is gone |
| `HealthLock.HalfOpenAdmissionsAreSpaced` | crates/zoder-cli/src/provider_health.rs:114-133 | In every run whose breaks are safe, empty loads included, two half-open admissions of a model without a gate outcome between them are at least 60 s apart, whatever the processes' clocks, short of admissions in the last minute of the clock's range |
| `HealthLock.NoAdmissionBeforeTheHorizon` | crates/zoder-cli/src/provider_health.rs:114-133 | No decision after a model's latest recorded gate failure admits before that failure's horizon, if the loads between the two renames get the store |
| `HealthLock.EarlyAnswerIff` | crates/zoder-cli/src/provider_health.rs:114-133 | In every run, empty loads included: no half-open probe is admitted before the horizon of the latest recorded failure, and any answer but a skip comes before it if and only if the store the decision read has lost the model's gate |
| `HealthLock.LostGateNeedsAnEmptyLoad` | crates/model-health/src/lib.rs:456-482 | That store has lost the gate only through an empty load after the failure's rename and not after the decision's |
| `HealthLock.EmptyLoadForgetsRetryAfter` | crates/model-health/src/lib.rs:456-482 | A run with the lock held correctly throughout in which a decision is let through 4999 s before the Retry-After |
| `SessionStore.DropOldest` | crates/acp-client/src/session_store.rs:871-893 | The removal loop leaves exactly the records with fewer than cap records newer than them |
| `SessionStore.EvictInPlace` | crates/acp-client/src/session_store.rs:852-894 | Eviction leaves exactly the newest fresh records and returns before-size minus after-size |
| `SessionStore.KeptIsTheNewest` | crates/acp-client/src/session_store.rs:852-894 | What is kept numbers min(fresh, cap), and every kept record is newer than every fresh record dropped |
| `SessionStore.KeptIsUnique` | crates/acp-client/src/session_store.rs:880-893 | Those two facts determine the surviving set, so it depends on the map alone |
| `SessionStore.EvictionIsIdempotent` | crates/acp-client/src/session_store.rs:428-431 | Evicting twice at one clock is evicting once |
| `SessionStore.PruneIsInvisibleIff` | crates/acp-client/src/session_store.rs:410-443 | Pruning is invisible to every load of every scope at the same or any later clock if and only if the fresh records fit under the cap |
| `SessionStore.FreshIff` | crates/acp-client/src/session_store.rs:333-339 | Freshness in plain numbers, saturation included |
| `SessionStore.SaveThenLoadIff` | crates/acp-client/src/session_store.rs:359-392 | Saving then loading returns the saved record if and only if it is still fresh and fewer fresh rivals than the cap order above it |
| `SessionStore.SaveSurvivesWhenNewest` | crates/acp-client/src/session_store.rs:382-389 | With a cap of at least one and all other records strictly older, the saved record is loaded back |
| `SessionStore.SavedRecordCanBeEvicted` | crates/acp-client/src/session_store.rs:386-388 | A concrete timestamp tie in which the record just saved is the one evicted |
| `SessionStore.EngineSessionStore.LoadRecord` | crates/acp-client/src/session_store.rs:314-341 | Load from a missing, unreadable, corrupt or good file agrees with the freshness rule, and errors exactly when the file is unreadable |
| `SessionStore.EngineSessionStore.Save` | crates/acp-client/src/session_store.rs:359-392 | The file afterwards is the merged index with the record inserted and evicted down, or untouched on failure |
| `SessionStore.EngineSessionStore.Clear` | crates/acp-client/src/session_store.rs:400-407 | Exactly the scope is removed, and nothing is written when it was absent |
| `SessionStore.EngineSessionStore.Prune` | crates/acp-client/src/session_store.rs:433-443 | The index afterwards is what eviction keeps, the count is the number removed, and a count of zero leaves the file untouched |
| `SessionLock.SkippedWriteIsIdentity` | crates/acp-client/src/session_store.rs:567-572 | When an operation asks for no write, writing would have changed nothing |
| `SessionLock.OperationByScope` | crates/acp-client/src/session_store.rs:359-443 | What a save, a clear and a prune do to each scope: a clear removes its own and no other, a save stores its record unless rivals outnumber the cap, and the others' fresh records stay as they were, all of them if they fit |
| `SessionLock.NobodyIsStuck` | crates/acp-client/src/session_store.rs:537-576 | A writer may stop at any step, a wait may end in a grant exactly when nobody holds the inode, or in a timeout, a load or a write may fail, and there is always a step to go on with |
| `SessionLock.StepKeepsOneHolder` | crates/acp-client/src/session_store.rs:740-793 | Every step keeps at most one lock holder per inode |
| `SessionLock.LiveGrantsSerialise` | crates/acp-client/src/session_store.rs:537-576 | For any number of writers, refused reads included: if every grant is of an inode still named, at most one writer is critical and the store is what the committed operations leave in turn; if every load gets the data file, that is their plain fold |
| `SessionLock.GrantKeepsExclusionIff` | crates/acp-client/src/session_store.rs:828-836 | A live grant keeps exclusion; a grant of a removed inode breaks it at once or on the next arrival |
| `SessionLock.StaleGrant` | crates/acp-client/src/session_store.rs:797-841 | A run in which a waiter is granted an inode that no longer has a name |
| `SessionLock.ThreeWritersLoseARecord` | crates/acp-client/src/session_store.rs:828-836 | A run of three writers, all successful, that loses a saved record which the same saves in series would keep |
| `SessionLock.RefusedReadIsHarmlessIff` | crates/acp-client/src/session_store.rs:562-566 | An operation that is refused the data file and commits keeps the fold if and only if it is a save that would have left no other record, a clear of nothing or a prune of nothing |
| `SessionLock.RefusedReadLosesARecord` | crates/acp-client/src/session_store.rs:562-566 | A run of two saves in which a refused read loses the first record, which their fold would keep |
| `SessionLock.RefusedSaveStartsAfresh` | crates/acp-client/src/session_store.rs:562-576 | Over every log: a refused save drops all that came before it and nothing that comes after |
| `SessionLock.RefusedOthersDoNothing` | crates/acp-client/src/session_store.rs:562-576 | Over every log: a refused clear or prune does nothing |
| `SessionLock.TwoWritersSerialise` | crates/acp-client/src/session_store.rs:537-576 | Every run of two one-operation writers, crashes, refused reads and a left-over lock file included, is exclusive and serial, and the store is the plain fold if every load gets the data file |
| `SessionLock.TwoSavesAreNeverLost` | crates/acp-client/src/session_store.rs:359-372 | Two processes that each save once to different scopes, with room under the cap and neither record stale, both find their records stored |
| `SessionLock.CommittedSaveIsNeverLost` | crates/acp-client/src/session_store.rs:359-372 | Of two one-save processes, one that has committed finds its record stored whatever becomes of the other, crash, timeout and failed write included, with room under the cap and the record still fresh for the other's save |
| `BoundedWait.BackoffReachesItsCeiling` | crates/acp-client/src/session_store.rs:597-599 | From the sixth wait on the backoff is 100 ms, and the waits add up to 155 ms plus 100 ms each |
| `BoundedWait.AttemptBound` | crates/acp-client/src/session_store.rs:651-684 | If n full waits fit inside the budget, n + 2 attempts are within 7 + budget/100 ms |
| `BoundedWait.LockExclusiveBounded` | crates/acp-client/src/session_store.rs:651-684 | With honest sleeps the wait ends, asks for at most the budget of sleep, makes at most 7 + budget/100 ms attempts, and times out only at or after the deadline with its latest attempt refused |
| `CorpusAlert.GatherState` | scripts/ci/corpus-sync-alert.py:466-508 | The state holds this run's and the previous run's outcome, and the capped count of leading failures |
| `CorpusAlert.CountAgreesWithDecision` | scripts/ci/corpus-sync-alert.py:522-531 | Remark: two or more failures are counted exactly when this run and the previous one failed, and then the decision is to alert |
| `CorpusAlert.DecideIff` | scripts/ci/corpus-sync-alert.py:522-551 | Exactly when each of the four decisions is taken: trouble always alerts, and unknown overlay facts do not prevent a healthy decision |
| `CorpusAlert.GitLabClient.Request` | scripts/ci/corpus-sync-alert.py:345-389 | The call is planned, and sent unless this is a dry run; it is answered exactly when the retry loop gets the reply, and a call without a reply is counted as lost |
| `CorpusAlert.GitLabClient.Send` | scripts/ci/corpus-sync-alert.py:391-423 | The reply is obtained if and only if a round trip within the attempts allowed brings it before one is turned down; the call takes effect exactly once if any round trip reached the tracker and not at all otherwise |
| `CorpusAlert.GitLabClient.OpenIssues` | scripts/ci/corpus-sync-alert.py:638-655 | A truthful sorted page of the open issues exactly when the list call is answered, with nothing changed |
| `CorpusAlert.GitLabClient.NoteAndClose` | scripts/ci/corpus-sync-alert.py:698-701 | The issue is noted at most once and closed only after its note; success exactly when both calls were answered |
| `CorpusAlert.GitLabClient.CloseAll` | scripts/ci/corpus-sync-alert.py:708-720 | The duplicates: each noted at most once, each closed one noted first, and, exactly when every call was answered, all of them closed and noted exactly once |
| `CorpusAlert.GitLabClient.Act` | scripts/ci/corpus-sync-alert.py:658-723 | The whole effect of one run on the open issues and their notes, whatever becomes of each call; delivered exactly when every call sent was answered; if every round trip was done, an alert ends with exactly one issue and a recovery with none, if and only if at most 100 were open; never more open at any moment than before, or one |
| `CorpusAlert.GitLabClient.Respond` | scripts/ci/corpus-sync-alert.py:522-723 | From the gathered state to the tracker: with every round trip done and at most 100 issues open, two failures in a row, a stale or week-old overlay or bad prices leave exactly one open issue, a good run leaves none, and anything else changes and sends nothing |
| `CorpusAlert.ListedGivesEffect` | scripts/ci/corpus-sync-alert.py:673-720 | Folding a page gives the promised number of open issues and keeps the oldest |
| `CorpusAlert.RunKeepsAtMostOne` | scripts/ci/corpus-sync-alert.py:663-669 | No run, delivered or not, raises the number of open issues above the larger of one and what it was |
| `CorpusAlert.AtMostOneOverEveryHistory` | scripts/ci/corpus-sync-alert.py:663-669 | From at most one open issue, over every sequence of runs, decisions and call outcomes there is never more than one |
| `CorpusAlert.CleanRunIff` | scripts/ci/corpus-sync-alert.py:638-723 | A run whose every call was answered ends with exactly one issue on ALERT, and none on HEALTHY, if and only if at most 100 were open |
| `CorpusAlert.OneMoreThanAPage` | scripts/ci/corpus-sync-alert.py:648-652 | With 101 issues open, an alert whose every round trip is done leaves two |
| `CorpusAlert.RunAll` | scripts/ci/corpus-sync-alert.py:658-723 | The same for the client itself, at every moment of every run |
| `CorpusPublish.RestoreLkgFor` | scripts/ci/corpus-fetch-and-overlay.py:148-164 | Every output with a last-known-good file is restored, and the answer is true exactly when all had one and there is at least one |
| `CorpusPublish.RestoredFile` | scripts/ci/corpus-fetch-and-overlay.py:156-163 | Restoring gives each output with a last-known-good file those bytes and leaves every other file alone |
| `CorpusPublish.RefillFailed` | scripts/ci/corpus-fetch-and-overlay.py:320-324 | The failed sources are refilled one after the other, and each entry says whether it was covered |
| `CorpusPublish.RefilledFile` | scripts/ci/corpus-fetch-and-overlay.py:320-324 | After the refill a file holds its last-known-good bytes exactly where a failed source lists it and there are some, else what was fetched |
| `CorpusPublish.FetchedFile` | scripts/ci/corpus-fetch-and-overlay.py:247-260 | After fetching a file holds what the last source to write it wrote, else what was there |
| `CorpusPublish.BuilderInput` | scripts/ci/corpus-fetch-and-overlay.py:138-164 | What the overlay builder is given, file by file: last-known-good bytes where a failed source lists the file and there are some, else what was fetched last, else what was there |
| `CorpusPublish.CountOneMore` | scripts/ci/corpus-fetch-and-overlay.py:127-135 | Counting scored models: none in no overlay, and an entry more counts exactly when it is scored |
| `CorpusPublish.AcceptsIff` | scripts/ci/corpus-fetch-and-overlay.py:167-191 | The candidate is accepted if and only if every source was fetched or is fully covered by last-known-good bytes, it has at least 50 scored models and at least three quarters of the committed ones |
| `CorpusPublish.FractionDropped` | scripts/ci/corpus-fetch-and-overlay.py:183-188 | The three ways the scripts ask whether a count dropped too far are one integer condition |
| `CorpusPublish.ScriptsAgreeOnPrices` | scripts/ci/corpus-freshness-check.py:85-110 | The pipeline's price verdict and the gate's own reading of the same report agree on every report |
| `CorpusPublish.OverlayChecksAgree` | scripts/ci/corpus-freshness-check.py:126-138 | The floor check of a stale run and the coverage check of a fresh one are the same condition |
| `CorpusPublish.Checkout.RunPipeline` | scripts/ci/corpus-fetch-and-overlay.py:301-422 | A failing builder stops the run with nothing changed; otherwise the tree and the report are the stated functions of the tree before and the run's inputs |
| `CorpusPublish.Checkout.CheckFreshness` | scripts/ci/corpus-freshness-check.py:237-331 | The gate's exit code, and that the baseline advances exactly on a passing fresh run |
| `CorpusPublish.Checkout.PublishRun` | scripts/ci/corpus-freshness-check.py:175-331 | One scheduled run keeps its changes exactly when the gate exits 0 |
| `CorpusPublish.KeptIff` | scripts/ci/corpus-freshness-check.py:237-331 | From any repository a run is kept if and only if its builder does not fail, both price sources are good, the catalogue keeps three quarters of its models, and the overlay it leaves has at least 50 scored models and three quarters of the baseline |
| `CorpusPublish.KeptRunPublishes` | scripts/ci/corpus-fetch-and-overlay.py:342-357 | From any repository a kept run publishes the overlay the builder made, with its own time and count, if the candidate was accepted, and otherwise leaves overlay, baseline and build time as they were |
| `CorpusPublish.ReportIsTrue` | scripts/ci/corpus-fetch-and-overlay.py:388-422 | The report's price verdict, stale flag and build time are those of the run |
| `CorpusPublish.AcceptedCount` | scripts/ci/corpus-fetch-and-overlay.py:167-191 | An accepted candidate has at least 50 scored models and at least three quarters of the committed count |
| `CorpusPublish.GateBlocksExactlyOnPrices` | scripts/ci/corpus-freshness-check.py:237-331 | In a sound repository a run that its builder does not stop passes the gate if and only if the price gate does |
| `CorpusPublish.PublishKeepsSound` | scripts/ci/corpus-freshness-check.py:261-285 | A run keeps the baseline equal to the committed count and at least 50, loses at most a quarter, and a stale run leaves overlay, baseline and build time alone |
| `CorpusPublish.EverySequenceStaysSound` | scripts/ci/corpus-freshness-check.py:237-331 | Every sequence of unforced runs keeps the baseline equal to the committed count and at least 50 |
| `CorpusPublish.EveryRunIsGood` | scripts/ci/corpus-freshness-check.py:237-331 | In every run of every sequence neither the scored nor the priced models drop by more than a quarter, overlay and baseline are left alone when stale, and the run is discarded exactly on bad prices or a failing builder |
| `CorpusPublish.CatalogShrinksSlowly` | scripts/ci/corpus-freshness-check.py:85-110 | From any repository, one run leaves at least three quarters of the priced models |
| `CorpusPublish.KeptRunRepairs` | scripts/ci/corpus-freshness-check.py:286-331 | Remark: from any repository, a kept run leaves at least 50 scored models, and a kept fresh run leaves it sound |
| `CorpusPublish.OneOutageKeepsTheOverlay` | scripts/ci/corpus-fetch-and-overlay.py:349-357 | With no last-known-good bytes, one failed source keeps the committed overlay and baseline |
| `SlotSemaphore.LimitFor` | crates/zoder-cli/src/provider_slots.rs:32-49 | The provider's own first entry wins, else the last `*` entry, else unlimited; malformed parts are ignored |
| `SlotSemaphore.TryTake` | crates/zoder-cli/src/provider_slots.rs:89-105 | One undisturbed sweep takes the lowest free slot and is refused exactly when all are held |
| `SlotSemaphore.EveryRunKeepsInv` | crates/zoder-cli/src/provider_slots.rs:110-156 | In every interleaving of probes, releases and crashes a slot has one holder, below that holder's own limit |
| `SlotSemaphore.CapHoldsInEveryRun` | crates/zoder-cli/src/provider_slots.rs:89-156 | No slot has two holders and, for every n, the processes let in, slot or no slot, that asked for a limit of 1 up to n number at most n, even when processes disagree on the limit |
| `SlotSemaphore.LimitIsWhatWasAsked` | crates/zoder-cli/src/provider_slots.rs:117-124 | In every run a process is let in without a slot only if its latest acquire asked for 0, and one that probes or holds goes by the positive limit it asked for |
| `SlotSemaphore.EntryAndExit` | crates/zoder-cli/src/provider_slots.rs:89-124 | A probe of a free slot takes it, a limit of 0 is let in at once, and whoever is in stays in until its own release or end |
| `SlotSemaphore.ExitFreesTheSlot` | crates/zoder-cli/src/provider_slots.rs:51-55 | A release or the end of its process frees the slot |
| `SlotSemaphore.NobodyIsStuck` | crates/zoder-cli/src/provider_slots.rs:110-156 | A process may stop anywhere, one that probes may give up, and there is always a step to go on with |
| `SlotSemaphore.RefusalWithoutExhaustion` | crates/zoder-cli/src/provider_slots.rs:136-144 | A run in which a full sweep is refused although at every moment a slot was free |
| `SlotSemaphore.RefusedSlotsWereHeld` | crates/zoder-cli/src/provider_slots.rs:89-105 | In every run, a process that has swept up to some slot found each slot below it held at a moment of that same sweep |
| `SlotSemaphore.QuietRefusalIsExhaustion` | crates/zoder-cli/src/provider_slots.rs:89-105 | If no slot below the limit is let go meanwhile, all the slots a sweep found held are held together at its end, so a full refusal means exhaustion |
| `SlotSemaphore.NoReleaseKeepsHeld` | crates/zoder-cli/src/provider_slots.rs:52-56 | A run without releases and crashes lets no slot go |
| `SlotSemaphore.LoneRefusalIff` | crates/zoder-cli/src/provider_slots.rs:89-105 | A finished sweep in which only one process acts is refused if and only if all the slots were held at its start |
| `ConfigCache.Memo.Cached` | crates/zoder-cli/src/config_cache.rs:97-145 | The value returned and the new cache and counters, as functions of the old cache and what the call saw of the file |
| `ConfigCache.CallIsFresh` | crates/zoder-cli/src/config_cache.rs:97-145 | From a good cache an undisturbed call returns what a plain load would and leaves the cache good, if files the cache cannot tell apart load alike |
| `ConfigCache.EveryReadIsFresh` | crates/zoder-cli/src/config_cache.rs:157-175 | Under that condition, over every run of changes and reads, each read equals a plain load, and hits plus loads is the number of calls |
| `ConfigCache.FreshnessIff` | crates/zoder-cli/src/config_cache.rs:97-145 | Every read of every run over a set of files equals a plain load if and only if those of them with equal stamp and hash load alike |
| `ConfigCache.ContentLoadersAgree` | crates/zoder-cli/src/config_cache.rs:167-175 | Without hash collisions a loader of the bytes alone, such as the health store's, meets that condition |
| `ConfigCache.PricingAgreesIff` | crates/zoder-core/src/pricing.rs:839-873 | The pricing loader, which also looks at the mode, meets it if and only if no file seen is made loosely writable, or put right, with bytes and times unchanged |
| `ConfigCache.ChangeOfModeIsMissed` | crates/zoder-cli/src/config_cache.rs:157-165 | A catalogue read while group-writable is served as empty after the mode is put right, and the reverse |
| `ConfigCache.MissKeepsGoodIff` | crates/zoder-cli/src/config_cache.rs:104-143 | When the file may change between any two of the three looks, the stored entry is good if and only if every file seen with the first look's stamp and the second's hash loads as the third did |
| `ConfigCache.SteadyMissKeepsGoodIff` | crates/zoder-cli/src/config_cache.rs:104-143 | With the stamp steady over the first two looks: if and only if the hashed and the parsed file load alike |
| `ConfigCache.UndisturbedReadsAreFresh` | crates/zoder-cli/src/config_cache.rs:97-145 | Over every run, changes inside calls included, as long as each call stores an entry that answers correctly for the files seen, every undisturbed read equals a plain load |
| `ConfigCache.RewriteInsideACallPoisons` | crates/zoder-cli/src/config_cache.rs:104-143 | A rewrite undone within a tick makes a later undisturbed read return the wrong value |
| `EnvGuard.RestoreIsInitial` | crates/test-support/src/lib.rs:123-134 | Restoring any saved list that tracks the environment gives back the whole initial environment |
| `EnvGuard.RestoreUndoesEverything` | crates/test-support/src/lib.rs:86-134 | After any sequence of sets and unsets, repeats included, restoring gives back the whole environment |
| `EnvGuard.Guard.SetVar` | crates/test-support/src/lib.rs:102-107 | One variable changes, and its first value is remembered once |
| `EnvGuard.Guard.UnsetVar` | crates/test-support/src/lib.rs:109-114 | One variable goes, and its first value is remembered once |
| `EnvGuard.Guard.Drop` | crates/test-support/src/lib.rs:123-134 | The environment is the initial one again, and already was when the lock was released |
| `RscArray.ScanBrackets` | scripts/rsc_util.py:55-79 | The flat loop stops exactly where the recursive scan does |
| `RscArray.ExtractArray` | scripts/rsc_util.py:48-80 | The slice returned, or None for a missing key, bracket or close |
| `RscArray.ValueIsNeutral` | scripts/rsc_util.py:58-71 | Scanning over any printed JSON value from inside a bracket ends in the state it began in, whatever brackets, quotes and escapes it holds |
| `RscArray.StopsAtTheClosingBracket` | scripts/rsc_util.py:58-79 | For every printed array and every suffix, the scan stops exactly at that array's closing bracket |
| `RscArray.StartIsTheArrayIff` | scripts/rsc_util.py:51-54 | The slice starts at the marker's own bracket if and only if the key holds no `[` |
| `RscArray.ExtractsThePrintedArray` | scripts/rsc_util.py:48-80 | For every array printed after the first marker, and any text around it, the slice taken is that array's text |
| `RscArray.BracketInKeyMissesTheArray` | scripts/rsc_util.py:54-54 | A concrete key with a bracket whose array is missed |
| `ResetTimestamp.WordMatchesExact` | crates/zoder-cli/src/failure.rs:953-966 | For every needle whose borders all continue a word on their left, the search reports exactly the word-bounded occurrences |
| `ResetTimestamp.HeadIsTheFirst` | crates/zoder-cli/src/failure.rs:953-971 | For the same needles the first report is the first word-bounded occurrence, if there is one |
| `ResetTimestamp.HasWordIsExactIff` | crates/zoder-cli/src/failure.rs:968-971 | Whether a text holds a word is answered right for every text if and only if no border of the needle can hide a word behind an occurrence that is none |
| `ResetTimestamp.HasWordIsSound` | crates/zoder-cli/src/failure.rs:968-971 | A yes is always right |
| `ResetTimestamp.SearchIsCompleteIff` | crates/zoder-cli/src/failure.rs:958-960 | The plain non-overlapping search finds every occurrence in every text if and only if the needle is borderless |
| `ResetTimestamp.WordSearchIsCompleteIff` | crates/zoder-cli/src/failure.rs:953-966 | The word search finds every word-bounded occurrence in every text if and only if each border of the needle continues a word of it on its left |
| `ResetTimestamp.BorderedNeedlesAreWordBorderless` | crates/zoder-cli/src/failure.rs:822-823 | Two of the classifier's phrases have a border and are searched for exactly all the same |
| `ResetTimestamp.OverlappingWordIsMissed` | crates/zoder-cli/src/failure.rs:949-966 | A concrete word-bounded occurrence that the search misses |
| `ResetTimestamp.LowerIsCaseBlind` | crates/zoder-cli/src/failure.rs:878-896 | Lowering forgets the case of ASCII letters and nothing else |
| `ResetTimestamp.MarkerStandsAloneIff` | crates/zoder-cli/src/failure.rs:876-878 | The refusal marker is a word of its own if and only if no letter, digit or underscore comes right before it |
| `ResetTimestamp.MarkersAreWordBorderless` | crates/zoder-cli/src/failure.rs:895-900 | The markers the extractor uses are searched for exactly |
| `ResetTimestamp.TrimmingKeepsTheDate` | crates/zoder-cli/src/failure.rs:922-933 | Trimming trailing punctuation never decides whether a token is a date |
| `ResetTimestamp.ResetAfterIsAPiece` | crates/zoder-cli/src/failure.rs:908-940 | A reset is a contiguous piece of the tail from its first digit, begins YYYY-MM-DD and ends in none of the punctuation; there is one exactly when that token is a date |
| `ResetTimestamp.StampIsReadBack` | crates/zoder-cli/src/failure.rs:908-940 | Every date-led string of the characters of an instant is read back whole, whatever digit-free text comes before it, sentence punctuation right after it and other text after that |
| `ResetTimestamp.ExtractResetTimestamp` | crates/zoder-cli/src/failure.rs:895-905 | The result is that of the first marker followed by a date, and None exactly when no marker is |
| `ResetTimestamp.ClassifyEngineBudgetExceeded` | crates/zoder-cli/src/failure.rs:873-883 | A refusal is recognised exactly when the marker occurs as a word in any case, and its reset is the first date after a marker on the rest of the first marker's line, a piece of the original text |
| `ResetTimestamp.FirstDateIff` | crates/zoder-cli/src/failure.rs:879-905 | In terms of the message: that date is None if and only if no marker word between there and the end of the line is followed on the line by a date-led token, and else the trimmed token after the first that is |
| `ResetTimestamp.LineReset` | crates/zoder-cli/src/failure.rs:880-881 | Trimming the line never changes what is read from it |

## Left out

- Model health: the latency average, the error and reason texts, and the name of the backup made of a corrupt store.
- Model health: a recorder that reads the clock twice is given one reading, and so is a session save.
- Model health: the fallback that decides without the lock (it takes no claim), the probe request itself and the asynchronous wrappers.
- HealthLock.EveryRunIsSerial: starts from a whole or absent store file, and asks that every load gets it; `EveryRunHoldsASuffix` says what is left when loads are refused.
- Session lock: the data file's temporary file (the commit is one step), and Windows, where the lock file is not removed while open.
- SessionLock.TwoSavesAreNeverLost: asks for room for both records and for neither to be stale at the other's clock, because the cap and the freshness window may remove either by design, and for no refused read; `CommittedSaveIsNeverLost` asks the latter of the other process only.
- BoundedWait.LockExclusiveBounded: the budget is a parameter, and its parsing from the environment is not modelled; an unbounded wait is only reported as such.
- Slots: splitting and number parsing of the limit specification, the mapping of provider names to directories, errors of opening a lock file, the polling interval and the notices.
- CorpusAlert.GitLabClient.OpenIssues: list replies are truthful; which issues a full page holds is left open, and malformed entries are not modelled.
- Alert: rendering of texts, other people opening labelled issues, and overlapping runs.
- Publish: thresholds are compared in exact reals, which agree with floating point for counts of any realistic size; the catalogue on disk is taken to hold the number of models its builder reports.
- Publish: the legacy report format, the override flag, the decoding of malformed staleness flags, and the age shown in warnings.
- ConfigCache.EveryReadIsFresh: the loader, the hash and the serialisation are parameters with the hypotheses stated (files that look alike load alike, and a serialisation round trip); fields that are not serialised are outside the value, and so is the backup that loading a bad health store makes.
- Environment guard: the panic on nested guards, and the temporary home built on top of it.
- RscArray.ExtractArray: returns the text of the array; the JSON parse of that text is the library's.
- ResetTimestamp.ClassifyEngineBudgetExceeded: trimming knows ASCII white space only, and text is indexed by character.
- Everything else in the repository (providers, command line, prompts, benchmark fetchers, fixed tables of failure codes): plumbing, external libraries or finite tables.

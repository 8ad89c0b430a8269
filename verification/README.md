# Verification of the resident agent

A Dafny model of the agent's core and proofs about it. `dafny verify dfyconfig.toml` checks everything.

The agent runs cycles. In a cycle it observes the host through registered read operations, lets a local
model plan, asks policy and an approval gate, hands at most one operation to the host, and verifies the
outcome by a fresh read. Every step is checkpointed in an append-only journal, from which later cycles
retrieve verified history. The model covers:

- **the journal** as bytes with a synced length: torn and unsynced writes, the latch, crashes that keep any
  prefix with the synced part, recovery by a chunked backward scan, and the full and the bounded reader
  (`JournalText`, `AuditReaders`, `AuditFile`, `JournalRuns`);
- **the cycle, the service, policy and redaction**: once as functions of what the surrounding world
  answers, once in the source's own form over a record array shared between copies of the trace, the two
  proved equal; what every run keeps, and what a run brings about when nothing stands in its way
  (`Sanitize`, `Policy`, `Trace`, `Cycle`, `CycleHistory`, `CycleTheorems`, `CycleProgress`,
  `CycleRunner`, `Service`, `ServiceRunner`);
- **service and journal together**: an operation handed to the executor is on record after a crash at any
  moment, and after any further runs; retrievable history rests on executions that were verified
  (`Durability`, `Sittings`);
- **the runtime's lifecycle** for any number of concurrent `Run` and `Close` callers, one step for each
  critical section, and the object whose methods are these sections (`Runtime`);
- **the adapters and the gating of requests**: executor, observer and verifier over one transport, the
  construction of the runtime, and what a service run publishes (`Adapters`, `Gating`);
- **retrieval** over exact reals: the lexical index, verified history, candidate selection, the vector
  cache, blended ranking, UTF-8 truncation, embedding batches (`Retrieval`, `Ranking`, `VerifiedHistory`,
  `Vectors`, `Candidates`, `SemanticSpec`, `SemanticCache`, `HistoryRetriever`, `EmbedderPauses`, `Utf8`,
  `Embeddings`);
- **the duplicate filter** for notice events (`Triggers`) and **the tool-call printer and parser** of the
  training scripts (`Patterns`, `ToolCall`, `ToolCallRoundTrip`).

`Wrappers`, `Lists`, `Sorting`, `Spaces` and `Decimals` hold what several modules share.

## Assumptions

- Observer, planner, retriever, approval gate, executor and verifier may answer anything at any time, and
  any save may fail. The answers are parameters of a cycle.
- JSON encoding is a parameter: injective, never empty, free of the newline byte, decoded back by its
  decoder. The size of an encoding and the compiled argument schema are functions of the arguments.
- SHA-256 is an injective parameter, the tokeniser any function, the embedder any function that works text
  by text and always answers alike, the square root any function with `root(x) * root(x) == x`.
- A service run returns once its context is cancelled. `Runtime.MustStep` rests on this: a cancelled Run is
  bound to go on. Cycle ids drawn at random differ from one another; the theorems that need it say so.
- Signatures, event ids and relay correlation are taken as given facts about an event or a reply.
- Python's `int` is a parameter that reads canonical decimals back. The two regular expressions are written
  as the searches they perform: a run of name characters ends at the first character outside the class, a
  lazy group ends at the first place where the rest matches, and the white space around a lazy group is
  what stripping removes.

## Findings

- The tool-call round trip does not hold for all keys without ">" and white space and all stripped values
  without the two end markers: a key that ends in `</function` and a value that begins with `</tool_call>`
  end the call between them (training/evaluate_vm_lab_lora.py:24). Empty names and keys do not come back
  either, as the patterns ask for at least one character (training/evaluate_vm_lab_lora.py:24,29).
  `ToolCallRoundTrip.RoundTripsExactlyWhenRowFits` gives the exact condition.
- A corpus document may carry an id that history generates later (agent/history_retrieval.go:373): the
  constructor checks the corpus alone (agent/history_retrieval.go:44-48), and every retrieval then fails at
  indexing (agent/history_retrieval.go:86-89).
  `VerifiedHistory.CombinedIsIndexable` says exactly when, `VerifiedHistory.ReservedIdIsRefused` gives one.
- Some checks can never fire: the omission check behind the placement of vectors (agent/embeddings.go:169-173),
  the last look at the names of a verification rule's arguments (agent/nostr_verifier.go:100-104), the
  service's validation at the end of the runtime's construction (agent/runtime.go:206-208), and an empty
  candidate list (agent/history_retrieval.go:149-151). The methods keep them, with the proof that they are
  dead.

## Model

| member | source | states |
|---|---|---|
| `JournalText.AppendRecord` | agent/audit_file.go:117-128 | appending a record and its newline to whole lines adds exactly that line |
| `JournalText.AppendPartial` | agent/audit_file.go:126-128 | a torn write without a newline adds no line, only a tail |
| `JournalText.LinesOfPrefix` | agent/audit_file.go:137-165 | the lines of a prefix are a prefix of the lines: a cut never changes an earlier record |
| `Sanitize.SanitizeMap` | agent/sanitize.go:12-29 | the loop over the map, in whatever order it yields, builds the redacted map |
| `Sanitize.SanitizeFields` | agent/sanitize.go:33-42 | the loop over a nested map, in whatever order, builds the redacted map |
| `Sanitize.SanitizeValue` | agent/sanitize.go:31-52 | the recursion over objects and arrays builds the redacted tree |
| `Sanitize.SensitiveIsMarkerContainment` | agent/sanitize.go:68-86 | a key is sensitive exactly when its lower-cased letters, separators dropped, contain a marker: the equality and suffix tests decide nothing more |
| `Sanitize.SeparatorsAndCaseAreIrrelevant` | agent/sanitize.go:64-86 | keys that differ only in case and in "-", ".", " ", "_" get the same verdict |
| `Sanitize.OutputIsThePublicPart` | agent/sanitize.go:31-52 | two trees have equal outputs exactly when they differ only below sensitive keys |
| `Sanitize.SecondPassChangesNothing` | agent/audit_file.go:254-269 | a second pass without the extra keys leaves the first pass's tree as it is |
| `Sanitize.SecondMapPassChangesNothing` | agent/audit_file.go:263-267 | the same for maps: the journal's pass leaves the runner's pass unchanged |
| `Sanitize.SanitizingIsIdempotent` | agent/sanitize.go:12-29 | sanitizing twice with the same keys is sanitizing once |
| `Sanitize.HiddenExactlyWhen` | agent/sanitize.go:64-86 | a value is hidden exactly below a key whose letters contain a marker or that is, up to case and separators, a name the operation declares |
| `Sanitize.SanitizedMapIsRedactedCopy` | agent/sanitize.go:12-52 | the output is the input with exactly the values below such keys, at any depth, replaced |
| `Sanitize.RedactedCopyHidesAll` | agent/sanitize.go:31-52 | nothing is left below such a key, and a tree without one comes back unchanged |
| `Trace.SafeCopyOfRedacted` | agent/audit_file.go:254-269 | the journal's copy equals the trace exactly when every map of it was redacted before |
| `Trace.SafeCopyIsRedacted` | agent/audit_file.go:263-268 | what the journal writes is always redacted |
| `Policy.FirstMissingScope` | agent/policy.go:98-102 | the loop finds a scope exactly when one is not granted, and the one it finds is not granted |
| `Policy.ShownExactlyWhenNotDenied` | agent/cycle.go:314-332 | on a validated registry and a known level, the planner is shown an operation exactly when policy does not deny it |
| `Policy.ExecutionNeedsScopesAndLevel` | agent/policy.go:88-120 | allow and approval-required come only with all scopes granted at level maintain or autonomous, and allow only below the elevated risk class without an approval requirement |
| `Policy.DecisionsAreDetermined` | agent/policy.go:88-154 | on a validated registry, exactly when policy answers observe-only, proposal-only, allow and approval-required, by the named levels |
| `Policy.AutonomyIsMonotone` | agent/policy.go:113-120 | a higher level never takes an allowed operation back |
| `AuditReaders.ReadRecords` | agent/audit_file.go:152-181 | the scanning loop and the sort return the latest snapshot of each id in order, or fail on the first unreadable line |
| `AuditReaders.SortedValues` | agent/audit_file.go:171-181 | sorting by start time and id gives the one order both readers share |
| `AuditReaders.ReadWindow` | agent/audit_file.go:209-224 | the window read is the whole lines of the last 32 MiB |
| `AuditReaders.WalkBack` | agent/audit_file.go:225-251 | the backward loop over the lines, stopping at the limit, finds what the declarative backward scan finds |
| `AuditReaders.ReadRecentRecords` | agent/audit_file.go:187-252 | the bounded reader as a whole, limit clamping included |
| `AuditReaders.WindowIsASuffix` | agent/audit_file.go:213-224 | even when the window cuts a line, its records are the last records of the journal |
| `AuditReaders.LatestIsLast` | agent/audit_file.go:152-170 | the snapshot kept for an id is the last one written with it |
| `AuditReaders.ScanBackFindsRecentIds` | agent/audit_file.go:225-244 | the backward scan keeps the newest snapshot of exactly the recently written ids |
| `AuditReaders.RecentIdsAreTheNewest` | agent/audit_file.go:228-244 | an id is returned exactly when fewer than limit other ids were written after its last snapshot |
| `AuditReaders.RecentRefinesRecords` | agent/audit_file.go:184-252 | whenever the full reader accepts the journal, the bounded one succeeds and returns for the newest ids exactly the full reader's snapshots |
| `AuditReaders.ReadersAgree` | agent/audit_file.go:137-252 | the two readers return the same list when the journal fits the window and the ids fit the limit |
| `AuditReaders.ReadersReturnOldestFirst` | agent/audit_file.go:175-180 | both readers return the cycles by start time, those that started together by id at the first differing character |
| `AuditReaders.RecentCount` | agent/audit_file.go:187-252 | the bounded reader returns as many cycles as its window holds, up to the number asked for, 10000 when none or more are |
| `AuditReaders.WindowHoldsWhatFits` | agent/audit_file.go:209-224 | records that fit behind a line end within less than 32 MiB are all read |
| `AuditReaders.FullReaderRefusesExactlyWhen` | agent/audit_file.go:152-170 | the full reader fails exactly on a line over 1 MiB, one that is no record, or one without an id |
| `AuditReaders.CarriageReturnsAreIgnored` | agent/audit_file.go:152-163 | the full reader reads the same cycles from a journal whose lines end in carriage return and newline |
| `AuditReaders.BoundedReaderRefusesExactlyWhen` | agent/audit_file.go:225-244 | the bounded reader fails exactly on a bad line it still needs for its limit |
| `AuditFile.JournalFile.FindTailStart` | agent/audit_file.go:283-302 | the backward search in 4096-byte chunks stops behind the last newline, or at 0 |
| `AuditFile.JournalFile.TruncateIncompleteTail` | agent/audit_file.go:271-303 | recovery cuts the file there, or leaves it alone when it is whole or the cut fails |
| `AuditFile.JSONLAuditSink.Save` | agent/audit_file.go:99-135 | a save appends the record and syncs it, and latches on a failed write or sync |
| `AuditFile.JSONLAuditSink.Close` | agent/audit_file.go:82-97 | the first close syncs and closes the file and reports the failure of either; later ones do nothing |
| `AuditFile.JSONLAuditSink.Records` | agent/audit_file.go:137-182 | the full reader on the open file |
| `AuditFile.JSONLAuditSink.RecentRecords` | agent/audit_file.go:187-252 | the bounded reader on the open file |
| `AuditFile.OpenJSONLAuditSink` | agent/audit_file.go:69-80 | opening recovers, syncs and validates the file and hands out a sink only then |
| `JournalRuns.RecordIsALine` | agent/audit_file.go:113-117 | a record within 1 MiB and its newline fit the scanner's buffer: what was saved is read back |
| `JournalRuns.SaveKeepsGood` | agent/audit_file.go:99-135 | every save, refused, torn, unsynced or successful, keeps the journal invariant |
| `JournalRuns.CloseKeepsGood` | agent/audit_file.go:82-97 | closing keeps the invariant |
| `JournalRuns.CrashKeepsGood` | agent/audit_file.go:126-133 | a crash that keeps any prefix with the synced part keeps the invariant |
| `JournalRuns.RecoveryKeepsGood` | agent/audit_file.go:271-303 | recovery keeps every line and leaves a whole file |
| `JournalRuns.GoodFileOpens` | agent/audit_file.go:69-79 | a file that satisfies the invariant opens and validates |
| `JournalRuns.JournalStaysWhole` | agent/audit_file.go:99-135 | after any sequence of saves, closes, crashes and opens the file is readable records plus at most one tail, and no save appends onto a tail |
| `JournalRuns.AcknowledgedRecordsSurvive` | agent/audit_file.go:99-182 | whatever happens before and after, and whatever prefix a crash keeps: the file opens again, every acknowledged record is at its place, in order and readable, and the full reader answers its id with that snapshot or a later one |
| `JournalRuns.OpenCutsExactlyTheTail` | agent/audit_file.go:271-303 | opening removes exactly the bytes behind the last newline |
| `JournalRuns.SaveSucceedsExactlyWhen` | agent/audit_file.go:99-135 | a save returns nil exactly when the context lives, nothing fails, the trace has an id, the record fits and the sink is open and unbroken; then record and newline stand at the end, synced |
| `JournalRuns.FailedSaveBreaksOrRefuses` | agent/audit_file.go:121-134 | a save that fails leaves the file alone or breaks the sink, which then refuses every save |
| `JournalRuns.SavedRecordIsReadBack` | agent/audit_file.go:99-182 | after a successful save the full reader's list holds the saved copy, and no crash loses it |
| `JournalRuns.OpenedJournalSaves` | agent/audit_file.go:69-135 | a good file opens and takes the next save |
| `JournalRuns.OpensExactlyWhen` | agent/audit_file.go:69-80 | opening succeeds exactly when reading, cutting a tail and syncing do and every complete line is a readable record |
| `JournalRuns.ClosedJournalLosesNothing` | agent/audit_file.go:82-97 | the first close succeeds exactly when sync and close do, and then no crash loses a byte |
| `CycleRunner.SortedScopes` | agent/cycle.go:363-372 | the granted scopes, each once, in order, whatever the map order |
| `CycleRunner.AvailableOperations` | agent/cycle.go:314-332 | the names of the fully granted operations, each once, in order |
| `CycleRunner.RecordTheOutcome` | agent/cycle.go:355-361 | the trace passed by value changes the caller's record through the shared array, and is saved so |
| `CycleRunner.FinishCycle` | agent/cycle.go:334-345 | the last snapshot bears the finish time and status; its save failure is an error |
| `CycleRunner.Decide` | agent/cycle.go:189-201 | policy first, then the argument check, with the redacted proposal |
| `CycleRunner.Approve` | agent/cycle.go:213-241 | the approval branches: unavailable, delegated, failed, denied, granted |
| `CycleRunner.VerifyExecution` | agent/cycle.go:261-278 | verdict and flag recorded in the shared record and saved |
| `CycleRunner.Execute` | agent/cycle.go:242-278 | intent saved before the executor is called; failure and result recorded |
| `CycleRunner.HandleProposal` | agent/cycle.go:186-278 | one proposal from decision to verdict, every early continue and return included |
| `CycleRunner.Summarise` | agent/cycle.go:280-310 | the status read off the outcomes that earlier calls wrote through the shared array |
| `CycleRunner.HandleProposals` | agent/cycle.go:172-311 | limit, proposals, summary |
| `CycleRunner.Plan` | agent/cycle.go:159-171 | operations snapshot, planner call, completed-plan checkpoint |
| `CycleRunner.Retrieve` | agent/cycle.go:136-158 | citations appended and saved, failures finish the cycle |
| `CycleRunner.Observation` | agent/cycle.go:118-126 | redacted observations and scopes recorded and saved |
| `CycleRunner.Run` | agent/cycle.go:91-312 | the runner over a shared record array makes exactly the calls of the functional cycle, returns its trace and its error |
| `CycleHistory.EveryCycleIsJustified` | agent/cycle.go:91-312 | in every cycle, whatever the world answers, each call is justified by those before it, and a failed save is reported |
| `CycleTheorems.CheckpointChain` | agent/cycle.go:113-311 | any two snapshots of a cycle: identity, recorded policy and proposals fixed, planning completion kept, outcomes only forward; only the last save can fail or finish |
| `CycleTheorems.JournalWritesSnapshotsUnchanged` | agent/audit_file.go:254-269 | the runner's snapshots are redacted already: the journal's second pass changes none of them |
| `CycleTheorems.IntentPrecedesExecution` | agent/cycle.go:249-253 | before an execution its intent was saved, and every later snapshot still records the execution |
| `CycleTheorems.VerifiedHasProvenance` | agent/cycle.go:253-278 | an outcome "verified" comes after an execution that succeeded and, directly after it, a verification that returned true without error |
| `CycleTheorems.VerifiedResultHasProvenance` | agent/cycle.go:283-306 | a cycle result "verified" implies the same |
| `CycleTheorems.AtMostOneExecution` | agent/cycle.go:172-278 | a cycle hands at most one operation to its executor, however many the planner proposes |
| `CycleTheorems.SnapshotsBearTheCycleId` | agent/cycle.go:109-114 | every snapshot of a cycle bears the id the cycle drew |
| `CycleTheorems.SnapshotsGiveNothingAway` | agent/cycle.go:189-201 | no snapshot of any cycle holds an argument below a marked or declared name, or any argument of an unknown operation |
| `CycleProgress.CycleStartsExactlyWhen` | agent/cycle.go:91-116 | a cycle makes its first call exactly with observer, journal, trigger, valid registry and id, and fails without a call otherwise |
| `CycleProgress.UndisturbedCycle` | agent/cycle.go:113-311 | a complete configuration, answers from observer, retriever and planner and working saves: the cycle succeeds; it calls the executor exactly when the first proposal fits its schema and policy, owner or host clear it, with that operation and those arguments, and the verifier directly after a successful call; the last snapshot tells the request, the redacted observations, scopes, operations and knowledge, and the proposal with the outcome and status its answers call for |
| `CycleProgress.ConfirmedCycle` | agent/cycle.go:253-311 | one proposal, executed and confirmed by (true, no error), ends "verified" in outcome, flag and status |
| `CycleProgress.FailedObservationEnds` | agent/cycle.go:118-121 | a failed observation ends the cycle as such, with nothing executed |
| `CycleProgress.CyclesWithoutProposals` | agent/cycle.go:127-171 | level observe, a missing planner or executor, failed retrieval and failed planning end the cycle with their own status, with nothing executed |
| `CycleProgress.EmptyPlanCompletes` | agent/cycle.go:280-311 | an empty plan completes the cycle |
| `CycleProgress.InterruptionEnds` | agent/cycle.go:185-188 | a context that ended before the first proposal interrupts the cycle |
| `Service.EveryServiceRunIsGood` | agent/service.go:22-60 | every cycle of a service run is justified, and only the last can have failed |
| `Service.FailedSaveStopsTheService` | agent/service.go:41-59 | after a failed save nothing is called any more in the whole service run |
| `Service.SignalHasItsEffect` | agent/service.go:42-59 | after any signals that left the service running: an open trigger gets a cycle for its own request, a tick one for scheduled maintenance, the end of the context ends the service, a trigger behind the closing of the channel does nothing, a failed cycle is the last |
| `Service.ServiceStarts` | agent/service.go:26-40 | an immediate first cycle runs on its own request before any signal; an invalid service runs none |
| `Service.ServiceValidExactlyWhen` | agent/service.go:62-85 | valid exactly with interval, observer, journal, registry and what the level adds |
| `ServiceRunner.RunService` | agent/service.go:22-60 | the loop with the trigger channel set to nil on close makes exactly the calls of the functional service |
| `Durability.CrashDurableIntent` | agent/cycle.go:249-278 | for any service run with distinct cycle ids, any faults of the journal and a crash after any call or inside a save: for every operation a cycle handed to the executor before, the reopened journal holds a snapshot with the id of that very cycle that records the operation as executing or later |
| `Durability.CrashAfterIntent` | agent/audit_file.go:99-135 | once the intent of an execution is acknowledged, a crash at any later event leaves it on record |
| `Durability.HealthyJournalKeepsUp` | agent/audit_file.go:99-135 | an open, unbroken journal that meets no fault acknowledges every save of a run whose snapshots fit |
| `Sittings.IntentsStayOnRecord` | agent/cycle.go:249-278 | the same for any number of service runs on one journal, with any closes, crashes and openings between them: once executed, an operation stays on record under its cycle's id as long as no later run draws that id again |
| `Sittings.HistoryRestsOnVerifiedExecutions` | agent/history_retrieval.go:72-89 | after any such sequence of runs and a crash, the journal opens, its recent records can be read, and every history document made from them was on the journal before or rests on a successful execution, directly followed by a true verification, in the cycle with the id the document bears |
| `Sittings.NewHistoryIsExecuted` | agent/history_retrieval.go:334-383 | with a journal that started empty every history document rests on such an execution |
| `Runtime.StepKeepsInv` | agent/runtime.go:214-285 | every critical section, receive or unlocked stretch keeps the lifecycle invariant for all callers |
| `Runtime.AtMostOneRun` | agent/runtime.go:221-226 | under any interleaving of any number of callers at most one Run passes the guard |
| `Runtime.ResourcesClosedOnce` | agent/runtime.go:287-298 | owned resources are closed at most once, exactly once before any accepted Run or Close returns, and all report one error |
| `Runtime.NoDoubleClose` | agent/runtime.go:240-283 | a caller about to signal finds its own channel still open: no channel is closed twice |
| `Runtime.WaitingCloseHasALiveOwner` | agent/runtime.go:258-271 | a waiting Close can go on, or the owner of its channel is bound to go on |
| `Runtime.NoDeadlock` | agent/runtime.go:214-285 | when nobody is bound to go on, everybody has returned, except a Run whose service nobody asked to stop |
| `Runtime.SchedulesEnd` | agent/runtime.go:214-285 | a schedule has at most four steps for each caller |
| `Runtime.EverybodyReportsTheClosing` | agent/runtime.go:236-298 | once a Close or an accepted Run has returned, exactly one move of the schedule closed the resources, and its error, or nil, is what all of them return |
| `Runtime.RejectionAndCancelHaveReasons` | agent/runtime.go:221-262 | a Run is turned away only after another Run or a Close, and the service is cancelled only after a Close or its own return |
| `ResidentRuntime.ResidentRuntime.BeginRun` | agent/runtime.go:221-230 | the guard of Run under the lock, as the step |
| `ResidentRuntime.ResidentRuntime.ServiceReturned` | agent/runtime.go:236-238 | when the service has returned, the child context is cancelled and the owner goes on to close |
| `ResidentRuntime.ResidentRuntime.ReadCloseError` | agent/runtime.go:267-270 | a Close that was woken returns the error the owner published |
| `ResidentRuntime.ResidentRuntime.EndRun` | agent/runtime.go:240-244 | Run's last critical section closes a channel that is still open |
| `ResidentRuntime.ResidentRuntime.BeginClose` | agent/runtime.go:252-275 | Close's first critical section: return, wait, or become the owner |
| `ResidentRuntime.ResidentRuntime.CloseOwnedResources` | agent/runtime.go:287-298 | the journal reports its result on the first close only |
| `ResidentRuntime.ResidentRuntime.EndClose` | agent/runtime.go:278-284 | Close's last critical section as the owner |
| `ResidentRuntime.ResidentRuntime.Run` | agent/runtime.go:214-246 | the sections of Run in order are the steps of a Run caller up to its return |
| `ResidentRuntime.ResidentRuntime.Close` | agent/runtime.go:248-285 | the sections of Close in order are the steps of a Close caller up to its return or to the receive that blocks it |
| `ResidentRuntime.ResidentRuntime.Interleave` | agent/runtime.go:214-298 | any interleaving of any number of Run and Close calls takes the object through exactly the states of the schedule, and whoever signals finds its channel open |
| `NostrExecutor.NewControlPlaneExecutor` | agent/nostr_executor.go:48-68 | built exactly for a validated registry, with a copy of it |
| `NostrExecutor.Execute` | agent/nostr_executor.go:79-121 | publishes one request exactly when transport, server key, registry and arguments allow it, and returns a result only from a trusted reply |
| `NostrExecutor.PublishedIsRegistered` | agent/nostr_executor.go:90-97 | what is published is a registered operation under its own name with accepted arguments, and no result comes without a publication |
| `NostrExecutor.ResultExactlyWhen` | agent/nostr_executor.go:79-121 | a result comes back exactly for a published request answered under its id, by the configured server, successfully and under the same contract |
| `NostrObserver.CheckQuery` | agent/nostr_observer.go:46-68 | a query is kept exactly when it is a new registered plain read with a free target argument and accepted arguments |
| `NostrObserver.NewObserver` | agent/nostr_observer.go:27-72 | the constructor takes exactly the query lists that fit, each query with its own prepared arguments |
| `NostrObserver.QueryIsTriedWithAPlaceholder` | agent/nostr_observer.go:50-66 | a query is kept exactly when it names a plain read, leaves its target argument free, and its schema takes the arguments with a placeholder there |
| `NostrObserver.Observe` | agent/nostr_observer.go:74-106 | fails exactly without queries or when a query meets the end of the context; returns one entry per query up to there, and publishes exactly the requests of those queries |
| `NostrObserver.ObservationsAreReads` | agent/nostr_observer.go:74-106 | observing publishes plain reads of configured queries only |
| `NostrObserver.TargetReplacesPlaceholder` | agent/nostr_observer.go:46-85 | a query asks with its configured arguments and, under its target argument, the cycle's target |
| `NostrObserver.QueriesArePublished` | agent/nostr_observer.go:78-104 | every query reached with the context alive and acceptable arguments is published |
| `NostrObserver.EntryTellsTheResult` | agent/nostr_observer.go:90-104 | an entry says "ok" exactly when the read came back, and holds its result; otherwise it names the failure |
| `NostrVerifier.AddPlaceholders` | agent/nostr_verifier.go:85-99 | the mapping loop accepts exactly the mappings that fit, in whatever order |
| `NostrVerifier.CheckRuleArguments` | agent/nostr_verifier.go:78-109 | constants, mappings, names and schema: exactly the rules that fit; the last look at the names finds nothing |
| `NostrVerifier.CheckRule` | agent/nostr_verifier.go:47-113 | one rule is kept exactly when it fits and its operation has none yet |
| `NostrVerifier.NewVerifier` | agent/nostr_verifier.go:29-116 | the constructor takes exactly the rule lists that fit and files each rule under its operation |
| `NostrVerifier.GatherArguments` | agent/nostr_verifier.go:137-147 | the check's arguments are the constants and the mapped proposal arguments, or there are none when one is missing |
| `NostrVerifier.ValueAtPath` | agent/nostr_verifier.go:171-184 | the walk along the dotted path |
| `NostrVerifier.PathsCompose` | agent/nostr_verifier.go:171-184 | a longer path leads from the value of its front part to the value of its rest |
| `NostrVerifier.PathLeadsFieldByField` | agent/nostr_verifier.go:171-184 | a dotted path is followed field by field |
| `NostrVerifier.CheckIsAskedFor` | agent/nostr_verifier.go:136-147 | the check gets the constants and, under each mapped name, the proposal's argument, and cannot be asked exactly when one is missing |
| `NostrVerifier.VerdictIsReadOffTheReply` | agent/nostr_verifier.go:129-169 | a check that can be asked and is answered gives the verdict: for a plain name as path, true exactly when that field of the reply holds the expected value |
| `NostrVerifier.Verify` | agent/nostr_verifier.go:129-169 | at most one fresh read; an error exactly when there is no result to look at, true exactly when the result holds the expected value at the path |
| `Gating.ValidateRuntimeConfig` | agent/runtime.go:52-96 | the preflight accepts exactly the valid configurations, scopes of all reads included |
| `Gating.NewResidentRuntime` | agent/runtime.go:98-212 | a runtime is built exactly for valid configurations all of whose parts, asked for by the configuration, can be set up; its adapters may only read what is granted, and the service's final check refuses nothing more |
| `Gating.BuiltRunnerIsComplete` | agent/runtime.go:98-212 | a built runtime has everything its level asks for, its service is valid, and approvals are left to the daemon exactly when its key is known |
| `Gating.EveryPublicationIsGated` | agent/cycle.go:172-260 | each published request is registered, fully granted and argument-valid; one that is not a plain read is the runner's execution, at maintain or autonomous, after allow, a granted approval or delegation |
| `Gating.ChangesAreExecutions` | agent/nostr_verifier.go:129-169 | observer and verifier publish no change: changes are bounded by executions |
| `Gating.EveryServiceRunIsGated` | agent/runtime.go:98-246 | in every service run of a built runtime every request is gated and each cycle publishes at most one change |
| `Gating.ReleasedOperationIsPublished` | agent/cycle.go:242-278 | in an undisturbed cycle of a built runtime the cleared operation leaves the process with the proposal's arguments, and directly behind a success the read that verifies it |
| `Utf8.TruncateUTF8` | agent/history_retrieval.go:385-394 | the loop ends at the longest valid prefix within the limit |
| `Utf8.Truncate` | agent/embeddings.go:191-199 | the same loop as a function of text and limit |
| `Utf8.ValidMeansEncoding` | agent/history_retrieval.go:390-392 | bytes are valid exactly when they encode some characters after section 3 of RFC 3629 |
| `Utf8.BoundaryBelow` | agent/retrieval.go:151-157 | in valid text a character boundary lies at most three bytes below any cut |
| `Utf8.TruncationLosesAtMostThree` | agent/retrieval.go:151-157 | valid text stays valid and loses at most three bytes below the limit |
| `Retrieval.TermCounts` | agent/retrieval.go:179-188 | the counting loop gives the multiplicities of the tokens of at most 64 bytes |
| `Retrieval.TotalCount` | agent/retrieval.go:87-90 | the sum of the counts is the number of counted tokens |
| `Retrieval.CountDocument` | agent/retrieval.go:98-100 | after the increments the table holds the frequency of every term over one document more |
| `Retrieval.NewLocalRetriever` | agent/retrieval.go:69-105 | takes exactly the corpora that fit and builds the index its definition describes, frequencies and average length included |
| `Retrieval.AverageIsTheMean` | agent/retrieval.go:87-103 | the average length times the number of documents is the number of all counted tokens |
| `Retrieval.IndexedDocumentIsCounted` | agent/retrieval.go:82-96 | the index holds for a document its digest, the count of every token of at most 64 bytes, and as length the number these add up to |
| `Ranking.FewerIsRarer` | agent/retrieval.go:141-142 | a term in fewer documents gets the larger rarity factor |
| `Ranking.MoreOftenWeighsMore` | agent/retrieval.go:143-145 | a further occurrence raises a term's weight, everything else being equal |
| `Ranking.LongerWeighsLess` | agent/retrieval.go:143-145 | the same term weighs less in a longer document |
| `Ranking.RarerWeighsMore` | agent/retrieval.go:141-146 | a term found in fewer documents weighs more |
| `Ranking.QueryCountScales` | agent/retrieval.go:136-146 | a query term asked for twice as often contributes twice as much |
| `Ranking.SumInAnyOrder` | agent/retrieval.go:136-146 | the order in which the query terms are summed does not matter |
| `Ranking.ScoreDocument` | agent/retrieval.go:132-147 | the accumulated score equals the direct sum over frequencies counted from the documents |
| `Ranking.MatchesIffTokenShared` | agent/retrieval.go:136-150 | a document scores above zero exactly when it shares a counted token with the query |
| `Ranking.RetrieveLexical` | agent/retrieval.go:111-171 | the first documents under score descending, index ascending |
| `Ranking.Retrieve` | agent/retrieval.go:107-177 | the ranked matches with their excerpts |
| `Ranking.TopMatchesAreBest` | agent/retrieval.go:163-171 | no match that was left out belongs before one that was returned |
| `Ranking.RetrievedCount` | agent/retrieval.go:111-171 | all matches come back up to the requested number, 5 when none or more are asked for |
| `Ranking.MatchesAreInOrder` | agent/retrieval.go:158-177 | returned matches stand by falling score, equal ones by document order, each with its document's fields and excerpt |
| `VerifiedHistory.ScanTrace` | agent/history_retrieval.go:340-376 | the inner loop takes a trace's eligible proposals newest first up to the limit |
| `VerifiedHistory.ScanRecords` | agent/history_retrieval.go:339-376 | the two loops collect the last eligible proposals, newest first |
| `VerifiedHistory.ReverseDocuments` | agent/history_retrieval.go:379-381 | the two-pointer loop reverses the slice in place |
| `VerifiedHistory.VerifiedHistoryDocuments` | agent/history_retrieval.go:334-383 | scan and reversal give the last limit eligible proposals in chronological order |
| `VerifiedHistory.HistoryHasProvenance` | agent/history_retrieval.go:340-348 | a history document of a runner's snapshot stands for an execution that succeeded and a verification that returned true without error |
| `VerifiedHistory.NewestHistoryIsKept` | agent/history_retrieval.go:334-383 | when the limit bites, what is dropped comes from cycles that started no later than those of what is kept |
| `VerifiedHistory.DocumentExactlyWhen` | agent/history_retrieval.go:340-376 | a proposal becomes a document exactly when its cycle is verified with an id, outcome and flag say verified, and the entry can be encoded |
| `VerifiedHistory.EntryIsThePublicRecord` | agent/history_retrieval.go:349-364 | entries are equal exactly when trigger, target and operation are and observations, arguments and result agree in all that may be shown |
| `VerifiedHistory.VerifiedCycleBecomesHistory` | agent/history_retrieval.go:340-376 | from request to document: a confirmed cycle yields exactly one document under its id, whose text encodes request, operation, and the redacted observations, arguments and result |
| `VerifiedHistory.CombinedHoldsTheNewest` | agent/history_retrieval.go:76-84 | the index gets the whole corpus and the newest history, at most 1000 documents and 10000 in all |
| `VerifiedHistory.HistoryIdIsInjective` | agent/history_retrieval.go:373 | the generated id determines trace id and proposal |
| `VerifiedHistory.GeneratedIdsDistinct` | agent/history_retrieval.go:372-375 | distinct trace ids give distinct document ids |
| `VerifiedHistory.CombinedIsIndexable` | agent/history_retrieval.go:76-89 | the combined list stays within 10000 documents, and the index takes it exactly when no corpus id is a generated one |
| `VerifiedHistory.RecentTracesDiffer` | agent/audit_file.go:225-244 | the bounded reader returns one snapshot for each id |
| `VerifiedHistory.JournalHistoryIsIndexable` | agent/history_retrieval.go:72-89 | the same for the history read back from any journal |
| `VerifiedHistory.ReservedPrefixAvoidsClashes` | agent/history_retrieval.go:372-375 | a corpus that keeps away from "history-" never clashes |
| `VerifiedHistory.ReservedIdIsRefused` | agent/history_retrieval.go:81-89 | the constructor's corpus check does not keep the prefix free: a concrete corpus and history that are refused together |
| `Vectors.NormalizeEmbeddingVector` | agent/history_retrieval.go:312-332 | the two loops give the unit vector, or nothing for empty, oversized and zero vectors |
| `Vectors.CosineSimilarity` | agent/history_retrieval.go:298-310 | the loop computes the dot product, zero for different lengths |
| `Vectors.NormalizedIsUnit` | agent/history_retrieval.go:312-332 | a normalised vector has norm one and its old dimension |
| `Vectors.TwiceDot` | agent/history_retrieval.go:298-310 | Cauchy-Schwarz in the form unit vectors need |
| `Vectors.CosineAtMostOne` | agent/history_retrieval.go:298-332 | the cosine of two normalised vectors is at most one |
| `Vectors.DotMeasuresDistance` | agent/history_retrieval.go:298-310 | twice the dot product is the sum of the norms less the norm of the difference |
| `Vectors.CosineOneMeansEqual` | agent/history_retrieval.go:298-332 | two normalised vectors have cosine one exactly when they are equal |
| `Vectors.NormalizedKeepsDirection` | agent/history_retrieval.go:312-332 | every coordinate times the positive length gives the vector back |
| `Vectors.NormalizesExactlyWhen` | agent/history_retrieval.go:312-332 | a vector normalises exactly with at most 8192 coordinates, one of them not zero |
| `Candidates.SemanticCandidateIndices` | agent/history_retrieval.go:268-289 | the two loops and the sort give the candidate list |
| `Candidates.CandidatesAreAsDescribed` | agent/history_retrieval.go:268-289 | distinct ascending indices: the top lexical half and the newest of the rest, limit or all of them |
| `Candidates.CandidateSetIsUnique` | agent/history_retrieval.go:274-282 | that description fits one set only |
| `SemanticSpec.SelectedAsDescribed` | agent/history_retrieval.go:148-151 | min(512, n) candidates: the top 256 lexical matches and the newest remaining documents |
| `SemanticSpec.BlendInBounds` | agent/history_retrieval.go:226-243 | every blended score lies between zero and one |
| `SemanticSpec.ScoresAreBounded` | agent/history_retrieval.go:226-265 | every semantic match has a score above zero and at most one |
| `SemanticSpec.SemanticAnswersExactlyWhen` | agent/history_retrieval.go:152-221 | there is a semantic answer exactly when query and candidates all have unit vectors of one dimension |
| `SemanticSpec.InputIsTheFront` | agent/history_retrieval.go:157-166 | the embedder reads a text of at most 4096 bytes whole, of a longer one the longest front of whole characters |
| `SemanticSpec.HigherScoreComesFirst` | agent/history_retrieval.go:226-265 | whoever scores higher than a returned document is returned before it |
| `SemanticSpec.SameTextBeatsBestWords` | agent/history_retrieval.go:226-243 | a candidate with the query's own text outscores every document that only shares words with the query |
| `SemanticSpec.BothSharesCount` | agent/history_retrieval.go:226-243 | among equally close candidates the lexical score decides, among lexically equal ones the cosine |
| `SemanticCache.Gather` | agent/history_retrieval.go:157-168 | the loop splits the candidates into known vectors and texts still to embed |
| `SemanticCache.Evict` | agent/history_retrieval.go:169-173 | exactly the entries of documents that are no candidates any more are dropped |
| `SemanticCache.FileVectors` | agent/history_retrieval.go:183-191 | new vectors are filed until one is unusable; the cache stays faithful and of one dimension either way |
| `SemanticCache.PendingDecides` | agent/history_retrieval.go:159-182 | the embedder fails on the uncached texts exactly when it fails on all candidates |
| `HistoryRetriever.LexicalTable` | agent/history_retrieval.go:140-147 | the table and maximum filled over the ranked matches |
| `HistoryRetriever.TableHolds` | agent/history_retrieval.go:140-147 | looked up by id, the table answers every document's lexical score |
| `HistoryRetriever.EmbedQuery` | agent/history_retrieval.go:193-211 | the query vector, its dimension checked against every known one |
| `HistoryRetriever.RankBlended` | agent/history_retrieval.go:222-265 | scoring loop, sort and cut give the top of the blended ranking |
| `HistoryRetriever.VerifiedHistoryRetriever.CandidateVectors` | agent/history_retrieval.go:152-192 | from any valid cache: all candidates' vectors, or the error recomputation gives; the cache is valid again either way |
| `HistoryRetriever.VerifiedHistoryRetriever.SemanticRetrieve` | agent/history_retrieval.go:132-266 | from any valid cache the result, or the failure, is the one computed without a cache; the cache keeps one dimension and at most 512 keys |
| `HistoryRetriever.VerifiedHistoryRetriever.NoteSemanticFailure` | agent/history_retrieval.go:112-123 | failures count up to five and the pause doubles from one up to sixteen minutes |
| `HistoryRetriever.VerifiedHistoryRetriever.RetrieveFrom` | agent/history_retrieval.go:90-103 | a semantic answer clears the pause, a failure prolongs it unless the context has ended, and the lexical ranking answers instead |
| `HistoryRetriever.VerifiedHistoryRetriever.Retrieve` | agent/history_retrieval.go:62-104 | answer and following pause are functions of corpus, journal, query, embedder and the pause before: the vector cache cannot show in them |
| `HistoryRetriever.NewVerifiedHistoryRetriever` | agent/history_retrieval.go:37-60 | built exactly for a fitting corpus, an audit reader and at most one embedder, which it keeps, with an empty cache and no pause |
| `HistoryRetriever.RetrievalSurvivesTheEmbedder` | agent/history_retrieval.go:86-104 | on a readable journal, with a living context and no id clash, retrieval never fails, whatever the embedder does |
| `HistoryRetriever.AnswerFollowsTheEmbedder` | agent/history_retrieval.go:90-103 | semantic answer and no pause when there are vectors for everything, an error and the old pause when the context ended over it, the lexical answer and a longer pause after a failure, the lexical answer and the old pause when the embedder may not be asked |
| `EmbedderPauses.AskedExactlyOutsideThePauses` | agent/history_retrieval.go:89-130 | over any run of retrievals the embedder may be asked exactly when the pause behind every earlier failure is over: one minute, doubled for each failure in a row, at most sixteen |
| `EmbedderPauses.PauseHasACause` | agent/history_retrieval.go:112-130 | every pause was set by a failure and has stood since |
| `EmbedderPauses.PauseStands` | agent/history_retrieval.go:89-130 | no retrieval during a pause changes it |
| `EmbedderPauses.RetrievalPasses` | agent/history_retrieval.go:89-130 | every retrieval is a step of such a run |
| `HistoryRetriever.PauseDoubles` | agent/history_retrieval.go:112-123 | each failure in a row doubles the pause, from one minute up to sixteen |
| `Embeddings.EverySlotIsNamed` | agent/embeddings.go:139-173 | as many distinct in-range indices as slots leave no slot out |
| `Embeddings.PlaceVectors` | agent/embeddings.go:139-174 | a reply is accepted exactly when it fits, every slot gets the vector named for it, and the omission check cannot fire |
| `Embeddings.EmbedTexts` | agent/embeddings.go:68-102 | over batches of 32, at most 1024 texts: all or nothing, and text i has the vector its own batch's reply gives its own place |
| `Embeddings.SentTextIsTheFront` | agent/embeddings.go:81-96 | text k of batch b is sent whole up to 4096 bytes, else as its longest front of whole characters; batches hold 32 |
| `Embeddings.RequestsCoverTexts` | agent/embeddings.go:81-96 | the requests of a completed run are the texts, cut to size, in order and without loss |
| `Triggers.ProjectNoticeTrigger` | agent/nostr_triggers.go:94-139 | a request exactly for accepted events, with the one target all filled-in fields agree on |
| `Triggers.Remember` | agent/nostr_triggers.go:79-84 | the set stays the contents of the duplicate-free queue of at most 4096 ids |
| `Triggers.Forward` | agent/nostr_triggers.go:57-92 | the loop emits what the filter's definition emits |
| `Triggers.EmissionsAreFresh` | agent/nostr_triggers.go:76-84 | no emitted id is among the 4096 emitted before it |
| `Triggers.ReemittedOnlyAfterManyOthers` | agent/nostr_triggers.go:76-84 | an id is emitted again only after at least 4096 other, mutually distinct ids |
| `Triggers.FewIdsOnlyOnce` | agent/nostr_triggers.go:57-92 | with at most 4096 ids every id is emitted at most once |
| `Triggers.EmissionsAreArrivals` | agent/nostr_triggers.go:61-91 | the emissions are accepted notices in the order of their arrival |
| `Triggers.NothingIsLost` | agent/nostr_triggers.go:61-91 | once an accepted notice has been read, its id has been emitted, now or before |
| `ToolCall.Completion` | training/train_vm_lab_lora.py:46-55 | the parts collected by the loop, joined by line breaks, are the printed call |
| `ToolCall.ParseToolCall` | training/evaluate_vm_lab_lora.py:23-41 | the loop with its early returns computes the parse |
| `ToolCall.CollectingStopsAtTheFirstError` | training/evaluate_vm_lab_lora.py:29-38 | collecting stops at the first repeated name or unreadable port and reports it, and keeps the arguments before |
| `ToolCall.NoErrorExactlyWhen` | training/evaluate_vm_lab_lora.py:23-41 | a found call has no error exactly when names differ, ports are numbers and an opened parameter yields an argument |
| `ToolCallRoundTrip.BodyHoldsKept` | training/evaluate_vm_lab_lora.py:24-30 | the body found in a printed call holds exactly the arguments before the first early end |
| `ToolCallRoundTrip.FoundPairsAreProper` | training/evaluate_vm_lab_lora.py:29-30 | every key found is non-empty, free of ">" and white space; every value found is stripped and free of the end marker |
| `ToolCallRoundTrip.RoundTripsExactlyWhenRowFits` | training/evaluate_vm_lab_lora.py:23-41 | for every row: operation and arguments come back without an error exactly when names are proper, every value can be returned under its key ("port" an integer, any other a stripped string without the end marker), and no argument ends the call early |
| `ToolCallRoundTrip.NoCallComesBack` | training/train_vm_lab_lora.py:48-49 | a no-call row parses to no call |
| `ToolCallRoundTrip.MarkersMayMeetAcrossKeyAndValue` | training/train_vm_lab_lora.py:50-54 | stripped values free of both end markers and keys free of ">" and white space are not enough: a concrete row that does not come back |

## Left out

- Relay transport, relay authentication, event signatures and ids: library code and network.
- Planner client, HTTP transport of the embedder, model and archive downloads, contribution redaction and pull requests: I/O and remote state.
- Configuration and corpus loading, generated catalogue, host probing, command lines, deployment scripts: branch checks that would add only easy members.
- Model training, generation and candidate labelling: foreign calls.
- File permissions, symbolic links and files replaced at open: the file handle is taken to be the intended journal.
- Cancellation in the middle of a journal read, of a scoring loop or between embedding batches, and read errors of an open file: a reader runs to its end or fails before it starts.
- Resolution texts, citation scores and error texts: statuses and error kinds stand for them.
- Floating-point rounding, infinities and NaN: scores and vectors are exact reals; the bound on 32-bit magnitudes is kept.
- Rune-wise lower-casing beyond ASCII: only U+0130 and U+212A, the two other letters that become ASCII ones, are mapped.
- Nil and empty maps are one value inside traces and results; maps of other Go types than the decoded JSON ones do not occur.
- Tickers and the wall clock: ticks and times are inputs; the pause after a failed embedding is kept as a number.
- The mutex of the vector cache: a retrieval is one critical section at a time.
- A `Close` called from inside `OnCycle` on the service's own goroutine: such a caller waits for itself, so the schedules of `Runtime` give every caller a thread of its own.
- Gating.NewResidentRuntime: transport, event source, planner and embedder clients, journal, corpus and contribution submitter are inputs that can be set up or not; what they then do to the service is not part of it.
- NostrExecutor.Execute: a request counts as published when it is handed to the transport, also when the transport then reports an error.
- HistoryRetriever.VerifiedHistoryRetriever.SemanticRetrieve: the embedder works text by text, so a dimension check of the embedding client across one batch does not show in it.

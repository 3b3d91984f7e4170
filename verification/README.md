# The audit log, verified

A Dafny model of a tamper-evident audit log service: events are appended to one hash chain, single
payload fields can be redacted afterwards, old events are archived, and `verify_chain` decides
whether the stored log is still what was written. The project proves what that decision is worth,
over every run of the service and every interleaving of its clients.

`dafny verify dfyconfig.toml` checks everything.

## How the model is laid out

| files | what they hold |
|---|---|
| `text`, `wrappers`, `json` | Python strings (code points, lone surrogates included), JSON values whose dicts keep insertion order, equality of values without regard to that order |
| `json_printer`, `json_reader`, `canonical` | `json.dumps` with compact separators and ASCII escapes, a reader for it, and the round trip between the two |
| `hashing`, `audit_log` | the four hash constructions over canonical JSON, the rows of the two tables |
| `chain_verification` | `verify_chain` and the table of commitments it consults, as loops, against a declarative verdict |
| `system`, `invariants` | the service as a state machine over its commits: appends and replays, the two commits of a redaction, archive runs, lost ids, redactions that never finish; what every reachable state satisfies and what `verify_chain` says of it |
| `tampering`, `disclosure`, `redaction` | what edits, deletions and reorderings verification cannot overlook; what the hashes kept for redacted fields prove; what redactions add up to over a run |
| `dependence`, `companions`, `overlap` | which redacted row depends on which companion, and what a use of the service that breaks one of the three rules below does to verification |
| `frames` | what one step does to one record and to what it is committed to |
| `gap`, `unfinished` | states with redactions between their two commits: exactly when verification shows them; which can still be completed, and what becomes of the log when one cannot |
| `witnesses` | short runs that reach the cases in which a documented property fails |
| `concurrency`, `refinement`, `progress`, `exactly_once` | any number of clients, statement by statement, with the advisory lock, committed reads and an id sequence that does not roll back; their equivalence with some sequential order of atomic calls, in both directions; one event per idempotency key, and what a retry is answered |
| `repository`, `audit_service`, `redaction_service`, `retention` | the session, `create_audit_event`, `redact_event_fields` and `apply_retention` as methods that change tables step by step, proved against the steps of `system` |
| `queries`, `export_service` | filtered, paged and archive-inclusive reads, and export bundles |
| `payload_limits`, `rate_limiter`, `limiter_bound` | the three payload measures; the sliding-window limiter as a class, and how many hits it really lets into an interval |
| `service_guarantees` | the main guarantees once more for SHA-256 over canonical JSON, with assumptions on inputs only |

SHA-256 is a function nothing is known about. No theorem assumes that it is injective. Where one
needs different records to have different hashes, it says so for the finite set of inputs that
occur in the logs at hand (`CollisionFree`), and where needed that none of them hashes to the
genesis value (`AvoidsGenesis`). Timestamps are UTC instants with a rendering that tells them apart
(`FaithfulClock`). `Digests` bundles the three hash functions the service uses, so that most of the
development holds for any of them; `ServiceDigests` is the real choice.

A state is *quiescent* when no redaction is between its two commits or was left there by a crash.
`Inv` is what every reachable state satisfies; `RunKeepsInv` shows it.

Runs keep to three rules the code takes for granted: callers of the API do not use the event type
`AUDIT_EVENT_REDACTED`, companion rows are not redacted, and a record has at most one redaction
between its two commits. `companions` gives the verdict after a use that breaks one of the first two,
for any log that verifies, and the verdict on a redaction flag set in storage, which such a use can
make good; `overlap` gives it for any number of redactions at a time that read the same version of a
record, with other clients' steps in between.

## Where code and documentation differ

- docs/redaction-design.md:131 says the chain stays consistent between the two commits of a
  redaction. `OpenRedactionsShow` gives the exact condition, for any number of open redactions and at
  any moment: each of those records had a redaction completed before, and every field redacted since
  already read `[REDACTED]`. `GapShown` is a run that is reported. The document also calls the effect
  of a crash there a small lag. `NeverHealed` shows that a record which crashed with no field left to
  redact stays in the gap for good, and that no continuation verifies if it failed its content check
  then, which `GapRowStands` decides by the same condition. `CrashShown` is a run, for any hash;
  `RedactableAgain` says exactly when such a record can be redacted again.
- docs/redaction-design.md:76 says companion rows are never redacted; the code lets it happen.
  `CompanionRedactionVerdict` is what verification then says, `CompanionLossShown` a run.
- Nothing keeps requests from redacting one record at a time. `OverlapVerdict` gives the exact
  condition under which it still verifies, `EarlierRedactionLost` what is lost either way,
  `OverlapShown` a run that is reported.
- docs/redaction-design.md:119 says a changed companion surfaces as `REDACTION_COMMITMENT_MISSING`
  at its target. `EditAttribution` is what is reported for a change of any row, and
  `CompanionEditAsDocumented` says when the document is right: exactly when no other companion names
  that target. `EarlierCompanionShown` is a run in which it is a mismatch instead.
- docs/redaction-design.md:120 says a redaction flag set in storage is always caught.
  `ForgedFlagCaught` proves it for the runs of the three rules. `ForgedFlagVerdict` gives the exact
  condition for any log that verifies: unless the newest trusted companion naming the row commits to
  its new content. `AppendAuthorisesFlag` shows that an ordinary append with the companions' event
  type can do that; `FlagShown` is a run.
- docs/export-design.md section 4 asks a recipient to check every record's own hash.
  `RedactedRecordPasses` says exactly which redacted records fail that check, `ExportShown` is one.
  The section also leaves the tenant out of the hashed fields; the code hashes it.
- The comment at app/core/rate_limit.py:45-48 says every call counts against the limit; refused
  calls leave no trace in any deque (`RefusedCallsDoNotCount`). `RefusedCallShown` is a call that is
  allowed although a refused one fills its window.
- The class comment at app/core/rate_limit.py:27-30 promises the bound for any trailing window. The
  clock is read outside the lock, so readings can come late. `BoundExactly` says, for operations in
  any order, that the promise is kept if and only if every hit let through had room in all windows
  around it, `RoomIsCheckable` that those are finitely many to look at, and `LateBound` when one late
  call keeps it. `FullWindowOverfilled` and `LaterWindowOverfilled` are two inputs that break it, the
  second although the call's own window has room. `LagBound` is what holds all the same if readings
  lag by a known time: the bound for windows shorter by that time.
- Values that Python calls equal need not have the same bytes, hash or size: `True == 1`.
  `CanonicalizeIffEqual` gives the exact condition, `EqualButDifferentBytes` and `LimitsSeeKinds` are
  examples.

## Model

Functions that only compute, such as `System.Submit`, `System.FirstCommit` or `Concurrency.Do`, carry
no contract of their own; the rows below are the lemmas and methods that say what they amount to.

| member | source | states |
|---|---|---|
| `JsonPrinter.DumpsAscii` | app/services/hashing.py:20 | the rendering holds nothing but printable ASCII whatever the strings hold, so encoding it as UTF-8 maps it character by character |
| `JsonPrinter.EscapeForm` | app/services/hashing.py:20 | a character is printed as itself exactly from space to tilde, quote and backslash excepted; as the two-character escape where JSON has one; any other as one `\u` unit, or two beyond the 16-bit range |
| `JsonPrinter.DecimalForm` | app/services/hashing.py:20 | numbers have no leading zero, a sign exactly when negative |
| `JsonReader.ReadDumps` | app/services/hashing.py:12-20 | a reader recovers every value from its rendering, split surrogate pairs joined |
| `JsonReader.JoinAllIsIdentity` | app/services/hashing.py:12-20 | joining changes nothing exactly when no string or key holds a split pair |
| `Jsons.SortMembersStrict` | app/services/hashing.py:20 | every key comes before the next, as a proper beginning of it or by the smaller code point where the two first differ, and is mapped to what it was mapped to |
| `Texts.AtMostIsLexicographic` | app/services/hashing.py:20 | the order the keys and the redacted fields are sorted by is that one |
| `Jsons.NormalizeForgetsOnlyOrder` | app/services/hashing.py:20 | sorting keys identifies two values exactly when they are the same JSON value but for dict order |
| `Jsons.NormalizeForgetsOrderAlone` | app/services/hashing.py:20 | the same against Python's `==`: exactly when it holds and no `bool` stands against an `int` |
| `Canonical.CanonicalRoundTrip` | app/services/hashing.py:12-20 | the canonical bytes read back as the value in key order if and only if it holds no split surrogate pair |
| `Canonical.CanonicalizeInjective` | app/services/hashing.py:12-20 | canonical bytes agree exactly when the values do, dict order aside |
| `Canonical.CanonicalizeIffEqual` | app/services/hashing.py:13-19 | the bytes agree exactly when Python calls the values equal and no `bool` stands against an `int` in them |
| `Canonical.EqualButDifferentBytes` | app/services/hashing.py:13-19 | `{"a": True}` and `{"a": 1}`, equal in Python, have bytes of different lengths |
| `Canonical.SplitPairCollides` | app/services/hashing.py:20 | a split pair and the character it encodes have the same bytes, so the condition above is needed |
| `Canonical.ReadValueClean` | app/services/hashing.py:12-20 | what is read from JSON text holds no split pair |
| `Hashing.EventPreimageInjective` | app/services/hashing.py:23-44 | the bytes under `event_hash` determine all eight hashed fields, payload order aside, and conversely |
| `Hashing.EventHashRespectsOrder` | app/services/hashing.py:13-19 | the same logical event has the same hash whatever order its dicts were built in |
| `Hashing.FieldPreimageInjective` | app/services/hashing.py:47-56 | the bytes under a field hash determine the field's value |
| `Hashing.RequestPreimageInjective` | app/services/hashing.py:59-84 | the bytes under a fingerprint determine the caller-controlled content |
| `Hashing.ManifestPreimageInjective` | app/services/hashing.py:87-96 | the bytes under a manifest hash determine which records are listed and in what order |
| `Hashing.FamiliesDisjoint` | app/services/hashing.py:34-96 | no input of one of the four hashes is an input of another |
| `Hashing.EventDocument` | app/services/hashing.py:34-44 | the event hash is the hash of a compact document that reads back with exactly eight entries in key order, each of the documented names holding its own field |
| `Hashing.RequestDocument` | app/services/hashing.py:76-84 | a fingerprint is the hash of the document with exactly the six caller-controlled entries |
| `Hashing.FieldDocument` | app/services/hashing.py:47-56 | a field hash is the hash of a document whose one entry `value` is the field's value |
| `Hashing.ManifestDocument` | app/services/hashing.py:87-96 | a manifest hash is the hash of a document whose one entry `entries` lists `id` and `eventHash` of each record, and nothing else, in order |
| `ChainVerification.DeclaredAsPython` | app/services/chain_verification_service.py:82-86 | a companion counts for an id exactly when its target equals the id in Python, commits to a hash exactly when its commitment equals it there, and raises exactly when its target is a list or dict |
| `ChainVerification.LatestRedactionCommitments` | app/services/chain_verification_service.py:60-87 | the loop's table holds, for every id, the declaration of the newest trusted companion, or the loop ends in the `TypeError` of an unhashable target |
| `ChainVerification.CommitmentIsNewest` | app/services/chain_verification_service.py:76-86 | a table entry is what the newest trusted companion naming that target declares, and exists exactly when there is one |
| `ChainVerification.VerifyChain` | app/services/chain_verification_service.py:90-193 | the walk answers the one verdict: intact when every row is authentic and linked, else the least failing row with the type the order of the checks selects |
| `ChainVerification.VerdictUnique` | app/services/chain_verification_service.py:126-193 | the declarative verdict leaves no choice |
| `ChainVerification.AuthenticMeansCommitted` | app/services/chain_verification_service.py:143-174 | a redacted row passes its content check exactly when the table holds the hash of its present content |
| `Repository.Session.constructor` | app/db/models.py:6-69 | a fresh database holds the empty log |
| `Repository.Session.LockForAppend` | app/repositories/audit_event_repository.py:13-23 | marks the lock as held, which `InsertEvent` demands, and touches nothing else |
| `Repository.Session.GetLastEvent` | app/repositories/audit_event_repository.py:26-34 | the row with the greatest id, archived or not, whose hash the next append links to; nothing exactly for an empty table |
| `Repository.Session.GetEvent` | app/repositories/audit_event_repository.py:51-52 | the row with that id, or nothing exactly when there is none |
| `Repository.Session.InsertEvent` | app/repositories/audit_event_repository.py:37-48 | an id is taken in any case; a duplicate hash rolls back, else the row is flushed and not yet visible |
| `Repository.Session.RecordIdempotencyKey` | app/repositories/audit_event_repository.py:63-84 | a claimed key rolls back, else the claim is flushed and not yet visible |
| `Repository.Session.Commit` | app/services/audit_event_service.py:135 | event and claim become visible together and the lock is released |
| `Repository.Session.Rollback` | app/repositories/audit_event_repository.py:20-22 | nothing flushed survives and the sequence does not go back |
| `Repository.Session.ArchiveEventsOlderThan` | app/repositories/audit_event_repository.py:177-192 | stamps the due rows and only them, touches no other column, and answers how many positions changed |
| `Repository.Session.RedactEventFields` | app/repositories/audit_event_repository.py:195-220 | writes the four redaction columns of one row; its hash, link, timestamp and every other row stay |
| `AuditService.ReplayOrConflict` | app/services/audit_event_service.py:23-40 | new key, conflict or the original event, by the stored fingerprint |
| `AuditService.CreateAuditEvent` | app/services/audit_event_service.py:43-137 | the statements from lock to commit do and answer what the atomic append-or-replay does, on every path; in terms of the tables: the stored event for a retry, a conflict for other content, else a new event with the request, linked to the last one, which together with its claim is all that is written |
| `Invariants.AppendKeepsChain` | app/services/audit_event_service.py:96-123 | an append links to the last row, hashes what it stores and takes a greater id |
| `Invariants.RunKeepsInv` | app/services/redaction_service.py:105-136 | in every reachable state rows are chained, companions are untouched and name redacted rows, and every redacted row outside the gap is committed to as it is now |
| `Invariants.OnlyGapRowsFail` | app/services/chain_verification_service.py:123-191 | only a row between the two commits of its redaction can fail, and then only its content check |
| `Invariants.QuiescentIsIntact` | app/services/chain_verification_service.py:193 | a quiescent log is intact with every row counted |
| `Invariants.ReachableVerdict` | app/services/chain_verification_service.py:90-193 | over all runs: intact with every row counted, or a fault named at a row of the gap with one of the two redaction types |
| `Invariants.CompletionHeals` | app/services/redaction_service.py:123-136 | a row left half-redacted passes again once a later redaction of it completes |
| `Unfinished.RedactableAgain` | app/services/redaction_service.py:78-81 | a record left half-redacted can be redacted again exactly when it has a field left to redact |
| `Unfinished.NeverHealed` | app/services/redaction_service.py:105-136 | one with no field left stays in the gap in every continuation, and if it failed its content check the log never verifies again |
| `RedactionService.RedactEventFields` | app/services/redaction_service.py:40-143 | both transactions, the field loop and all four ways to fail give the stated state and answer |
| `RedactionService.NotFoundExactly` | app/services/redaction_service.py:74-76 | a call fails for want of a record exactly when there is none with its id |
| `RedactionService.RedactionDecided` | app/services/redaction_service.py:78-136 | it ends with no redactable field exactly when none of the named ones is in the payload and unredacted, then exactly by the limits of the companion, then by its hash, and otherwise succeeds |
| `RedactionService.SuccessAnswers` | app/services/redaction_service.py:78-143 | a success answers the fields newly redacted in the order named, the record with those marked, listed, hashed and all else kept, the hash of what it holds now, and the companion linked to the end of the log |
| `RedactionService.CompanionSays` | app/services/redaction_service.py:114-136 | the companion is an `AUDIT_EVENT_REDACTED` for the resource `AUDIT_EVENT` with the record's id, of the record's tenant, with the caller as actor; it carries target, fields, content hash and the reason if there is one, and no more |
| `RedactionService.RedactionIsARun` | app/services/redaction_service.py:74-136 | a call for a record that is no companion and has no open redaction is a run of the service, however it ends: both commits, the first one only, or nothing |
| `RedactionService.SuccessfulRedactionKeepsIntact` | app/services/redaction_service.py:49-71 | a successful redaction leaves the log as it was but for the record and the companion it answered, quiescent and intact, with the answered content hash committed to |
| `RedactionService.HalfwayRedactionVerdict` | app/services/redaction_service.py:105-136 | what verification says after a call that failed between its two commits |
| `Redaction.FieldsToRedactInOrder` | app/services/redaction_service.py:79 | the comprehension keeps every requested field that is in the payload and not redacted yet, where it stood and as often as requested, and no other |
| `Texts.SortUniqueSorted` | app/services/redaction_service.py:109 | the stored list holds the redacted fields and no other, each before the next by code point |
| `Redaction.RunBooks` | app/services/redaction_service.py:78-112 | over all runs: payload keys stay, redacted fields are sorted, distinct and those with a stored hash, each hash is of the creation-time value, redacted fields hold the marker, all others their original value |
| `Redaction.RedactedFieldsGrow` | app/services/redaction_service.py:78-81 | each successful redaction lists strictly more fields |
| `Redaction.RedactionsBounded` | app/services/redaction_service.py:79-81 | the redactions of a record in a run are at most as many as its payload has keys |
| `Disclosure.DisclosureSound` | app/services/redaction_service.py:83-85 | values offered for the redacted fields match the stored hashes if and only if putting them back gives the frozen `event_hash` |
| `Disclosure.DisclosureOverRuns` | app/services/redaction_service.py:78-112 | the same for every row of every run, however often it was redacted |
| `Disclosure.GapIsVisible` | app/services/redaction_service.py:105-136 | exactly what `verify_chain` reports right after the first commit of a redaction of a quiescent log |
| `Gaps.GapVerdict` | app/services/chain_verification_service.py:143-174 | in every reachable state: intact if and only if each row of the gap is committed to as it is now, and else what is reported at the first that is not |
| `Gaps.RunTracks` | app/services/redaction_service.py:105-136 | over all runs a record is committed to as it was when a redaction of it last completed, and differs from that by the fields redacted since |
| `Gaps.GapRowStands` | app/services/redaction_service.py:105-136 | a row of the gap is committed to as it is now exactly when a redaction of it completed before and every field redacted since already read like the marker |
| `Gaps.OpenRedactionsShow` | docs/redaction-design.md:131 | at every moment of every run the log verifies if and only if that holds of each record whose redaction is open |
| `Companions.CompanionRedactionVerdict` | app/services/redaction_service.py:74-81 | what verification says after a trusted companion of any log that verifies was redacted: intact, or its target reported as missing or mismatched by what the other companions commit to |
| `Dependence.OnlyCompanionMatters` | app/services/chain_verification_service.py:76-86 | a row depends on its only companion, and without it is reported as missing a commitment |
| `Dependence.OnlyTargetDepends` | app/services/chain_verification_service.py:80-87 | no row but the one it names can depend on a companion |
| `Companions.AppendedCompanionVerdict` | app/services/chain_verification_service.py:80-87 | what verification says after an append with the companions' event type to any log that verifies: an error, a mismatch at the redacted row it names, or intact |
| `Companions.ForgedFlagVerdict` | app/services/chain_verification_service.py:143-174 | give a row that is no companion another payload and a flag, in any log that verifies: it passes if and only if the newest trusted companion naming it commits to the new content |
| `Companions.ForgedFlagCaught` | docs/redaction-design.md:120 | on a reachable quiescent log an unredacted row so flagged is always reported as missing a commitment |
| `Companions.AppendAuthorisesFlag` | app/services/chain_verification_service.py:76-86 | after an append with the companions' event type naming that row the flag passes exactly when the append committed to that payload |
| `Overlap.OverlapVerdict` | app/services/redaction_service.py:74-136 | however the writes and companions of any number of requests that read one version of a record interleave with each other and with other clients' steps: the record passes if and only if what was last announced has the hash of what was last written; if no other redaction is open, that is the verdict |
| `Overlap.EarlierRedactionLost` | app/services/redaction_service.py:87-112 | a field the last writer did not redact then holds its original value and is not listed, although another request's companion names it |
| `Witnesses.GapShown` | docs/redaction-design.md:131 | a run, for any hash, that is reported between the two commits of a redaction |
| `Witnesses.ExportShown` | docs/export-design.md:41 | a run whose redacted record fails the per-record check |
| `Witnesses.CompanionLossShown` | docs/redaction-design.md:76 | a run after which redacting a companion takes its record's commitment away |
| `Witnesses.EarlierCompanionShown` | docs/redaction-design.md:119 | a run in which a changed companion surfaces as a mismatch at its target |
| `Witnesses.OverlapShown` | app/services/redaction_service.py:74-136 | a run on which two redactions of one record leave it reported |
| `Witnesses.CrashShown` | docs/redaction-design.md:131 | a run, for any hash, whose crash between the commits no continuation recovers from |
| `Witnesses.ErrorShown` | app/services/chain_verification_service.py:80-87 | an append to the empty log, for any hash, that makes verification raise |
| `Witnesses.FlagShown` | docs/redaction-design.md:120 | a run, for any hash, in which a forged flag is not caught |
| `Tampering.Binding` | app/services/chain_verification_service.py:126-193 | backward induction: two intact logs with the same outline agree in every hash and hashed field |
| `Tampering.BindingOfReachableLogs` | app/services/chain_verification_service.py:60-193 | any intact log with the outline of a reachable quiescent one is that log |
| `Tampering.EditAttribution` | app/services/chain_verification_service.py:127-174 | the one report for a change of any row: at the redacted row that depended on it, with the type the other companions decide, or else at its place with the type its redaction flag selects |
| `Tampering.CompanionEditAsDocumented` | docs/redaction-design.md:119 | a changed companion surfaces as a missing commitment at its target exactly when no other companion names that target |
| `Tampering.OnlyPrefixesVerify` | app/services/chain_verification_service.py:126-191 | rows drawn from a reachable log with any deletion, reordering or duplication verify only as a prefix of it |
| `Tampering.FrozenHashProtected` | app/services/chain_verification_service.py:176-191 | changing a redacted row's stored hash is reported at its successor, which it always has |
| `Tampering.LastRowNotRedacted` | app/services/redaction_service.py:105-136 | the last row of a quiescent log is not redacted |
| `Tampering.NoFork` | app/db/models.py:31-39 | hashes and links are distinct, none is the genesis value, and the next append's hash is new |
| `Refinement.MoveRefines` | app/services/audit_event_service.py:78-137 | each statement of each client is none, one or two steps of the sequential service |
| `Refinement.ConcurrentRefinesSequential` | app/repositories/audit_event_repository.py:13-48 | for any clients and any interleaving the committed tables are those of a sequential run of atomic calls |
| `Refinement.ConcurrentVerdict` | app/services/chain_verification_service.py:90-193 | at every moment of every interleaving rows are linked, ids ascend, and verification faults only the gap |
| `Progress.SoloIsAtomic` | app/services/audit_event_service.py:78-137 | whenever the lock is free, a waiting client that is left alone gets through and is answered what the atomic call answers, on the tables it leaves |
| `Progress.SequentialIsConcurrent` | app/repositories/audit_event_repository.py:13-48 | every sequential run that loses no id on its own is what some history of clients commits |
| `Progress.AbortLeavesNothing` | app/repositories/audit_event_repository.py:20-22 | a client can give up at any moment before its end; no row and no key remains, the lock is free, an id it took is lost |
| `Progress.HashConstraintSilent` | app/db/models.py:39 | the unique constraint on `event_hash` never fires, for any client of any history |
| `ExactlyOnce.RunKeepsOnce` | app/services/audit_event_service.py:80-135 | over all runs claimed keys lead to events, every successful answer agrees with log and key table, and nothing is created for a key once something succeeded for it |
| `ExactlyOnce.OnlyCreationWrites` | app/services/audit_event_service.py:80-135 | a call adds one row with its request and instant, and a claim of its key for that row, if it created an event, and changes neither table otherwise |
| `ExactlyOnce.AnswerExact` | app/services/audit_event_service.py:35-40 | on every reachable log: the claimed event for a claimed key and the same content, a conflict for other content, and for anything else a new event with the next id and the hash of the request, the instant and the last hash or 64 zeros, unless the database has that hash |
| `ExactlyOnce.RetryIsReplayed` | app/services/audit_event_service.py:80-94 | once a call for a key got an event, every later one with the same content gets that event, and any other is refused |
| `ExactlyOnce.LookUpExact` | app/services/audit_event_service.py:23-40 | at any moment of any history a client's lookup leads to the claimed event, a conflict or the append by the committed claim alone, and changes no table |
| `ExactlyOnce.ServedAlike` | app/services/audit_event_service.py:43-77 | over every interleaving, beside a client served for a key every other one the database did not refuse got the same event for the same content and a conflict for other content |
| `ExactlyOnce.KeyConstraintSilent` | app/db/models.py:82-93 | the unique constraint on keys never fires |
| `ExactlyOnce.ReplayFindsItsEvent` | app/services/audit_event_service.py:35-40 | a claimed key's event is always found |
| `ExactlyOnce.ExactlyOnceKeys` | app/services/audit_event_service.py:80-135 | clients answered with an event for one key were answered with the same event, for the same fingerprint, and at most one of them created it |
| `ExactlyOnce.HistoryKeepsApart` | app/repositories/audit_event_repository.py:13-48 | over every interleaving clients whose calls created an event got different ids, all below the next one |
| `ExactlyOnce.SameFingerprintSameRequest` | app/services/hashing.py:59-84 | equal fingerprints mean equal caller-controlled content |
| `Queries.FilteredListExact` | app/repositories/audit_event_repository.py:113-128 | a filtered list is the one list in id order that holds the rows with each value asked for and no others |
| `Queries.ListedRows` | app/repositories/audit_event_repository.py:87-128 | a page is the stretch from the offset, as long as the limit or the list allows, of the list in id order of exactly the active rows with each value asked for, the tenant among them, and a timestamp in the closed range |
| `Queries.ListedWithArchived` | app/repositories/audit_event_repository.py:147-175 | the same for actor, resource and range over all rows, archived ones included, unpaged |
| `Queries.SelectExtends` | app/repositories/audit_event_repository.py:99-103 | while nothing is archived, what a filter finds keeps its place in the filtered list |
| `Queries.PagesMakeTheList` | app/repositories/audit_event_repository.py:128 | pages fetched from a growing log until one is short are together the filtered list at the last fetch |
| `Queries.StablePaging` | app/repositories/audit_event_repository.py:87-128 | the same for every concurrent history of appends and redactions between the fetches |
| `ExportService.BundleIsComplete` | app/services/export_service.py:51-62 | a bundle names the actor, resource and instant it was made for, and holds, in id order, every record of the actor and resource and no other, archived ones included, under a manifest hash that passes |
| `ExportService.UnredactedRecordsPass` | docs/export-design.md:41 | every record never redacted passes the per-record check |
| `ExportService.RedactedRecordPasses` | docs/export-design.md:41 | a redacted record passes it exactly when its redacted fields always read like the marker |
| `ExportService.ManifestPinsRecords` | app/services/hashing.py:87-96 | equal manifest hashes mean the same records by id and hash, in the same order, and conversely |
| `ExportService.BundleBinding` | docs/export-design.md:41-42 | a bundle that passes both checks under an exported manifest hash has its records, and the same content where neither shows a redaction |
| `Retention.ApplyRetention` | app/services/retention_service.py:15-30 | archives exactly the active records older than the window and answers how many |
| `Retention.ReportedIsArchived` | app/repositories/audit_event_repository.py:185-192 | over all runs the reported counts sum up to the number of archived rows |
| `Retention.RunKeepsArchived` | app/repositories/audit_event_repository.py:180-183 | an archive stamp is never removed or replaced |
| `Retention.EarlierCutoffFindsOnlyNewRows` | app/repositories/audit_event_repository.py:185-190 | after a run, one with a cutoff no later archives only rows appended since |
| `Retention.ArchivingIsInvisible` | app/repositories/audit_event_repository.py:26-34 | an archive run changes neither the verdict on any log nor what the next append links to |
| `PayloadLimits.DepthIsLongestPath` | app/core/payload_limits.py:31-43 | the depth is the length of the longest chain of subscripts into the value |
| `PayloadLimits.OverlongIsMentioned` | app/core/payload_limits.py:46-61 | the check is true exactly when some string, key or value, at some depth is too long |
| `PayloadLimits.LimitsExact` | app/schemas/audit_event.py:27-57 | refused for the size of its rendering, else for the longest path into it, else for some string in it, each with the measure found, and otherwise accepted unchanged |
| `PayloadLimits.AcceptedExactly` | app/schemas/audit_event.py:20-25 | a request is accepted exactly when its names are not empty and fit their columns and its payload is within the three limits |
| `PayloadLimits.NormalizeMeasures` | app/core/payload_limits.py:20-28 | none of the measures sees dict order, so the size is that of the bytes that get hashed |
| `PayloadLimits.LimitsIgnoreOrder` | app/schemas/audit_event.py:27-57 | payloads that differ in dict order alone are accepted alike and refused for the same reason |
| `PayloadLimits.LimitsSeeKinds` | app/schemas/audit_event.py:37-42 | payloads equal in Python need not be: `True` takes four characters and `1` takes one |
| `PayloadLimits.SizeBoundsTheRest` | app/schemas/audit_event.py:37-57 | a byte limit of at most 2 · depth limit + 1 and at most string limit + 2 makes the other two checks redundant |
| `RateLimiter.InMemoryRateLimiter.constructor` | app/core/rate_limit.py:38-42 | a new limiter has no hits |
| `RateLimiter.DropOld` | app/core/rate_limit.py:54-55 | what is dropped is a front part, all of it before the cutoff, and the first entry kept is not |
| `RateLimiter.InMemoryRateLimiter.Check` | app/core/rate_limit.py:44-59 | allows exactly when fewer than the maximum of all hits ever allowed for the key lie in the closed window, counting readings as caught up with the latest, and as they are when they come in order; records exactly the allowed ones |
| `RateLimiter.InMemoryRateLimiter.Reset` | app/core/rate_limit.py:61-67 | no hit of any key remains |
| `RateLimiter.RefinesFullHistory` | app/core/rate_limit.py:51-59 | deciding by the pruned deque is deciding by the full history |
| `RateLimiter.WindowBound` | app/core/rate_limit.py:27-30 | for calls in order, no closed interval as long as the window holds more allowed hits of a key than the maximum |
| `LimiterBound.BoundExactly` | app/core/rate_limit.py:27-30 | for operations in any order, that bound holds of the hits let through if and only if there was room for each in every window around its reading |
| `LimiterBound.BoundAfterTry` | app/core/rate_limit.py:53-59 | one call keeps the bound if and only if it is refused or has such room |
| `LimiterBound.RoomIsCheckable` | app/core/rate_limit.py:53-59 | there is room if and only if the windows starting at the reading and at each hit up to a window before it have some |
| `LimiterBound.LateBound` | app/core/rate_limit.py:50-59 | a late call after calls in order keeps the bound if and only if the latest window is full or every window around its reading has room |
| `LimiterBound.LagBound` | app/core/rate_limit.py:27-30 | if no reading lags by more than a given time, intervals shorter than the window by that time hold no more hits than the maximum |
| `LimiterBound.FullWindowOverfilled` | app/core/rate_limit.py:27-30 | a late call whose own window is full breaks the bound |
| `LimiterBound.LaterWindowOverfilled` | app/core/rate_limit.py:27-30 | a late call whose own window and the latest both have room breaks it too |
| `RateLimiter.KeysIndependent` | app/core/rate_limit.py:28-30 | calls for other keys make no difference to a key |
| `RateLimiter.RefusedCallsDoNotCount` | app/core/rate_limit.py:56-58 | after a refused call every deque is, through any later operations, what it would be without it, in whatever order readings come |
| `RateLimiter.RefusedCallShown` | app/core/rate_limit.py:45-48 | a call that is allowed although its window is full if refused calls count |
| `RateLimiter.DecidesCaughtUp` | app/core/rate_limit.py:50-59 | for readings in any order, every call is decided as if each reading had been the latest so far |
| `RateLimiter.LateReading` | app/core/rate_limit.py:50-59 | a late reading after readings in order is judged by the latest window |
| `RateLimiter.LateReadingOverfills` | app/core/rate_limit.py:50-52 | an input for which that answer differs from the one for its own window |
| `ServiceGuarantees.RunStaysClean` | app/services/hashing.py:34-43 | clean requests, actors and reasons keep every text of the log free of split pairs |
| `ServiceGuarantees.LogBinding` | app/services/chain_verification_service.py:60-193 | the binding theorem for SHA-256, collision-free on the records of the two logs |
| `ServiceGuarantees.EditIsReported` | app/services/chain_verification_service.py:80-174 | the attribution theorem for SHA-256, with the same one report |
| `ServiceGuarantees.PrefixesOnly` | app/services/chain_verification_service.py:126-191 | the prefix theorem for SHA-256 |
| `ServiceGuarantees.ChainNeverForks` | app/db/models.py:31-39 | the no-fork theorem for SHA-256: the unique constraint stays silent |
| `ServiceGuarantees.AppendsNeverFail` | app/services/audit_event_service.py:78-137 | no append of a reachable log ends in an integrity error |
| `ServiceGuarantees.RetryByContent` | app/services/audit_event_service.py:80-94 | once a call for a key got an event, a call with that key and the same content, dict order aside, gets it again, and one with other content is refused |
| `ServiceGuarantees.OneEventPerKey` | app/services/audit_event_service.py:80-135 | clients answered for one key got one event and had sent the same content |

## Left out

- HTTP routing, request models other than the limits above, authentication, roles and tenants' read scopes, CORS, body-size and correlation middleware, error pages, health checks, log sanitizing, the compliance report: no property beyond a branch or a filter.
- SHA-256, `isoformat` and the clock: parameters; hex digests are only assumed free of surrogates.
- JSON floats and NaN: numbers in payloads are integers.
- Integer widths and column lengths in the database: ids are unbounded, and lengths are checked only where `AuditEventCreate` checks them.
- The `detail` text of a violation, and the exact text of errors.
- Truncating the end of a log, and recomputing a whole forged segment: outside what the service claims to detect (docs/redaction-design.md:121).
- Locks, sessions and PostgreSQL: kept are the advisory lock, committed reads, commit and rollback, and the sequence. The lock of the rate limiter is kept as the order of its operations.
- Runs with two redactions of one record at a time: in `system` the read and the write of `redact_event_fields` (app/services/redaction_service.py:74-112) are one step, and a record has one redaction in the gap at most. The service has no lock that makes it so; `overlap` covers requests that read the same version of the record, not those that read what one of the others wrote.
- `Progress.SequentialIsConcurrent`: runs in which an id is lost without an append are left aside; a client loses one by aborting after its insert, which a hash the database already has would refuse.
- `Queries.StablePaging`: no archive run may fall between the fetches, since it removes rows from the list being paged.
- `RateLimiter.WindowBound`: is about readings in order; the bound for any order is the subject of `LimiterBound`.
- `LimiterBound.LagBound`: takes the lag as given; nothing in the code bounds the time between reading the clock and taking the lock.
- `RateLimiter.DecidesCaughtUp`: takes the window not to be negative; the settings require it to be positive (app/core/config.py:113-124).
- `Repository.Session.LockForAppend`: only marks the lock as held. That a second client waits, and that one holds it at most, is in `Concurrency.CanDo` and `Concurrency.LockOk`.
- `ExportService.BundleBinding`: does not say that a bundle is complete, which docs/export-design.md section 2 rules out, nor anything about content where one side shows a redaction.
- `Repository.Session`: one session at a time; interleavings are the subject of `concurrency`, on values.
- `Companions.CompanionRedactionVerdict`: is about a companion that is still trusted; one whose content a redaction changed is no longer consulted for any row.
- `Companions.ForgedFlagVerdict`: is about rows that are no companions; for a changed companion see `Tampering.EditAttribution`.
- Runs that break one of the three rules: each such use has its verdict, on any log that verifies, but the theorems over whole runs keep to the rules.

# Verified model of the fat-mode SDK

A Dafny model of the hard core of the Go package `sdk`: the terminal append of fat-mode workers
(`sdk/fat.go`), the journal envelope it writes, the error classifier that steers its retries, the handler
registries (`sdk/register.go`, `sdk/service.go`, `sdk/object.go`, `sdk/workflow.go`) and the saga builder
(`sdk/saga.go`). `dafny verify dfyconfig.toml` checks all of it.

## What is modelled

**The terminal append.** A worker hydrates a snapshot of the journal, checks `HasTerminal`, reads a fence with
`LastJournalSeq` and calls `SubmitResult`, which publishes the same bytes with the same fence up to three times.
`Protocol` is a labelled transition system of any number of such workers on one stream: they crash and start
again at any point, publishes are delivered late (during a later attempt, after the call returned, after the
worker crashed), any number of times or never, acknowledgements are lost, the engine appends non-terminal
records, and other terminal writers append with a fence. `Guarantees`, `Recovery` and `Refinement` prove what every run keeps; `Witnesses`
holds concrete runs showing that the hypotheses are needed. `FatWorker` is the Go code's own form, a loop
over a mutable server shared with everybody else, proved to be a run of that system.

**The envelope.** `Crc32c`, `Base64`, `Jcs` and `Envelope` build the two nested records byte by byte: CRC-32C
(section 12.1 of RFC 3720) both as a shift register and in the table-driven form, base64 (section 4 of
RFC 4648, whose wording `Base64Standard` connects), and sorted-key JSON (sections 3.2.2.3 and 3.2.3 of RFC 8785).
`HexCrc` and `Example` work out the published bytes for a nil payload in full. The repository holds no decoder; the
decoder here accepts exactly these two shapes and is the partner of the encoder.

**The registries.** `Registry` and `Sdk` are classes whose maps refer to other heap objects, as in the source.
`Resolution` holds the sequential meaning of the lookups and how long an answer lasts. `RegistryRace` is a
small-step system of goroutines around the reader/writer lock, in which `LookupKeyedHandler` takes the read lock
twice.

**Sagas.** `Saga` is the growing slice with its copies, the early-exit registration loop against the documented
`RegisterCompensation` interface, and the rollback that it is for.

## Hypotheses

- The server checks and appends a publish atomically, each time it is delivered.
- An acknowledgement or an error with a conflict text reaches the loop only as the server's answer to a delivery
  of the attempt it is waiting for; every other error text can arise at any time.
- `LastJournalSeq` is a current read; a hydrated snapshot is any prefix of the stream.
- Nothing is deleted from the stream, so the record at position i has sequence i + 1. Sequences are unbounded.
- The engine appends no terminal record. Other terminal writers use a fence.
- The single-terminal results for an invocation assume that every terminal writer of that invocation follows the
  guard; bounded recovery assumes it of the recovering worker alone, on the invocation it recovers. The other
  results assume it of nobody.
- The guard is: `HasTerminal` was false on a snapshot **no older than the fence**. The
  documentation (sdk/fat.go:117-119, sdk/fat.go:254-255) asks for the check and for re-reading the fence, but
  not for this order; `Witnesses.FenceNewerThanSnapshotFails` is a run in which both are done in the wrong order
  and two results are journalled, and `Guarantees.GuardExact` shows that the condition is exact.
- In `RegistryRace`, handler tables are fixed before registration.
- Errors are their text plus what `errors.Is(err, context.DeadlineExceeded)` answers. Error values returned to
  callers are the sentinel they wrap.
- A handler function is nil or an opaque identity.

## Where the code and its documentation differ

- sdk/register.go:258-259 and sdk/register.go:282 promise a read-only registry once `Build` returned nil. Three
  routes lead into it afterwards, each with a client and with the exact condition under which a lookup changes:
  - a `Handle` call on a builder, whose handler map the built description shares: `Sdk.HandleAfterBuild`,
    `Sdk.SDK.LateHandleExact`;
  - a write to or deletion from the exported `Handlers` map of a description: `Sdk.DeleteAfterBuild`,
    `Sdk.SDK.LateWriteExact`;
  - applying an `Option`, which is an exported function type, to the finished SDK: `Sdk.OptionAfterBuild`,
    `Sdk.LateOptionExact`.

## What the documentation leaves open

These contradict no documented promise; a caller may still not expect them.

- `LookupKeyedHandler` is not linearizable if one name becomes both a virtual object and a workflow during the
  call, so while registration is still going on: `RegistryRace.TornLookupHappens` is such an interleaving,
  `RegistryRace.KeyedLookupExact` says exactly when it happens.
- `SubmitResult` can return `ErrFatConflict` although its own record is journalled, and its record can appear
  after `ErrFatTimeout`: `Witnesses.ConflictWithOwnRecord`, `Witnesses.ConflictWithItself`,
  `Witnesses.LandsAfterTimeout`.
- A conflict on a fence that was not read from the stream need not be final: `Guarantees.FenceFinalExact`.

## Model

| member | source | states |
|---|---|---|
| Protocol.InvStep | sdk/fat.go:294-318 | Every step of any worker, of the network or of another writer keeps the protocol invariant: fenced records follow the record at their fence, in-flight attempts have not landed, answers tell the truth, a worker is inside its latest unfinished call |
| Protocol.InvRun | sdk/fat.go:294-318 | Hence every run, of any length, keeps it |
| Guarantees.RetryIdempotence | sdk/fat.go:296-298 | However often and however late the network delivers them, of all publishes ever sent with the same invocation and fence, by any attempts of any calls of any workers, at most one delivery is applied |
| Guarantees.OneRecordPerCall | sdk/fat.go:296-315 | One call has at most one record, over all its attempts and all deliveries of each |
| Guarantees.SingleTerminalAlways | sdk/fat.go:114-129 | Every run in which the terminal writers of one invocation check HasTerminal on a snapshot no older than their fence leaves at most one terminal record there, whatever the writers of other invocations do |
| Guarantees.GuardExact | sdk/fat.go:117-119 | The guard is exact: when an attempt of a call passes its fence, at any later time, the subject stays single-terminal if and only if it held no terminal record at or below the fence when the call was submitted |
| Witnesses.FenceNewerThanSnapshotFails | sdk/fat.go:252-255 | With the same check and fences that LastJournalSeq returned, but without the order between the two, some run journals two terminal records of one invocation |
| Guarantees.SuccessMeans | sdk/fat.go:299-307 | Success: in every continuation exactly this call's bytes stand at the returned sequence, their predecessor on the subject is expectedLast, and the call has no other record |
| Guarantees.ConflictMeans | sdk/fat.go:308-310 | Conflict on a fence that was read: the fence is stale in every continuation, the record right after it is foreign or an attempt of this very call up to and including the one that saw the conflict, and it is the only record the call can have |
| Guarantees.FenceFinalExact | sdk/fat.go:252-255 | A failing fence fails for ever if and only if the stream has reached it, as it has for every fence LastJournalSeq returned |
| Guarantees.AnyOutcomeAtMostOnce | sdk/fat.go:262-267 | Whatever a call returned, timeout included, at most one of its records exists in any continuation; after a usage error none does |
| Witnesses.ConflictWithOwnRecord | sdk/fat.go:308-310 | Some call returns a conflict although its own first attempt is journalled |
| Witnesses.ConflictWithItself | sdk/fat.go:308-310 | Some call returns a conflict at its first and only attempt, whose publish was delivered twice and whose own record it ran into |
| Witnesses.LandsAfterTimeout | sdk/fat.go:314-318 | Some publish lands after its call returned ErrFatTimeout |
| Witnesses.LandsAfterCrash | sdk/fat.go:296-315 | Some publish lands after its worker has crashed and begun again |
| Witnesses.ConflictWithPeer | sdk/fat.go:308-310 | A run in which all terminal writers follow the guard, and a call conflicts with another's record and leaves none of its own |
| Witnesses.GuardedSuccess | sdk/fat.go:117-119 | The guard can be followed: a run that does so ends in success with one terminal record |
| Guarantees.LandedAfterFence | sdk/fat.go:262-267 | A record SubmitResult lands is never the first of its subject; its immediate predecessor there is the record at its fence |
| Guarantees.AppendsAreIsolated | sdk/fat.go:299-301 | A step moves the last sequence of exactly the invocation it appends to, to the new end of the stream |
| Guarantees.LogGrows | sdk/fat.go:235-318 | No step rewrites or removes a record |
| Guarantees.CallsStable | sdk/fat.go:235-318 | A call keeps its arguments for ever, and its outcome once it has one |
| Recovery.FencesGrowRun | sdk/fat.go:254-255 | In every run a worker that re-reads its fence after a conflict only uses fences beyond all those its earlier calls saw conflict |
| Recovery.ConflictsHaveRecords | sdk/fat.go:308-310 | Each conflict of a worker is answered by a record of its own: the one right after its fence |
| Recovery.OwnAtMostOne | sdk/fat.go:117-119 | A worker that follows the guard on an invocation has at most one record of its own there, whatever the others do |
| Recovery.BoundedRecovery | sdk/fat.go:254-255 | A worker that re-reads, re-hydrates, checks and retries on an invocation sees at most k + 1 conflicts there when the others append k records after the first fence it used; nothing is asked of the others, guard included |
| Refinement.StepSimulates | sdk/fat.go:299-306 | Every concrete step is zero or one step of a log with an atomic compare-last-and-append |
| Refinement.CallsStepOnce | sdk/fat.go:294-298 | In every run of the simple system a call takes its step at most once |
| Refinement.FencesIncrease | sdk/fat.go:296-298 | In every run of the simple system the steps on one subject have strictly increasing fences, so no fence is used twice |
| Refinement.Refines | sdk/fat.go:294-318 | Every run of the lossy, delaying, retrying system maps to a run of the simple one that ends in the same records (subject, data, terminal flag and fence), with at most one step per call and successes reported at the sequence of that step |
| FatWorker.JetStream.SubmitResult | sdk/fat.go:259-318 | Interleaved with arbitrary steps of everybody else, it extends the run by exactly one new call of this worker. What it returns follows from the answers its publishes received: usage error and no publish for a zero fence; the acknowledged sequence; conflict, timeout or non-transient error exactly as the class of the last error says, after at most three attempts of which all but the last were transient. A returned sequence is that of a record with the envelope of the payload on subject tenax.journal.inv, right after expectedLast; a conflict on a fence that was read means that the subject has moved on |
| FatWorker.JetStream.TryOnce | sdk/fat.go:299-314 | One attempt: one publish and one answer more, and the call goes on or ends as the answer demands |
| FatWorker.JetStream.RetryLoop | sdk/fat.go:296-318 | One to three publishes of the same bytes with the same fence; the answers they received determine what is returned, which is also the outcome the run records |
| FatWorker.JetStream.JsPublish | sdk/fat.go:300-303 | One publish: it is sent, others act while it is awaited, and the result is an answer the server can have given or a failure |
| FatWorker.JetStream.GetLastMsgForSubject | sdk/fat.go:339-347 | The answer is the last message of the subject, or that there is none, exactly when the stream answers |
| FatWorker.ReportTellsTruth | sdk/fat.go:305-310 | A returned sequence is that of the call's own record with its bytes, right after its fence; a conflict on a read fence means a stale fence |
| FatWorker.JetStream.LastJournalSeq | sdk/fat.go:329-349 | It returns a fence exactly when the stream opens and answers, an absent record included; that fence is the maximum sequence of subject tenax.journal.inv at the time of the read, and 0 exactly when it has no record; each failure has its own error and leaves the fence the worker held |
| FatWorker.OthersLeaveMine | sdk/fat.go:296-318 | No step of another worker, writer or of the network changes a worker's control state or its calls, or adds a call of its |
| FatWorker.SubmitFaithful | sdk/fat.go:283-292 | The bytes SubmitResult sends decode to a terminal entry |
| FatWorker.SingleTerminalInBytes | sdk/fat.go:107-129 | In terms of the journalled bytes: at most one record of an invocation decodes to type Output or Error when its writers follow the guard and send what they claim to |
| FatWorker.SuccessReadsBack | sdk/fat.go:268-306 | The record at the sequence a successful call returned opens, in every continuation, to the payload the call was given |
| Journal.SubjectInjective | sdk/fat.go:160-162 | Different invocations have different subjects |
| Journal.LastSeq | sdk/fat.go:339-348 | The result is 0 or the sequence of a record of the subject, and no later record has that subject |
| Journal.LastSeqUnique | sdk/fat.go:339-348 | Those facts determine the last sequence |
| Journal.LastSeqMonotone | sdk/fat.go:324-328 | A last sequence never decreases as the stream grows |
| Classifier.FatContains | sdk/fat.go:207-221 | The index loop answers true exactly when the text splits around the substring |
| Classifier.FatConflict | sdk/fat.go:175-185 | Running the three searches in order answers true exactly on the errors of class conflict, nil included |
| Classifier.FatTransient | sdk/fat.go:187-205 | The conflict test, the deadline test and the five searches in order answer true exactly on the errors of class transient, nil included |
| Classifier.Classify | sdk/fat.go:175-205 | Conflict, transient and other partition all errors, conflict first |
| Classifier.ThirdTextSubsumed | sdk/fat.go:181-184 | The third conflict text never decides: two texts characterise a conflict |
| Classifier.TransientExact | sdk/fat.go:187-205 | An error is transient if and only if its text holds neither conflict text and the deadline marker is set or one of the five texts, spelled out, occurs |
| Classifier.WrappedConflictStays | sdk/fat.go:175-185 | Wrapping a conflict in any text or deadline marker keeps it a conflict, never retryable |
| Classifier.WrappedTransientExact | sdk/fat.go:187-205 | Wrapping a transient error keeps it retryable if and only if the wrapped text holds no conflict text |
| Crc32c.PolyIsCastagnoli | sdk/fat.go:95-96 | The generator, given by the exponents of 0x11EDC6F41, is the reversed Castagnoli constant 0x82F63B78 |
| Crc32c.OneByteVector | sdk/fat.go:279-280 | The checksum of the byte 0x7F is 0x7DF63B78 |
| Crc32c.TableStep | sdk/fat.go:95-96 | One table step equals eight steps of the shift register |
| Crc32c.TableRefinesRegister | sdk/fat.go:279-280 | The table-driven update equals the bit-serial one on every input |
| Crc32c.ShiftInjective | sdk/fat.go:95-96 | A register step loses nothing |
| Crc32c.FeedIsXorThenShift | sdk/fat.go:95-96 | Feeding up to 32 bits equals xoring them in and shifting |
| Crc32c.BurstDetected | sdk/fat.go:279-288 | Any change within 32 consecutive bits, at any position of a payload of any length, changes the checksum |
| Crc32c.FourBytesDetected | sdk/fat.go:279-288 | Replacing up to four consecutive bytes changes the checksum |
| Crc32c.ByteChangeDetected | sdk/fat.go:279-288 | Changing one byte anywhere changes the checksum |
| Crc32c.ThirtyThreeBitsEscape | sdk/fat.go:95-96 | 32 is the exact bound: for every payload and every window of 33 bits in it there is another payload that differs only there and has the same checksum |
| Crc32c.ChecksumFits | sdk/fat.go:148-154 | The checksum fits its uint32 field |
| Base64.DecodeEncode | sdk/fat.go:138-154 | Every byte string comes back from its base64 text |
| Base64.EncodeDecode | sdk/fat.go:138-154 | Every accepted base64 text is the encoding of what it decodes to |
| Base64Standard.DigitsAreAlphabet | sdk/fat.go:138-154 | The 64 digits are the standard alphabet, spelled out |
| Base64Standard.EncodeGroup | sdk/fat.go:138-154 | Three bytes are encoded as the four base-64 digits of a 24-bit number, followed by the encoding of the rest |
| Base64Standard.EncodeTwo | sdk/fat.go:138-154 | Two final bytes: three digits of the number filled up with zero bits, and one pad |
| Base64Standard.EncodeOne | sdk/fat.go:138-154 | One final byte: two digits and two pads |
| Base64.Vectors | sdk/fat.go:138-154 | The test vectors of section 10 of RFC 4648 |
| Jcs.SortSorted | sdk/fat.go:164-173 | Members with distinct keys come out in strictly increasing key order |
| Jcs.SortedUnique | sdk/fat.go:164-173 | There is one such order of the same members |
| Jcs.TransformIgnoresOrder | sdk/fat.go:167-173 | The canonical text does not depend on the order in which the members were given |
| Jcs.DigitsLaw | sdk/fat.go:150-153 | The ten digits spelled out, and how a longer number extends a shorter one |
| Jcs.ParseNumberExact | sdk/fat.go:150-153 | A rendered number is read back, whatever non-digit follows |
| Jcs.ParsedNumber | sdk/fat.go:150-153 | Every accepted number text is the rendering of its value |
| Jcs.ParseBytesExact | sdk/fat.go:138-143 | A rendered byte field, null or base64, is read back, whatever follows |
| Jcs.ParsedBytes | sdk/fat.go:138-143 | Every accepted byte field is the rendering of its value |
| Envelope.OutputShape | sdk/fat.go:138-143 | The JSON text of the inner record, keys in canonical order, with true, false, null and quoted base64 spelled out |
| Envelope.EntryShape | sdk/fat.go:149-154 | The JSON text of the outer record, keys in canonical order, with null, quoted base64 and decimal numbers spelled out |
| Envelope.OutputCodec | sdk/fat.go:269-277 | Bytes decode to an inner record if and only if they are its canonical bytes |
| Envelope.EntryCodec | sdk/fat.go:282-292 | Bytes decode to an outer record if and only if they are its canonical bytes |
| Envelope.WireText | sdk/fat.go:269-292 | For every result, the published bytes are, one by one, the code points of the outer text around the base64 of the inner bytes and their checksum, and the inner bytes those of the inner text, isTerminal true, seqNo 0 and type 3 |
| Example.NilWire | sdk/fat.go:269-292 | The published bytes for a nil payload in full, checksum 1397423944 included |
| Example.InnerChecksum | sdk/fat.go:279-280 | The checksum of its 33 inner bytes |
| HexCrc.Advance | sdk/fat.go:279-280 | One byte of data worked into a register of eight hexadecimal digits is one step of the table-driven update |
| Envelope.TerminalExact | sdk/fat.go:110-112 | An entry is terminal if and only if it is the canonical bytes of a record of type 3 or type 5 |
| Envelope.WireOpens | sdk/fat.go:269-292 | For every result, nil and empty told apart: decoding the published bytes, checking the checksum and decoding the payload gives it back, with type 3, seqNo 0 and isTerminal true |
| Envelope.WireInjective | sdk/fat.go:269-292 | Different results never share their published bytes |
| Envelope.OpenedIsWire | sdk/fat.go:269-292 | Bytes that open to a result of that shape are the bytes SubmitResult publishes for it |
| Envelope.CorruptPayloadRejected | sdk/fat.go:279-288 | An entry whose payload was changed within 32 bits, checksum kept, does not open |
| Registry.Registry.Register | sdk/register.go:57-71 | Nil and empty names refused, first writer wins, and what the registry resolves changes as the sequential rule says |
| Registry.Registry.RegisterVirtualObject | sdk/register.go:104-118 | The same for virtual objects |
| Registry.Registry.RegisterWorkflow | sdk/register.go:168-182 | The same for workflows |
| Registry.Registry.LookupHandler | sdk/register.go:87-94 | It finds a handler exactly when the service is registered and has one of that name in the heap, and returns that one; this agrees with the sequential resolution |
| Registry.Registry.LookupKeyedHandler | sdk/register.go:134-153 | It finds a handler exactly when the virtual object of that name has it in the heap or, under "run", the workflow of that name has a non-nil run handler, the virtual object first; this agrees with the sequential resolution |
| Registry.Service.Handler | sdk/service.go:77-84 | First writer wins; a repeated name is an error and changes nothing |
| Registry.VirtualObject.Handler | sdk/object.go:81-88 | First writer wins; a repeated name is an error and changes nothing |
| Registry.Workflow.Run | sdk/workflow.go:107-110 | The run handler is replaced and nothing else changes |
| Registry.Workflow.Query | sdk/workflow.go:115-121 | First writer wins; run handler and signals untouched |
| Registry.Workflow.Signal | sdk/workflow.go:131-137 | First writer wins; run handler and queries untouched |
| Registry.Registry.ServiceHandlerMovesView | sdk/service.go:77-84 | A Handler call on a service changes what a registry resolves exactly when that very object is the registered one |
| Registry.Registry.ObjectHandlerMovesView | sdk/object.go:81-88 | The same for virtual objects |
| Registry.Registry.RunMovesView | sdk/workflow.go:107-110 | The same for a workflow's run handler |
| Resolution.ServiceResolutionStable | sdk/register.go:87-94 | Over any sequence of registrations and handler calls, a resolved service handler never changes |
| Resolution.ObjectResolutionStable | sdk/register.go:134-144 | A handler resolved in a virtual object never changes, whatever workflow shares its name |
| Resolution.RunResolutionChangesExactly | sdk/register.go:145-157 | A resolved "run" changes at an operation if and only if Run sets another function, nil included, while the workflow answers, or a virtual object of that name starts to answer "run" with another one; and what it changes to |
| Resolution.ShadowedForever | sdk/register.go:134-144 | Once a virtual object answers "run", it answers for ever |
| Resolution.RunResolutionStable | sdk/register.go:134-157 | Over any sequence of operations a resolved "run" stays the same up to the first such event, changes there, and never changes when there is none |
| RegistryRace.InvRun | sdk/register.go:37-81 | Every interleaving keeps the lock discipline, the history of the maps and what each goroutine has seen |
| RegistryRace.ExactlyOneWins | sdk/register.go:57-71 | Once all contenders for a name have returned, exactly one succeeded and the map holds its pointer |
| RegistryRace.EntriesNeverChange | sdk/register.go:57-71 | A registered pointer is never replaced or removed |
| RegistryRace.LookupLinearizes | sdk/register.go:76-81 | A lookup returns what the map held under its key at one moment between its call and its return |
| RegistryRace.LookupAlone | sdk/register.go:76-81 | From any state with no writer, an undisturbed lookup finishes with what is registered |
| RegistryRace.KeyedLookupExact | sdk/register.go:134-157 | LookupKeyedHandler agrees with the atomic resolution at some moment between its two sections if and only if it was not torn; a torn one agrees at no moment at all |
| RegistryRace.KeyedLookupLinearizes | sdk/register.go:134-157 | It linearizes within its call whenever the name is not both kinds |
| RegistryRace.QuiescentLookupIsAtomic | sdk/register.go:134-157 | With no registration between its sections and the end it is the sequential resolution itself |
| RegistryRace.AtomicIsResolveKeyed | sdk/register.go:134-157 | The atomic answer of the concurrent system is the sequential resolution of the same contents |
| RegistryRace.TornLookupHappens | sdk/register.go:134-157 | An interleaving with an answer the name had at no moment |
| Sdk.SDK.New | sdk/register.go:270-279 | The option loop builds exactly what the list of options means |
| Sdk.SDK.ApplyOption | sdk/register.go:291-316 | One option extends that meaning by one |
| Sdk.BuildErrorExact | sdk/register.go:284-316 | No error if and only if no option repeats the kind and name of an earlier one; otherwise the error names the earliest that does |
| Sdk.FoldIsScan | sdk/register.go:291-316 | For either kind and every name the maps hold the first description a linear scan finds |
| Sdk.ScanIsFirst | sdk/register.go:291-316 | The scan finds the description of the first option of that kind and name, and nothing when there is none |
| Sdk.ScanFinds | sdk/register.go:291-316 | The scan finds something exactly when an option has that kind and name |
| Sdk.SDK.Build | sdk/register.go:281-286 | Build is nil exactly when the names of services are pairwise distinct and those of objects are; otherwise its error carries the kind and name of the earliest option that repeats one |
| Sdk.SDK.LookupService | sdk/register.go:318-331 | The handler in the map of the first service option of that name; no such option, no such handler and a nil map are all not found |
| Sdk.SDK.LookupObject | sdk/register.go:333-346 | The same for objects |
| Sdk.Builder.Handle | sdk/service.go:129-132 | The handler is overwritten in the shared map |
| Sdk.SDK.LateWriteExact | sdk/register.go:236-250 | For services and objects: any writes to one handler map after Build, deletions included, change a lookup if and only if the description in use holds that map and the map's answer for the handler name changed |
| Sdk.LateOptionExact | sdk/register.go:252-254 | An option applied after Build changes what a kind and name resolve to if and only if nothing was found there and the option brings it; a lookup if and only if it also brings the handler; and the result of Build if and only if it repeats an earlier option |
| Sdk.SDK.LateHandleExact | sdk/register.go:258-259 | For services and objects: Handle on a builder after Build changes a lookup if and only if the description in use is that builder's, for that very handler name, and the function differs |
| Sdk.DeleteAfterBuild | sdk/register.go:245-250 | A client for which Build returns nil and a lookup finds nothing after a deletion from a description's map |
| Sdk.OptionAfterBuild | sdk/register.go:252-254 | A client for which Build returns nil and a lookup finds something after a further option |
| Sdk.HandleAfterBuild | sdk/register.go:281-286 | A client for which Build returns nil and a lookup changes afterwards |
| Saga.Saga.AddCompensation | sdk/saga.go:53-59 | Appends, in place or into a grown array |
| Saga.Saga.Compensations | sdk/saga.go:64-70 | A fresh copy of the contents |
| Saga.Saga.RegisterAll | sdk/saga.go:72-89 | Exactly the steps before the first failure are on the stack, in order, with the returned ids; an error exactly when not all are, and it is the failing answer's; nothing is asked of the engine after it |
| Saga.Context.RegisterCompensation | sdk/ctx.go:212-228 | The interface assumed of the engine: assign an id and push, or fail and push nothing |
| Saga.Client | sdk/saga.go:53-70 | Any interleaving of appends, copies and arbitrary writes into returned copies behaves on the heap as on independent values |
| Saga.ContentsAreTheAdds | sdk/saga.go:53-70 | The contents are exactly the appended functions in order, whatever else happened |
| Saga.SnapshotsKeep | sdk/saga.go:64-70 | A copy its holder does not write to never changes |
| Saga.RollbackIsLifo | sdk/ctx.go:213-214 | Rolling back one compensation runs it, and the upper part of a stack is rolled back before the lower |
| Saga.ForwardIsInOrder | sdk/saga.go:72-89 | Running one step applies it, and the first part of a list of steps runs before the rest |
| Saga.RollbackRestores | sdk/saga.go:72-89 | If each compensation undoes its step, rolling back the first n registered undoes exactly the first n steps, for every length and every earlier stack |
| Saga.RegisterAndRollback | sdk/saga.go:72-89 | Registering a saga, complete or cut short, and rolling back returns the state the registered steps started from |

## Left out

- The engine behind `sdk.Context`: journal replay, combinators, timers, awakeables; only the documented `RegisterCompensation` interface is assumed.
- The real NATS client, contexts and wall-clock time: a deadline is a failure that may happen at any publish, and the server is a log with compare-and-append.
- uint64 wrap-around of sequences, stream limits and deletion: sequences are unbounded and records stay.
- General JSON: only the two record shapes, whose keys and values need no escapes; `seqNo` is limited to the integers RFC 8785 writes exactly, up to 2^53, and SubmitResult always writes 0.
- The marshal error paths of SubmitResult: the two record shapes cannot fail to marshal.
- RegistryRace.LookupLinearizes: does not follow handlers added to a descriptor after it was registered, because those calls are outside the lock in the source as well; Resolution covers them sequentially.
- Saga.Context.RegisterCompensation: does not model serving recorded ids on replay or the error for registering from inside a compensation, because both are decided by the engine's journal.
- Saga.RollbackRestores: does not model compensations that fail, durable journalling of compensations, or kill, because these belong to the engine.
- The worked CRC-32C examples of RFC 3720: the checksum is tied to its generator, to a one-byte example and to the nil payload instead.
- `sdk/provision`, `awakeable.go`, `call.go`, `send.go`, `combinator.go`, `fat_creds.go` and the version-skew error: constructors, getters and request plumbing.
- The default-registry wrappers, `Name`, `HandlerType`, `LookupQuery` and `LookupSignal`: one-line reads.
- Handler bodies: functions are opaque identities.

# GoreeCloud Mesh: a verified model

GoreeCloud Mesh is a coordination service: applications register services and
relationships with it, ask it who may call what and who is affected by an
outage, and follow its event stream; platform systems (Identity, Glaze UI,
Wardveil, Privacy Shield, Everkeep) deliver evidence about themselves to it,
which it stores without judging it. This project models the stateful parts of
the service in Dafny and proves what they keep over whole runs: under
concurrent callers, failing writes, a crash between any two steps, and
restarts.

Check it with `dafny verify dfyconfig.toml`.

## How it is modelled

- **Time** (`GoTime`) is an instant in nanoseconds with a zone offset. The zero
  time is an instant of its own; "shown in UTC" is offset 0.
- **Text** (`Text`) is a sequence of Unicode scalar values with Go's
  `TrimSpace`, byte length and string order written out.
- **Maps** range in an arbitrary order (`Keyed.Range`). Where the service sorts
  afterwards, `Sorting.SortedUnique` shows that the order cannot be seen.
- **Files** (`Disk`) are two cells, the path and `path.tmp`. A call to
  `persistLocked` can fail at each of its steps, and a failed or interrupted
  write leaves anything in the temporary file.
- **Locks.** The classes (`EnvelopeRegistry.Registry`, `Store.Store`,
  `Mesh.Mesh`, `EventBus.Bus`, `KeyCache.Verifier`, `RuntimeEvidence.Registry`,
  `Recovery.Registry`) have the methods of the service, each proved against a
  specification when it runs alone. The run modules (`RegistryRuns`,
  `StoreRuns`, `EntryRuns`, `EventRuns`) cut the same operations into the steps
  that other callers and crashes can come between; `SectionIsOneRecord` in
  `RegistryRuns`, `RuntimeRuns` and `RecoveryRuns`, `StoreRuns.SectionIsOnePut`
  and `EventRuns.AlonePublishIsAtomic` connect the two forms. Runs start from any
  file that stands for a state the component may hold. The key cache holds its
  mutex through a whole lookup, so its runs are sequences of calls.
- **Readers that lock more than once.** `GateRuns` and `PolicyRuns` follow one
  call of the Stable gate, and one of `Evaluate`, read by read, with the writes of
  others in between; a write shows to readers as one step, which is what its
  locked part adds up to. `GateRuns.UndisturbedGate` and
  `PolicyRuns.UndisturbedEvaluate` connect them to the methods.
- **Checks and their meaning.** A normaliser is modelled check by check, in the order of
  the service (`Envelope.Normalize`, `Refresh.NormalizeIntent`,
  `RuntimeEvidence.Normalize`, `Claims.Problem`, `Mesh.Verdict`). What it is meant to let
  through is stated apart from that, on the fields and with the texts and numbers written
  out (`Envelope.WellFormed`, `Refresh.ProperIntent`, `RuntimeEvidence.Sound`,
  `Claims.Otherwise`, `Mesh.Authorized`), and the two are proved equivalent; the
  `RefusedByFirstGround` laws do the same for the refusals and their order.
- **Environment.** The clock, the faults of the disk, what a fetch of the key
  document brings, base64 decoding and the caller's verified principal are
  parameters.
- In `RegistryRuns` the fields `reports` and `deliveredBy`, in `EntryRuns` the
  fields `commits` and `answered`, and in `EventRuns` the fields `sent`, `taken`,
  `audience`, `outcomes` and `done`, record history and decide nothing. (Sending and receiving ask that the channel has its
  history, which `EventRuns.ChannelsAreSafe` shows it always has.)

## The main results

1. **Evidence is immutable and durable.** In every run each envelope ID has one
   content for ever, at most one delivery of it is ever told "new", whatever any
   caller was told is in the file from then on, and a restart gives back exactly
   the map whenever the clock is not before a stored observation, expired
   envelopes included.
2. **Authority is exclusive.** No domain and no contract is accepted from two
   producers, so in every run the domain alone names the producer of stored
   evidence, and that producer's own principal delivered what the run added.
3. **The subject view means what it shows.** The one-pass grouping equals filter,
   maximum and count over the stored envelopes, and depends on nothing else.
4. **The refresh loop closes**, and stays closed across crashes until the
   evidence's deadline.
5. **Impact is reachability** along chains of dependencies, and grows by exactly what
   a new required relationship, or a newly registered service, adds.
6. **Referential integrity survives** writes that fail without being undone,
   crashes and restarts.
7. **The event bus never panics**, accepts each event at most once on a channel and none
   on a cancelled one, settles every publish, never uses an event ID twice and keeps the
   order of publishes that do not overlap.
8. **Keys are recent, tokens have one validity interval, gates fail closed**: a
   withdrawn key is gone within the TTL, the accepting instants of a token are one
   closed interval of bounded width, and each gate is open exactly while all
   its entries are validated and in time.
9. **The latest entry wins and is durable** in the registries of runtime and
   recovery evidence: through failed writes, crashes and restarts, what a caller was
   told is recorded stays in the file, and in memory between records, until another
   entry with its key reaches the file.
10. **Readers that lock more than once** answer for each read on its own; it is shown
    exactly beside which writes the answer can be wrong for every single moment.

Three properties one could expect do not hold of the code:

- Normal expiry can prevent a restart. `README.md:44` says that it must not; for
  the envelope registry it does not (`EnvelopeRegistry.RestartIsTransparent`),
  but the registry of runtime evidence refuses to load once a validated entry
  has expired. `RuntimeEvidence.RestartExactly` gives the exact condition,
  `RuntimeEvidence.ExpiryBlocksRestart` a case.
- The Stable gate reads one platform after the other, so it can answer "eligible"
  although the registry was eligible at no moment of the call. That can happen
  exactly when the records made meanwhile contain one that leaves a platform without
  fresh evidence and one that brings fresh evidence for a platform that is read later
  (`GateRuns.MisledExactly`); for records made since the instant the gate asks
  about, exactly when a record that is not validated and a validated one stand in
  that order (`GateRuns.MisledByStates`).
- `Evaluate` reads the target and the relationships one after the other, so it can
  allow a call that was authorised at no moment. That can happen exactly when, of
  the puts made meanwhile, one takes the capability from the target and one permits the
  call, and the capability is one a service can advertise
  (`PolicyRuns.MisledExactly`).

Where documents and code differ, the model follows the code:

- the producer table of `docs/evidence-envelopes.md` leaves out GoreeCloud
  Identity, which the code accepts;
- the comment at `internal/contracts/evidence_envelope_persistence.go:19-20` says
  that non-canonical records block startup; white space and time zones that are
  not canonical are put right silently (`EnvelopeRegistry.LoadedIsInSync`);
- Glaze UI's repository is `GoreeCloud/glaze-ui` for runtime evidence and
  `GoreeCloud/goreecloud-glaze-ui` for envelopes.

## Model

| member | source | states |
|---|---|---|
| Text.TrimTight | internal/contracts/evidence_envelope.go:116-129 | trimming leaves a text alone exactly when it has no white space at either end, so trimming twice is trimming once |
| Text.LessTotal | internal/contracts/evidence_envelope_registry.go:76-81 | two different texts are always ordered, so a sort by ID has no ties |
| Text.LessMeans | internal/contracts/evidence_envelope_registry.go:76-81 | one text comes before another exactly when it is a proper prefix of it or has the smaller character where they first differ |
| Text.ByteLenMeans | internal/contracts/evidence_envelope.go:134-166 | a length is that of the UTF-8 encoding: each character takes the fewest bytes that hold it, lengths add up, and a text of n characters takes n to 4n bytes |
| Sorting.SortSorts | internal/mesh/mesh.go:169 | sorting a list without ties gives the same elements in strict order |
| Sorting.SortedUnique | internal/contracts/evidence_envelope_registry.go:69-83 | the sorted arrangement of a set is unique, so neither map order nor sorting algorithm shows |
| Keyed.Range | internal/contracts/evidence_envelope_persistence.go:74-76 | a range over a map gives each value once, in an order that nothing fixes |
| Keyed.ListsGivesMap | internal/contracts/evidence_envelope_persistence.go:49-58 | reading back what a range wrote gives the same map, whatever the order |
| Keyed.LastIsKept | internal/contracts/runtime_evidence_persistence.go:34-46 | in a loop of assignments by key, the last item with a key is the one the map has |
| Disk.Volume.Persist | internal/contracts/evidence_envelope_persistence.go:62-87 | success puts the new document under the path; any failure leaves the path alone |
| Disk.CrashKeepsOldOrNew | internal/contracts/evidence_envelope_persistence.go:78-86 | a crash anywhere in the write leaves the old document or the whole new one |
| Authority.AuthorityIsExclusive | internal/contracts/evidence_envelope.go:76-98 | no authority domain and no contract string is accepted from two producers |
| Authority.ContractNamesOwner | internal/contracts/evidence_envelope.go:204-214 | a contract string alone determines the one producer that may use it |
| Authority.DomainNamesOwner | internal/contracts/evidence_envelope.go:76-83 | a domain alone determines the one producer that may speak on it |
| Envelope.NormalizeMeaning | internal/contracts/evidence_envelope.go:115-202 | an envelope is accepted exactly when its one spelling is well-formed, it was observed by now and, in fresh mode, it is not past its deadline; the one spelling is the result |
| Envelope.RejectedByFirstGround | internal/contracts/evidence_envelope.go:131-200 | the rejection is one that applies to the one spelling, and in the order of the checks no other that applies comes before it |
| Envelope.CanonicalIsTidy | internal/contracts/evidence_envelope.go:116-130 | the one spelling has no stray white space, shows UTC, and is its own spelling |
| Envelope.NormalizeIsStable | internal/contracts/evidence_envelope.go:104-113 | an accepted envelope is a fixed point of the stored mode at every later time, and of the fresh mode exactly until its deadline |
| Envelope.StoredReload | internal/contracts/evidence_envelope.go:108-113 | stored evidence is refused on reload only when it lies in the reader's future; expiry matters to the fresh mode alone |
| Envelope.StoredAuthority | internal/contracts/evidence_envelope.go:138-156 | among stored envelopes the domain, and the contract, determine the producer |
| EnvelopeRegistry.Registry.RecordAt | internal/contracts/evidence_envelope_registry.go:38-60 | new, replayed, conflicting, refused or not persisted, with the map and the file each of them leaves; memory and file stay in step |
| EnvelopeRegistry.Registry.PersistLocked | internal/contracts/evidence_envelope_persistence.go:62-87 | a successful write makes the file stand for exactly the map, a failed one leaves it alone |
| EnvelopeRegistry.Registry.List | internal/contracts/evidence_envelope_registry.go:69-83 | every stored envelope once, newest first, equal times by ID |
| EnvelopeRegistry.Registry.CurrentAt | internal/contracts/evidence_envelope_registry.go:85-94 | exactly the stored envelopes that are fresh, in the same order |
| EnvelopeRegistry.Registry.CountsAt | internal/contracts/evidence_envelope_registry.go:96-105 | the number of fresh IDs, and with the stale ones the size of the map |
| EnvelopeRegistry.Load | internal/contracts/evidence_envelope_persistence.go:22-60 | each way a load can fail, and that what loads is legal and is what the file stands for |
| EnvelopeRegistry.LoadFromMeaning | internal/contracts/evidence_envelope_persistence.go:48-59 | the load loop succeeds exactly on lists of well-formed envelopes observed by now without a repeated ID, and gives their map |
| EnvelopeRegistry.LoadStopsAtFirst | internal/contracts/evidence_envelope_persistence.go:48-59 | a load that fails names the first entry that cannot follow those before it: rejected, or else with an ID that is taken |
| EnvelopeRegistry.LoadedIsInSync | internal/contracts/evidence_envelope_persistence.go:40-59 | whatever loads is legal and is what the file stands for, up to white space and zone |
| EnvelopeRegistry.RestartIsTransparent | internal/contracts/evidence_envelope_persistence.go:48-86 | a file in step with a map loads exactly at the instants not before any stored observation, and gives back that map, expired envelopes included |
| EnvelopeRegistry.ReplayExactly | internal/contracts/evidence_envelope_registry.go:47-52 | a second record is a replay exactly when it has the same one spelling and arrives within the validity window; other content under the ID is refused and changes nothing |
| EnvelopeRegistry.RecordsExactly | internal/contracts/evidence_envelope_registry.go:38-60 | something new is recorded exactly when the one spelling is well-formed, observed by now and not past its deadline, its ID is free and it is written; every other call leaves the map alone |
| EnvelopeRegistry.ListingBySort | internal/contracts/evidence_envelope_registry.go:70-82 | sorting any range of the map gives the listing |
| EnvelopeRegistry.ListingIsUnique | internal/contracts/evidence_envelope_registry.go:69-83 | the listing is determined by the stored envelopes alone |
| RegistryRuns.StepKeepsInv | internal/contracts/evidence_envelope_registry.go:38-60 | every step, a crash at any point included, keeps the file legal, memory equal to the file (plus the one entry being written) and all reports true; the file only gains envelopes |
| RegistryRuns.OneContentForEver | internal/contracts/evidence_envelope_registry.go:38-60 | in every run: one content per ID for ever, only the first report of an ID can say "new", and everything reported stays in file and memory |
| RegistryRuns.MemoryIsFile | internal/contracts/evidence_envelope_registry.go:54-59 | whenever no record holds the lock, memory is the decoded file |
| RegistryRuns.RestartInRun | internal/contracts/evidence_envelope_persistence.go:22-60 | in every run a restart succeeds exactly when no stored observation is after the clock, and rebuilds the file's map |
| RegistryRuns.CrashThenRestart | internal/contracts/evidence_envelope_persistence.go:22-87 | a crash between operations and a timely restart restore the same memory |
| RegistryRuns.VisibleGrows | internal/contracts/evidence_envelope_registry.go:62-83 | what readers see only grows, across restarts |
| RegistryRuns.AuthorityInRun | internal/api/server.go:259-274 | in every run the domain, and the contract, of a stored envelope determine its producer, and a principal with that producer's service ID delivered every envelope that was not in the first file |
| RegistryRuns.SectionIsOneRecord | internal/contracts/evidence_envelope_registry.go:44-59 | the steps of one undisturbed locked part add up to one call of RecordAt: same map, files and answer |
| RegistryRuns.StatusInRun | internal/api/server.go:303-320 | at any two moments of a run the per-producer sums of the first reading do not exceed the totals of the second |
| Delivery.RecordEnvelope | internal/api/server.go:259-287 | a principal that is not the named producer, or has a blank subject, is turned away with map and files untouched; otherwise the reply is the registry's outcome: created adds the one spelling, anything else leaves the map |
| Delivery.PrincipalMeans | internal/api/evidence_delivery.go:60-73 | a principal may deliver exactly when it is there, its service ID is the name of the producer in the envelope and its subject is not blank; otherwise which of the three is missing first |
| Delivery.ReceiptIsBound | internal/api/evidence_delivery.go:60-73 | a receipt names the service of the producer in the envelope, the envelope is stored, and "replayed" says truly whether it was there before |
| Delivery.CountByProducer | internal/api/server.go:309-318 | the table has one entry for each producer listed, with its fresh and stale numbers |
| Delivery.CountsMean | internal/api/server.go:309-318 | the two numbers of a producer are those of its stored envelopes up to and past their deadline, and exactly the producers with stored envelopes have an entry |
| Delivery.EvidenceStatus | internal/api/server.go:303-326 | the totals are those of the registry, and the table has for each producer with stored envelopes their numbers up to and past the deadline |
| Delivery.StatusIsSound | internal/api/server.go:309-319 | per-producer sums never exceed totals read later at the same time, and equal them when nothing was recorded between |
| SubjectView.EnterKeepsTable | internal/api/evidence_delivery.go:97-139 | entering one more envelope keeps the two-level table equal to filter, newest and newest fresh over the envelopes passed |
| SubjectView.BuildRows | internal/api/evidence_delivery.go:143-155 | one row for each assertion of the bucket, in strict order, whatever the order of the range |
| SubjectView.BuildAuthorities | internal/api/evidence_delivery.go:141-167 | one authority for each key, in strict order, with its rows |
| SubjectView.BuildView | internal/api/evidence_delivery.go:75-181 | the single pass computes the view of exactly the envelopes that have the trimmed kind and ID and, when a scope is asked for, that scope: counts, scope, lifecycle and authorities |
| SubjectViewLaws.ReadSubject | internal/api/server.go:328-337 | the endpoint answers with the view of the registry's listing, and refuses exactly blank kinds and IDs |
| SubjectViewLaws.ViewIsUnique | internal/api/evidence_delivery.go:141-167 | two views of the same envelopes are equal however the maps were ranged over |
| SubjectViewLaws.ViewDependsOnContents | internal/api/evidence_delivery.go:75-181 | the view depends only on the set of stored envelopes |
| SubjectViewLaws.BucketKeyIsInjective | internal/api/evidence_delivery.go:114 | joining producer and domain by NUL loses nothing |
| SubjectViewLaws.RowsMean | internal/api/evidence_delivery.go:124-138 | each row shows the newest stored envelope of its kind, the newest fresh one if any, ties to the smallest ID, and how many there are |
| SubjectViewLaws.RowsCover | internal/api/evidence_delivery.go:97-127 | every matching stored envelope has its row |
| SubjectViewLaws.ShownMeans | internal/api/evidence_delivery.go:100-138 | whatever a row shows is stored evidence with the kind, the ID and, when one was asked for, the scope, of the row's producer, domain and assertion; current evidence is not past its deadline |
| SubjectViewLaws.RowsAreDistinct | internal/api/evidence_delivery.go:114-167 | one row at most for each producer, domain and assertion, and each domain heads one authority at most; rows in the order of assertions, authorities in that of producer names and domains |
| SubjectViewLaws.HistoryAddsUp | internal/api/evidence_delivery.go:129 | the history counts of all rows add up to the matching envelopes |
| SubjectViewLaws.CountsMean | internal/api/evidence_delivery.go:104-109 | current and stale counts are the numbers of fresh and other matching stored envelopes, together the sum of all history counts |
| SubjectViewLaws.StateMeans | internal/api/evidence_delivery.go:49-58 | the state is "current", and no refresh is required, exactly when some row has a current envelope; "empty" exactly when nothing matches |
| SubjectViewLaws.ScopeMeans | internal/api/evidence_delivery.go:110-112 | asked without a scope, the view shows that of the newest matching envelope that has one |
| Refresh.IntentMeaning | internal/contracts/evidence_refresh.go:103-178 | an intent is accepted exactly when its trimmed form is proper and it was not requested in the future |
| Refresh.IntentRefusedByFirstGround | internal/contracts/evidence_refresh.go:103-178 | the refusal of an intent is the first, in the order of the checks, that applies |
| Refresh.IntentIsStable | internal/contracts/evidence_refresh.go:103-178 | a normalised intent is a fixed point of the normaliser from then on |
| Refresh.ResponseMeaning | internal/contracts/evidence_refresh.go:180-271 | a response is accepted exactly when its trimmed form is proper and it was not given in the future |
| Refresh.ResponseRefusedByFirstGround | internal/contracts/evidence_refresh.go:180-271 | the refusal of a response is the first, in the order of the checks, that applies |
| Refresh.ResponseIsStable | internal/contracts/evidence_refresh.go:180-271 | a normalised response is a fixed point of the normaliser from then on |
| Refresh.SecondNormalisationIsRedundant | internal/contracts/evidence_refresh_handoff.go:26-33 | normalising the intent before the response is checked against it changes no answer |
| Refresh.HandoffExactly | internal/contracts/evidence_refresh_handoff.go:25-69 | a handoff is accepted exactly when intent, response and evidence each are and bind to each other |
| Refresh.HandoffRefusedByFirstGround | internal/contracts/evidence_refresh_handoff.go:25-69 | a handoff is refused for its intent, else for its response, else for the first of the comparisons, in their order, that fails, the evidence being normalised before it is compared |
| Refresh.HandoffMeaning | internal/contracts/evidence_refresh_handoff.go:25-69 | an accepted handoff carries current evidence about exactly what was asked, from exactly the producer asked, observed between request and response |
| RefreshLoop.RefreshCloses | internal/contracts/evidence_refresh_handoff.go:55-68 | once the evidence of an accepted handoff is stored, the intent's view is current until the deadline, with a row no older than the request |
| RefreshLoop.HandoverIsRecorded | internal/contracts/evidence_envelope_registry.go:38-60 | recording that evidence at the same instant succeeds unless the ID holds other content or the write fails |
| RefreshLoop.LoopStaysClosed | internal/api/evidence_delivery.go:97-139 | in any run, once a caller was told the evidence is stored, every later view is closed for the intent until the deadline, across crashes and restarts |
| Trust.Unique | internal/mesh/mesh.go:204-220 | the strictly sorted list of the distinct, trimmed, non-empty entries |
| Trust.UniqueIsCanonical | internal/mesh/mesh.go:204-220 | doing it twice changes nothing |
| Trust.Normalize | internal/trust/trust.go:57-77 | names trimmed, scopes made canonical |
| Trust.HasScope | internal/trust/trust.go:33-44 | a scope is granted exactly when its trimmed, non-empty form is listed |
| Trust.NormalizedScopes | internal/trust/trust.go:61-75 | normalising a principal neither adds nor loses a permission |
| MeshModel.ServicePutKeepsIntegrity | internal/store/store.go:66-71 | storing a registrable service, new or again, keeps referential integrity |
| MeshModel.RelationshipPutKeepsIntegrity | internal/store/store.go:73-78 | storing a proper relationship between registered services keeps referential integrity |
| Store.Store.Snapshot | internal/store/store.go:46-57 | the copy has exactly the entries of the store |
| Store.Store.PutService | internal/store/store.go:66-71 | memory changes whether or not the write succeeds; the files are those of one write |
| Store.Store.PutRelationship | internal/store/store.go:73-78 | the same for relationships |
| StoreRuns.StepKeepsInv | internal/store/store.go:66-96 | every step keeps integrity in memory and file, and an endpoint that was found stays registered until the put |
| StoreRuns.IntegrityInEveryRun | internal/mesh/mesh.go:81-104 | in every run, in memory and in the file: records are kept under their own IDs, services have a name, a kind and a known health, and the two ends of every relationship are registered and differ |
| StoreRuns.FileIsSomeMemory | internal/store/store.go:80-96 | the file is always the first one or a complete snapshot of some earlier memory |
| StoreRuns.SuccessIsDurable | internal/store/store.go:80-96 | after a successful put the file equals memory |
| StoreRuns.RestartGivesFile | internal/store/store.go:19-44 | a restart in a run always succeeds and gives what the file stands for |
| StoreRuns.FilesOnlyGrow | internal/store/store.go:66-96 | what the file once lists, every later file and memory lists |
| StoreRuns.SectionIsOnePut | internal/store/store.go:66-96 | the steps of one undisturbed put add up to one call of the store |
| StoreRuns.FailedPutMaySurface | internal/store/store.go:66-71 | a put that reported failure is lost by a crash, but made durable by the next successful write |
| Mesh.Mesh.RegisterService | internal/mesh/mesh.go:29-50 | when it succeeds, is refused, or fails to persist, what is stored, what the file holds and which event every subscriber is offered; integrity is kept |
| Mesh.Mesh.AddRelationship | internal/mesh/mesh.go:81-104 | the same for relationships, with the refusals in order |
| Mesh.Mesh.Services | internal/mesh/mesh.go:54-62 | every registered service, by ID |
| Mesh.Mesh.Discover | internal/mesh/mesh.go:64-79 | exactly the services that are not unavailable and advertise the trimmed capability, once each, by ID |
| Mesh.Mesh.Evaluate | internal/mesh/mesh.go:106-138 | allowed exactly when both services are registered, the target is available and lists the capability, and some enabled relationship between them is for it or for every capability; otherwise the first reason against it |
| Mesh.VerdictMeans | internal/mesh/mesh.go:106-138 | the reason is the first, in the order of the checks, that applies, and "authorizes" exactly when the call is authorised |
| Mesh.BuildReverse | internal/mesh/mesh.go:143-153 | under each name the map holds exactly the names that list it as a dependency or have an enabled required relationship to it |
| Mesh.Mesh.Impact | internal/mesh/mesh.go:141-171 | exactly the names other than id at the end of a chain of declared dependencies and enabled required relationships that starts at id, strictly sorted; the search ends on cyclic graphs |
| MeshModel.ImpactedIsReached | internal/mesh/mesh.go:143-168 | the chains of dependencies are the paths of the graph that is searched |
| Graph.ReachWithEdgesInto | internal/mesh/mesh.go:144-168 | what more edges into one node make reachable |
| Graph.ReachWithEdge | internal/mesh/mesh.go:149-168 | what one more edge makes reachable |
| MeshLaws.ImpactIsUnique | internal/mesh/mesh.go:169 | the answer does not depend on map order |
| MeshLaws.ImpactedAreRegistered | internal/mesh/mesh.go:140-171 | only registered services are impacted |
| MeshLaws.NewRelationshipAddsEdge | internal/mesh/mesh.go:149-153 | a new enabled required relationship adds exactly one reversed edge |
| MeshLaws.ImpactGrowsBy | internal/mesh/mesh.go:149-168 | the impact of x grows by the new source and its own impact, exactly when the new target is x or was impacted by x |
| MeshLaws.ImpactGrowsByService | internal/mesh/mesh.go:144-168 | the impact of x grows by a newly registered service and what that one impacts, exactly when one of its dependencies is x or was impacted by x |
| MeshLaws.OptionalRelationshipKeepsImpact | internal/mesh/mesh.go:150 | a disabled or optional relationship changes no impact |
| MeshLaws.AllowedIsDiscovered | internal/mesh/mesh.go:64-138 | in an integral state, a target that may be called is one that discovery of the capability lists |
| MeshLaws.OtherRelationshipsKeepVerdicts | internal/mesh/mesh.go:132-136 | a new relationship that is disabled, or for another capability, changes no decision and no reason |
| PolicyRuns.AllowedIsPerRead | internal/mesh/mesh.go:106-138 | beside any writers, "allowed" means that at three moments of the call, in this order, the source was registered, the target offered the capability, and an enabled relationship permitted the call |
| PolicyRuns.UndisturbedEvaluate | internal/mesh/mesh.go:106-138 | without a put during the call the decision, reason included, is that of the state the call runs on |
| PolicyRuns.AuthorizedAtOneMoment | internal/mesh/mesh.go:106-138 | an allowed call was authorised at one moment of the call unless one put takes the capability from the target and another permits the call |
| PolicyRuns.MisledExactly | internal/mesh/mesh.go:106-138 | a call beside exactly these puts can be allowed and authorised at no moment if and only if the puts contain such a pair and the capability can be advertised |
| EventBus.Bus.Subscribe | internal/mesh/mesh.go:173-180 | one new open channel of at least one slot |
| EventBus.Bus.Cancel | internal/mesh/mesh.go:181-188 | the channel is removed and closed once; calling it again does nothing |
| EventBus.Bus.Publish | internal/mesh/mesh.go:192-202 | the event, with the next number in its ID, goes to the end of every subscribed channel that has a free slot; nothing else about any channel changes |
| EventBus.EventIdIsInjective | internal/mesh/mesh.go:193 | different numbers give different event IDs |
| EventRuns.StepKeepsInv | internal/mesh/mesh.go:173-202 | every interleaved step keeps subscribed channels open, numbers unshared, and what was accepted equal to what was taken and what waits |
| EventRuns.ChannelsAreSafe | internal/mesh/mesh.go:173-202 | in every interleaving no send or close hits a closed channel, no channel exceeds its capacity, none loses, reorders or repeats what it accepted |
| EventRuns.EveryPublishIsSettled | internal/mesh/mesh.go:192-202 | a finished publish was, on each channel subscribed when it took the lock, either accepted or dropped because the channel was full |
| EventRuns.LaterNumbersAreLarger | internal/mesh/mesh.go:193 | a publish that starts after another is done has the larger number |
| EventRuns.NumbersIncrease | internal/mesh/mesh.go:193 | of any two publishes of a run, overlapping or not, the one that takes its number later has the larger one, and their event IDs differ |
| EventRuns.ChannelsKeepOrder | internal/mesh/mesh.go:192-202 | of two publishes that do not overlap, the earlier lies first in every channel that accepted both |
| EventRuns.AlonePublishIsAtomic | internal/mesh/mesh.go:192-202 | the steps of one undisturbed publish add up to one call of Publish |
| EventRuns.SubscriptionsAreTheBus | internal/mesh/mesh.go:173-190 | the steps that subscribe and cancel change channels and subscriptions as the methods of the bus do |
| EventRuns.CancelledStaysSilent | internal/mesh/mesh.go:181-202 | once its subscription is cancelled a channel stays closed and accepts nothing more, whatever was being published meanwhile |
| KeyCache.ParseKey | internal/trust/identity_jwt.go:344-361 | a key exactly when both texts decode to bytes, one to four for the exponent, whose big-endian value is at least 3; and the key is the two values |
| KeyCache.FirstByteWeighs | internal/trust/identity_jwt.go:353-356 | the first byte of a number weighs a power of 256 for each byte after it, so leading zero bytes do not change an exponent |
| KeyCache.ParseDocument | internal/trust/identity_jwt.go:319-335 | the table has a key for an ID exactly when some entry for it is usable, and it is that of the last one |
| KeyCache.TableOfIsTable | internal/trust/identity_jwt.go:319-335 | the table gives each key ID the last usable entry for it, and nothing else |
| KeyCache.LastUsableMeans | internal/trust/identity_jwt.go:319-335 | the entry that counts is an RSA key for RS256 and signatures, with an ID and numbers that make a key, and no later entry for the ID is one |
| KeyCache.UsefulMeans | internal/trust/identity_jwt.go:336-341 | a fetch counts exactly when its document has such an entry for some ID |
| KeyCache.Verifier.RefreshKeysLocked | internal/trust/identity_jwt.go:293-342 | a useful fetch replaces keys and time together, any other leaves both |
| KeyCache.Verifier.KeyFor | internal/trust/identity_jwt.go:271-291 | answers from the cache, which stays, exactly when not forced, the ID is cached and the document is younger than the TTL or five minutes; otherwise fetches once and answers from the new document |
| KeyCache.Verifier.FindKey | internal/trust/identity_jwt.go:107-113 | at most two fetches, none on a hit, the second only when the first brought no key; and which document answers |
| KeyCache.KeysAreRecent | internal/trust/identity_jwt.go:271-342 | in any run a returned key is the last usable entry of the last fetched document, fetched in this call or less than the TTL ago |
| KeyCache.AnswersExactly | internal/trust/identity_jwt.go:279-290 | a lookup answers exactly on a hit or when the fetch brings a usable entry for the ID |
| KeyCache.WithdrawnKeysExpire | internal/trust/identity_jwt.go:271-342 | a withdrawn key is not returned once the TTL since the last fetch that carried it is over |
| KeyCache.FailureChangesNothing | internal/trust/identity_jwt.go:336-341 | a failed or useless fetch changes neither keys nor time |
| Claims.FieldsExactly | internal/trust/identity_jwt.go:210 | the scopes are exactly the longest stretches without white space |
| Claims.ParsesNumerals | internal/trust/identity_jwt.go:237-249 | a date is a decimal numeral, perhaps with a sign, of a number that fits 64 bits |
| Claims.AcceptedExactly | internal/trust/identity_jwt.go:137-219 | a token is accepted exactly when it has the configured or default issuer, the configured or default audience, a service with its subject, an ID, dates that fit and a scope, and the clock is in its window |
| Claims.RefusedByFirstGround | internal/trust/identity_jwt.go:137-213 | the refusal is the first, in the order of the checks, that applies; an accepted token gives none |
| Claims.ValidateClaims | internal/trust/identity_jwt.go:137-219 | a principal exactly for those tokens, with the service, the subject and the issuer of the token and its scopes sorted; otherwise the first refusal that applies |
| Claims.AcceptanceIsAnInterval | internal/trust/identity_jwt.go:165-208 | for otherwise valid claims the accepting instants are a closed interval from the later of iat and nbf less the skew to exp and the skew, never wider than the longest life and twice the skew |
| Claims.AcceptanceIsConvex | internal/trust/identity_jwt.go:200-208 | two accepting instants are no further apart than that, and everything between them is accepted |
| RuntimeEvidence.AcceptedExactly | internal/contracts/contracts.go:60-116 | evidence is accepted exactly when its trimmed form in UTC, observed now if it does not say when, is observed by now, has a catalogued platform and contract, no other repository and a known state, and when validated the repository, a source, an exact revision and a deadline that is after the observation and not over; that form is the result |
| RuntimeEvidence.RefusedByFirstGround | internal/contracts/contracts.go:60-116 | the refusal is the first, in the order of the checks, that applies |
| RuntimeEvidence.Reload | internal/contracts/runtime_evidence_persistence.go:40-44 | held evidence reloads, unchanged, exactly while it is timely |
| RuntimeEvidence.Registry.Record | internal/contracts/contracts.go:118-138 | exactly sound and timely evidence that is written becomes the one entry of its platform in memory and file; a refusal, which names the first ground, and a failed write restore both exactly |
| RuntimeEvidence.Registry.PersistLocked | internal/contracts/runtime_evidence_persistence.go:49-71 | writing only the mandatory platforms loses nothing |
| RuntimeEvidence.Load | internal/contracts/runtime_evidence_persistence.go:12-47 | each way a load can fail, and that what loads may be held and is what the file lists, each entry in the form it is kept in |
| RuntimeEvidence.LoadFromMeaning | internal/contracts/runtime_evidence_persistence.go:34-46 | the load loop succeeds exactly on lists that are sound and timely entry by entry, without a repeated platform, and gives their map |
| RuntimeEvidence.LoadStopsAtFirst | internal/contracts/runtime_evidence_persistence.go:34-46 | a load that fails names the first entry that cannot follow those before it: of a platform that was there, or else refused |
| RuntimeEvidence.LoadedStandsFor | internal/contracts/runtime_evidence_persistence.go:30-47 | whatever loads may be held, and is what the file lists, up to white space, zone and a missing observation time |
| RuntimeEvidence.RestartExactly | internal/contracts/runtime_evidence_persistence.go:34-46 | a restart succeeds exactly when every entry was observed by then and no validated one has expired, and gives back the map |
| RuntimeEvidence.ExpiryBlocksRestart | internal/contracts/contracts.go:111-113 | a case in which plain expiry stops the registry from loading |
| RuntimeEvidence.EligibleSurvivesRestart | internal/contracts/contracts.go:158-179 | while the gate is open a restart at the same instant succeeds exactly when no observation is in the future, and the gate stays open |
| EntryRuns.StepKeepsInv | internal/contracts/contracts.go:118-138 | every step of a record, a crash at any point and a restart keep the file legal and equal to the latest committed entries, and memory equal to it but for the entry being written, whose rollback is known |
| EntryRuns.MemoryIsFile | internal/contracts/contracts.go:124-136 | in every run the file stands for a legal map, and whenever no record holds the lock memory is that map |
| EntryRuns.LatestIsKept | internal/contracts/contracts.go:118-138 | what reached the file, and so what any caller was told is recorded, is in the file and between records in memory until another entry with its key reaches the file |
| EntryRuns.CrashLosesOpenRecord | internal/contracts/runtime_evidence_persistence.go:62-70 | a crash anywhere and a restart that succeeds give back all of memory but a record that was still being written |
| EntryRuns.SectionIsOneRecord | internal/contracts/contracts.go:124-137 | the steps of one undisturbed locked part enter the entry in memory and file, or leave both |
| RuntimeRuns.IsLawful | internal/contracts/runtime_evidence_persistence.go:34-46 | the registry of runtime evidence is such a registry: what it accepts may be held, and a file in step with a map loads as nothing else |
| RuntimeRuns.RestartInRun | internal/contracts/runtime_evidence_persistence.go:14-47 | in every run a restart succeeds exactly when every entry in the file was observed by then and no validated one has expired, and rebuilds the file's map |
| RuntimeRuns.GateSurvivesCrash | internal/contracts/contracts.go:158-179 | a crash between records and a restart while the gate is open bring back the same registry, gate open, exactly when no entry was observed later |
| RuntimeRuns.SectionIsOneRecord | internal/contracts/contracts.go:118-138 | the steps of one undisturbed record add up to one call of Record: same map, files and answer |
| RuntimeEvidence.Registry.StableEligibleAt | internal/contracts/contracts.go:171-179 | undisturbed, the gate is open exactly when each of the four platforms holds validated evidence whose deadline is not over |
| RuntimeEvidence.GateNeedsProvenance | internal/contracts/contracts.go:60-179 | an open gate rests, for each of the four platforms, on its own repository and contract, a source, an exact revision and a deadline that is ahead of the observation and not over |
| GateRuns.ReachableExactly | internal/contracts/contracts.go:118-138 | the maps that record calls can build from nothing are exactly those that may be held |
| GateRuns.AnswerIsPerPlatform | internal/contracts/contracts.go:171-179 | beside any writers, "eligible" means that each mandatory platform held fresh evidence when it was read, one after the other during the call, and a refusal that some platform did not |
| GateRuns.UndisturbedGate | internal/contracts/contracts.go:171-179 | without a record during the call the answer is that of the map the call runs on |
| GateRuns.FreshBetween | internal/contracts/contracts.go:118-145 | a platform loses fresh evidence only by a record of that platform that is not fresh, and gains it only by one that is |
| GateRuns.EligibleAtOneMoment | internal/contracts/contracts.go:171-179 | "eligible" is right for the whole registry at one moment of the call unless a record takes one platform and another brings a platform that is read later |
| GateRuns.MisledExactly | internal/contracts/contracts.go:118-179 | some run of record calls from an empty registry, with a call beside exactly these records, answers "eligible" with the registry eligible at no moment of the call, if and only if the records contain such a pair |
| GateRuns.FreshIsValidated | internal/contracts/contracts.go:96-116 | evidence accepted at or after an instant is fresh at that instant exactly when it is validated |
| GateRuns.MisledByStates | internal/contracts/contracts.go:167-179 | for records normalised no earlier than the gate's instant, the pair is a record that is not validated and a validated one of a later platform |
| Recovery.VerdictMeaning | internal/governance/privacy_everkeep.go:80-103 | evidence is valid exactly when it has a required dimension, a known state, a source, an exact revision and a deadline after its observation, which is not in the future |
| Recovery.RefusedByFirstGround | internal/governance/privacy_everkeep.go:80-103 | the refusal is the first, in the order of the checks, that applies; without one none does |
| Recovery.RecoveryReady | internal/governance/privacy_everkeep.go:105-122 | ready exactly when each required dimension has valid, validated evidence whose deadline is still ahead |
| Recovery.Registry.Record | internal/governance/recovery_registry.go:20-41 | success replaces the one entry in memory and file; refusal and failed write restore both exactly |
| Recovery.Registry.List | internal/governance/recovery_registry.go:43-55 | every entry once, by the name of its dimension |
| Recovery.Registry.Ready | internal/governance/recovery_registry.go:57-59 | the gate over the list is the gate over the map: each of the five dimensions holds validated evidence, observed by then, whose deadline is still ahead |
| Recovery.Load | internal/governance/recovery_persistence.go:13-47 | each way a load can fail, and that what loads is what the file lists |
| Recovery.LoadStopsAtFirst | internal/governance/recovery_persistence.go:35-46 | a load that fails names the first entry that cannot follow those before it: of a dimension that was there, or else refused |
| Recovery.Registry.PersistLocked | internal/governance/recovery_persistence.go:49-71 | writing the required dimensions loses nothing |
| Recovery.RestartExactly | internal/governance/recovery_persistence.go:35-46 | a restart succeeds exactly at the instants not before any observation and gives back the map, lapsed entries included |
| Recovery.ReadyExactly | internal/governance/privacy_everkeep.go:105-122 | from the last observation on, ready exactly when all five dimensions hold validated evidence and it is strictly before the smallest deadline |
| Recovery.ReadinessIsNotRegained | internal/governance/privacy_everkeep.go:105-122 | once lost, readiness does not come back without a new record |
| Recovery.RestartKeepsReadiness | internal/governance/recovery_persistence.go:35-46 | a restart from the last observation on changes neither the map nor the answer |
| RecoveryRuns.IsLawful | internal/governance/recovery_persistence.go:35-46 | the registry of recovery evidence is such a registry too |
| RecoveryRuns.RestartInRun | internal/governance/recovery_persistence.go:13-47 | in every run a restart succeeds exactly at the instants not before any observation in the file, and rebuilds the file's map |
| RecoveryRuns.ReadinessSurvivesCrash | internal/governance/recovery_registry.go:57-59 | a crash between records and a restart from the last observation on change neither the map nor, at any instant, readiness |
| RecoveryRuns.SectionIsOneRecord | internal/governance/recovery_registry.go:20-41 | the steps of one undisturbed record add up to one call of Record |

## Left out

- HTTP routing, headers, JSON syntax, status codes other than the kind of reply, logging, flags and shutdown (cmd/mesh/main.go and most of internal/api/server.go): plumbing around libraries.
- The scope check in front of the handlers (internal/api/auth.go): its result is assumed where delivery is stated.
- RSA signatures, SHA-256, base64 and the network: outcomes given as parameters.
- JSON encoding is taken to give a document back as it was; invalid UTF-8 is not modelled, and a time that JSON cannot write is one of the encoding faults.
- That Go's byte order on UTF-8 text is the order of the code points is taken as given in Text.Less.
- File permissions, directory creation and power loss: a rename is atomic, a failed one leaves the path alone.
- Overflow of Go's times and durations, and wrap-around of the 64-bit event counter: integers are unbounded.
- Monotonic clock readings: a time is its wall-clock instant.
- Error texts: each is a constructor of an error datatype.
- Runs of a registry or store with an empty path: the classes cover it, the run modules take the path to be set.
- The wall clock of a load or a record of runtime evidence is past the zero time (RuntimeEvidence.Load, RuntimeEvidence.Registry.Record).
- GateRuns and PolicyRuns follow one reading call among the writers; other readers change nothing and are not shown. A crash ends such a call and is not shown there.
- Update in place through pointers inside the subject view's buckets, and slices shared between a snapshot and the store: rows and maps are values.
- Interleavings of a publish with the put before it: StoreRuns and EventRuns are separate machines.
- The notes and acceptance time of receipts and views, and the query filters of the envelope list: display only.
- Producer IDs, platforms, states and dimensions are datatypes with one constructor for any other text, not strings.
- Labels, conformance maps, endpoints and contract names of services and relationships are carried but mean nothing here.
- Source attestations, integration manifests, the catalog's display data, integration status, adapters and privacy records: straight-line checks, or the runtime registry again with easier rules.

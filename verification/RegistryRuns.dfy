/** Whole runs of the persistent evidence registry: concurrent producers, failed writes,
    a crash between any two steps, and restarts. A record call normalises outside the
    lock; its locked part is cut into memory update, write, rename and answer. */
module RegistryRuns {
  import opened Wrappers
  import opened GoTime
  import opened Authority
  import opened Envelope
  import opened EnvelopeRegistry
  import opened Delivery
  import opened Disk
  import Trust
  import Keyed

  type Client = nat

  /** An envelope that passed normalisation, with the service id that delivered it. */
  datatype Entry = Entry(envelope: Envelope, serviceId: string)

  /** The locked part of recordAt. */
  datatype Section = Idle | Writing(entry: Entry) | Renaming(entry: Entry) | Answering(entry: Entry)

  /** What callers are told: a success of record, or an envelope that a read returned. */
  datatype Report = Accepted(envelope: Envelope) | Replayed(envelope: Envelope) | Read(envelope: Envelope)

  datatype Sys = Sys(
    up: bool,
    mem: Contents,
    section: Section,
    waiting: map<Client, Entry>,
    disk: Cells<Document>,
    reports: seq<Report>,
    deliveredBy: map<string, string>)

  datatype Step =
    | Submit(client: Client, principal: Option<Trust.Principal>, input: Envelope, now: Time)
    | Enter(client: Client)
    | Write(items: seq<Envelope>, fault: Fault<Document>)
    | Rename(ok: bool)
    | Answer
    | Get(id: string)
    | Crash(left: Content<Document>)
    | Restart(now: Time)

  /** Before the first start: nothing, or any file that stands for a legal map, and anything
      left in the temporary file. */
  ghost predicate IsStart(s: Sys) {
    && s == Sys(false, map[], Idle, map[], s.disk, [], map[])
    && Legal(FileMap(s.disk.file)) && InSync(s.disk.file, FileMap(s.disk.file))
  }

  // ---------- steps ----------

  /** What can happen in a state; readers and writers wait while a section is open. */
  ghost predicate Enabled(s: Sys, step: Step) {
    match step
    case Submit(_, _, _, _) => s.up
    case Enter(client) => s.up && s.section.Idle? && client in s.waiting
    case Write(items, _) => s.up && s.section.Writing? && Keyed.Lists(items, s.mem, Key)
    case Rename(_) => s.up && s.section.Renaming?
    case Answer => s.up && s.section.Answering?
    case Get(_) => s.up && s.section.Idle?
    case Crash(left) => s.up && (s.section.Writing? || left == s.disk.tmp)
    case Restart(_) => !s.up
  }

  function Next(s: Sys, step: Step): Sys {
    match step
    case Submit(client, principal, input, now) =>
      if ProducerPrincipal(principal, input).Err? || Normalize(input, now, true).Err? then s
      else s.(waiting := s.waiting[client := Entry(Normalize(input, now, true).value, ProducerPrincipal(principal, input).value.serviceId)])
    case Enter(client) => if client in s.waiting then AfterEnter(s, client, s.waiting[client]) else s
    case Write(items, fault) => if s.section.Writing? then AfterWrite(s, Document(REGISTRY_VERSION, items), fault) else s
    case Rename(ok) => if s.section.Renaming? then AfterRename(s, s.section.entry, ok) else s
    case Answer =>
      if s.section.Answering? then s.(section := Idle, reports := s.reports + [Accepted(s.section.entry.envelope)]) else s
    case Get(id) => if id in s.mem then s.(reports := s.reports + [Read(s.mem[id])]) else s
    case Crash(left) => Sys(false, map[], Idle, map[], s.disk.(tmp := left), s.reports, s.deliveredBy)
    case Restart(now) =>
      match Loaded(s.disk.file, now)
      case Err(_) => s
      case Ok(m) => s.(up := true, mem := m)
  }

  /** The lock is taken: replay, conflict, or the memory update. */
  function AfterEnter(s: Sys, client: Client, d: Entry): Sys {
    var s := s.(waiting := s.waiting - {client});
    var id := d.envelope.id;
    if id in s.mem then
      if s.mem[id] == d.envelope then s.(reports := s.reports + [Replayed(s.mem[id])]) else s
    else s.(mem := s.mem[id := d.envelope], section := Writing(d))
  }

  /** The write to path.tmp; when anything fails the entry is taken out of memory again. */
  function AfterWrite(s: Sys, doc: Document, fault: Fault<Document>): Sys
    requires s.section.Writing?
  {
    if fault.NoFault? || fault.RenameFails? then
      s.(disk := s.disk.(tmp := Holds(doc)), section := Renaming(s.section.entry))
    else
      s.(disk := AfterPersist(s.disk, doc, fault), mem := s.mem - {s.section.entry.envelope.id}, section := Idle)
  }

  function AfterRename(s: Sys, d: Entry, ok: bool): Sys {
    if ok then
      s.(disk := Cells(s.disk.tmp, Missing), section := Answering(d),
      deliveredBy := s.deliveredBy[d.envelope.id := d.serviceId])
    else
      s.(mem := s.mem - {d.envelope.id}, section := Idle)
  }

  ghost predicate IsRun(trace: seq<Sys>, steps: seq<Step>) {
    && |trace| == |steps| + 1
    && IsStart(trace[0])
    && forall i :: 0 <= i < |steps| ==> Enabled(trace[i], steps[i]) && trace[i + 1] == Next(trace[i], steps[i])
  }

  // ---------- the invariant ----------

  /** The map the file stands for. */
  function FileMap(file: Content<Document>): Contents {
    if file.Holds? then Keyed.MapOf(Canonicals(file.doc.envelopes), Key) else map[]
  }

  /** Fit to be stored, and delivered by the producer it names. */
  ghost predicate Genuine(d: Entry) {
    Stored(d.envelope) && d.serviceId == Name(d.envelope.producer.system)
  }

  ghost predicate Extends(big: Contents, small: Contents) {
    forall id :: id in small ==> id in big && big[id] == small[id]
  }

  /** Everything any caller was ever told is in the file, and only the first report of an
      ID can be its acceptance. */
  ghost predicate ReportsHold(reports: seq<Report>, file: Contents) {
    && (forall i :: 0 <= i < |reports| ==> reports[i].envelope.id in file && file[reports[i].envelope.id] == reports[i].envelope)
    && (forall i, j :: 0 <= i < j < |reports| && reports[i].envelope.id == reports[j].envelope.id ==> !reports[j].Accepted?)
  }

  ghost predicate DeliveriesHold(deliveredBy: map<string, string>, file: Contents) {
    && deliveredBy.Keys <= file.Keys
    && forall id :: id in deliveredBy ==> deliveredBy[id] == Name(file[id].producer.system)
  }

  /** While a section is open, memory is the file plus the one new entry; once renamed, the
      entry is in the file, and nobody has been told of it yet. */
  ghost predicate SectionHolds(s: Sys, file: Contents) {
    match s.section
    case Idle => s.up ==> s.mem == file
    case Writing(d) => s.up && Genuine(d) && d.envelope.id !in file && s.mem == file[d.envelope.id := d.envelope]
    case Renaming(d) =>
      && s.up && Genuine(d) && d.envelope.id !in file && s.mem == file[d.envelope.id := d.envelope]
      && s.disk.tmp.Holds? && InSync(s.disk.tmp, s.mem)
    case Answering(d) =>
      && s.up && s.mem == file && d.envelope.id in file && file[d.envelope.id] == d.envelope
      && forall i :: 0 <= i < |s.reports| ==> s.reports[i].envelope.id != d.envelope.id
  }

  ghost predicate Inv(s: Sys) {
    var file := FileMap(s.disk.file);
    && Legal(file)
    && InSync(s.disk.file, file)
    && SectionHolds(s, file)
    && (forall c :: c in s.waiting ==> Genuine(s.waiting[c]))
    && ReportsHold(s.reports, file)
    && DeliveriesHold(s.deliveredBy, file)
  }

  lemma InSyncIsFileMap(file: Content<Document>, m: Contents)
    requires InSync(file, m)
    ensures FileMap(file) == m
  {
    if file.Holds? { Keyed.ListsGivesMap(Canonicals(file.doc.envelopes), m, Key); }
  }

  lemma LegalWith(m: Contents, e: Envelope)
    ensures Legal(m) && Stored(e) ==> Legal(m[e.id := e])
  {
    hide Stored;
  }

  lemma SubmitKeepsInv(s: Sys, step: Step)
    requires Inv(s) && step.Submit? && Enabled(s, step)
    ensures Inv(Next(s, step)) && Next(s, step).disk == s.disk
  {
    hide Normalize, Stored, Legal, InSync, FileMap;
    SystemIsKept(step.input, step.now);
    NormalizeIsStable(step.input, step.now, step.now, true);
  }

  lemma EnterKeepsInv(s: Sys, step: Step)
    requires Inv(s) && step.Enter? && Enabled(s, step)
    ensures Inv(Next(s, step)) && Next(s, step).disk == s.disk
  {
    hide Stored, Legal, InSync, FileMap;
  }

  lemma RollBack(file: Contents, e: Envelope)
    requires e.id !in file
    ensures file[e.id := e] - {e.id} == file
  {
  }

  lemma WriteKeepsInv(s: Sys, doc: Document, fault: Fault<Document>)
    requires Inv(s) && s.section.Writing?
    requires doc.version == REGISTRY_VERSION && Keyed.Lists(doc.envelopes, s.mem, Key)
    ensures Inv(AfterWrite(s, doc, fault)) && AfterWrite(s, doc, fault).disk.file == s.disk.file
  {
    hide Stored, FileMap, Canonicals;
    RollBack(FileMap(s.disk.file), s.section.entry.envelope);
    LegalWith(FileMap(s.disk.file), s.section.entry.envelope);
    CanonicalsOfLegal(s.mem, doc.envelopes);
  }

  lemma RenameFailureKeepsInv(s: Sys)
    requires Inv(s) && s.section.Renaming?
    ensures Inv(AfterRename(s, s.section.entry, false))
  {
    hide Stored, Legal, FileMap, Genuine, InSync;
    RollBack(FileMap(s.disk.file), s.section.entry.envelope);
  }

  lemma RenameKeepsInv(s: Sys)
    requires Inv(s) && s.section.Renaming?
    ensures Inv(AfterRename(s, s.section.entry, true))
    ensures FileMap(s.disk.tmp) == FileMap(s.disk.file)[s.section.entry.envelope.id := s.section.entry.envelope]
  {
    hide Stored, FileMap, InSync;
    LegalWith(FileMap(s.disk.file), s.section.entry.envelope);
    InSyncIsFileMap(s.disk.tmp, s.mem);
    hide Legal;
  }

  lemma AnswerKeepsInv(s: Sys)
    requires Inv(s) && s.section.Answering?
    ensures Inv(Next(s, Answer)) && Next(s, Answer).disk == s.disk && s.reports <= Next(s, Answer).reports
  {
    hide Stored, Legal, InSync, FileMap;
  }

  lemma SectionStepKeepsInv(s: Sys, step: Step)
    requires Inv(s) && Enabled(s, step) && (step.Write? || step.Rename? || step.Answer?)
    ensures Inv(Next(s, step))
    ensures Extends(FileMap(Next(s, step).disk.file), FileMap(s.disk.file))
    ensures s.reports <= Next(s, step).reports
  {
    hide Inv, FileMap;
    if step.Write? {
      WriteKeepsInv(s, Document(REGISTRY_VERSION, step.items), step.fault);
    } else if step.Answer? {
      AnswerKeepsInv(s);
    } else if step.ok {
      RenameKeepsInv(s);
      NewInFile(s);
    } else {
      RenameFailureKeepsInv(s);
    }
  }

  lemma NewInFile(s: Sys)
    requires Inv(s) && s.section.Renaming?
    ensures s.section.entry.envelope.id !in FileMap(s.disk.file)
  {
  }

  lemma RestartKeepsInv(s: Sys, step: Step)
    requires Inv(s) && step.Restart? && Enabled(s, step)
    ensures Inv(Next(s, step)) && Next(s, step).disk == s.disk
  {
    hide Stored, Legal, InSync, Loaded, FileMap, Genuine, ReportsHold, DeliveriesHold;
    RestartIsTransparent(s.disk.file, FileMap(s.disk.file), step.now);
  }

  lemma CrashKeepsInv(s: Sys, step: Step)
    requires Inv(s) && step.Crash? && Enabled(s, step)
    ensures Inv(Next(s, step)) && Next(s, step).disk.file == s.disk.file
  {
    hide Stored, Legal, InSync, FileMap;
  }

  lemma GetKeepsInv(s: Sys, step: Step)
    requires Inv(s) && step.Get? && Enabled(s, step)
    ensures Inv(Next(s, step)) && Next(s, step).disk == s.disk
  {
    hide Stored, InSync, FileMap;
  }

  /** Every step keeps the invariant, and the file only ever gains envelopes. */
  lemma StepKeepsInv(s: Sys, step: Step)
    requires Inv(s) && Enabled(s, step)
    ensures Inv(Next(s, step))
    ensures Extends(FileMap(Next(s, step).disk.file), FileMap(s.disk.file))
    ensures s.reports <= Next(s, step).reports
  {
    hide Inv, FileMap, Normalize, Loaded, AfterPersist, Enabled, Stored, Outcome;
    match step
    case Submit(_, _, _, _) => SubmitKeepsInv(s, step);
    case Enter(_) => EnterKeepsInv(s, step);
    case Restart(_) => RestartKeepsInv(s, step);
    case Crash(_) => CrashKeepsInv(s, step);
    case Get(_) => GetKeepsInv(s, step);
    case _ => SectionStepKeepsInv(s, step);
  }

  lemma {:induction false} RunKeepsInv(trace: seq<Sys>, steps: seq<Step>, i: nat)
    requires IsRun(trace, steps) && i < |trace|
    ensures Inv(trace[i])
  {
    hide Enabled, Next, Legal, InSync, FileMap;
    if i > 0 {
      RunKeepsInv(trace, steps, i - 1);
      StepKeepsInv(trace[i - 1], steps[i - 1]);
    }
  }

  lemma {:induction false} RunOnlyAdds(trace: seq<Sys>, steps: seq<Step>, i: nat, j: nat)
    requires IsRun(trace, steps) && i <= j < |trace|
    ensures Extends(FileMap(trace[j].disk.file), FileMap(trace[i].disk.file))
    ensures trace[i].reports <= trace[j].reports
  {
    hide Inv, Enabled, Next, FileMap;
    if i < j {
      RunOnlyAdds(trace, steps, i, j - 1);
      RunKeepsInv(trace, steps, j - 1);
      StepKeepsInv(trace[j - 1], steps[j - 1]);
    }
  }

  // ---------- what runs promise ----------

  /** In every run: an ID in the file keeps its content for ever; two reports of one ID
      show the same envelope and only the first can be an acceptance; and whatever was
      once reported is still in the file, and in memory whenever no section is open. */
  lemma OneContentForEver(trace: seq<Sys>, steps: seq<Step>, i: nat, j: nat)
    requires IsRun(trace, steps) && i <= j < |trace|
    ensures Extends(FileMap(trace[j].disk.file), FileMap(trace[i].disk.file))
    ensures forall p, q :: 0 <= p < q < |trace[j].reports| && trace[j].reports[p].envelope.id == trace[j].reports[q].envelope.id ==>
              trace[j].reports[p].envelope == trace[j].reports[q].envelope && !trace[j].reports[q].Accepted?
    ensures forall p :: 0 <= p < |trace[i].reports| ==>
              var e := trace[i].reports[p].envelope;
              && e.id in FileMap(trace[j].disk.file) && FileMap(trace[j].disk.file)[e.id] == e
              && (trace[j].up && trace[j].section.Idle? ==> e.id in trace[j].mem && trace[j].mem[e.id] == e)
  {
    RunOnlyAdds(trace, steps, i, j);
    RunKeepsInv(trace, steps, i);
    RunKeepsInv(trace, steps, j);
    hide Enabled, Next, FileMap, Legal, InSync, DeliveriesHold, Genuine;
  }

  /** Whenever no record is in its locked part, memory is the decoded file. */
  lemma MemoryIsFile(trace: seq<Sys>, steps: seq<Step>, i: nat)
    requires IsRun(trace, steps) && i < |trace|
    requires trace[i].up && trace[i].section.Idle?
    ensures InSync(trace[i].disk.file, trace[i].mem) && FileMap(trace[i].disk.file) == trace[i].mem
  {
    RunKeepsInv(trace, steps, i);
    hide Enabled, Next, FileMap, Stored;
  }

  /** A restart attempt in any run succeeds exactly when no stored observation lies after
      the clock, and then memory is exactly the map the file stands for. */
  lemma RestartInRun(trace: seq<Sys>, steps: seq<Step>, i: nat)
    requires IsRun(trace, steps) && i < |steps| && steps[i].Restart?
    ensures var file := FileMap(trace[i].disk.file);
            && (trace[i + 1].up <==> forall id :: id in file ==> file[id].observedAt.instant <= steps[i].now.instant)
            && (trace[i + 1].up ==> trace[i + 1].mem == file)
  {
    hide Inv, FileMap;
    RunKeepsInv(trace, steps, i);
    RestartFrom(trace[i], steps[i].now);
  }

  lemma RestartFrom(s: Sys, now: Time)
    requires Inv(s) && !s.up
    ensures var file, s' := FileMap(s.disk.file), Next(s, Restart(now));
            && (s'.up <==> forall id :: id in file ==> file[id].observedAt.instant <= now.instant)
            && (s'.up ==> s'.mem == file)
  {
    hide Loaded, FileMap, InSync, Stored;
    RestartIsTransparent(s.disk.file, FileMap(s.disk.file), now);
  }

  /** A crash between operations and a restart at an instant not before the newest stored
      observation restore the very same memory. */
  lemma CrashThenRestart(trace: seq<Sys>, steps: seq<Step>, i: nat)
    requires IsRun(trace, steps) && i + 1 < |steps|
    requires trace[i].section.Idle? && steps[i].Crash? && steps[i + 1].Restart?
    requires forall id :: id in trace[i].mem ==> trace[i].mem[id].observedAt.instant <= steps[i + 1].now.instant
    ensures trace[i + 2].up && trace[i + 2].mem == trace[i].mem
  {
    assert trace[i].up && trace[i + 1].disk.file == trace[i].disk.file;
    hide Enabled, Next, FileMap;
    MemoryIsFile(trace, steps, i);
    RestartInRun(trace, steps, i + 1);
  }

  /** A step puts nothing into the file that it does not note as delivered. */
  lemma StepNotesDelivery(s: Sys, step: Step)
    requires Inv(s) && Enabled(s, step)
    ensures s.deliveredBy.Keys <= Next(s, step).deliveredBy.Keys
    ensures FileMap(Next(s, step).disk.file).Keys <= FileMap(s.disk.file).Keys + Next(s, step).deliveredBy.Keys
  {
    hide Inv, FileMap, Normalize, Loaded, AfterPersist, Stored, ProducerPrincipal;
    if step.Rename? && step.ok { RenameKeepsInv(s); }
    if step.Write? { WriteKeepsInv(s, Document(REGISTRY_VERSION, step.items), step.fault); }
  }

  lemma {:induction false} NewIsDelivered(trace: seq<Sys>, steps: seq<Step>, i: nat)
    requires IsRun(trace, steps) && i < |trace|
    ensures FileMap(trace[i].disk.file).Keys <= FileMap(trace[0].disk.file).Keys + trace[i].deliveredBy.Keys
  {
    hide Inv, Enabled, Next, FileMap;
    if i > 0 {
      NewIsDelivered(trace, steps, i - 1);
      RunKeepsInv(trace, steps, i - 1);
      StepNotesDelivery(trace[i - 1], steps[i - 1]);
    }
  }

  lemma AuthorityOf(s: Sys, a: string, b: string)
    requires Inv(s) && a in FileMap(s.disk.file) && b in FileMap(s.disk.file)
    ensures var file := FileMap(s.disk.file);
            && (file[a].domain == file[b].domain ==> file[a].producer.system == file[b].producer.system)
            && (file[a].producer.contract == file[b].producer.contract ==> file[a].producer.system == file[b].producer.system)
            && (a in s.deliveredBy ==> s.deliveredBy[a] == Name(file[a].producer.system))
  {
    hide FileMap, Stored, InSync, SectionHolds, ReportsHold, Genuine, Name;
    StoredAuthority(FileMap(s.disk.file)[a], FileMap(s.disk.file)[b]);
  }

  /** Across all runs the domain alone, and the contract alone, determine the producer of
      a stored envelope, and that producer's own principal delivered every envelope that was
      not in the file to begin with. */
  lemma AuthorityInRun(trace: seq<Sys>, steps: seq<Step>, i: nat, a: string, b: string)
    requires IsRun(trace, steps) && i < |trace|
    ensures var file := FileMap(trace[i].disk.file);
            a in file && b in file ==>
              && (file[a].domain == file[b].domain ==> file[a].producer.system == file[b].producer.system)
              && (file[a].producer.contract == file[b].producer.contract ==> file[a].producer.system == file[b].producer.system)
              && (a in FileMap(trace[0].disk.file) || a in trace[i].deliveredBy)
              && (a in trace[i].deliveredBy ==> trace[i].deliveredBy[a] == Name(file[a].producer.system))
  {
    RunKeepsInv(trace, steps, i);
    NewIsDelivered(trace, steps, i);
    assert |trace| > 0;
    hide IsRun, Inv, FileMap, Name;
    var file := FileMap(trace[i].disk.file);
    if a in file && b in file { AuthorityOf(trace[i], a, b); }
  }

  /** What readers see only grows, restarts included. */
  lemma VisibleGrows(trace: seq<Sys>, steps: seq<Step>, i: nat, j: nat)
    requires IsRun(trace, steps) && i <= j < |trace|
    requires trace[i].up && trace[i].section.Idle? && trace[j].up && trace[j].section.Idle?
    ensures Extends(trace[j].mem, trace[i].mem)
  {
    hide Enabled, Next, FileMap;
    RunOnlyAdds(trace, steps, i, j);
    MemoryIsFile(trace, steps, i);
    MemoryIsFile(trace, steps, j);
  }

  /** A locked part that nothing interrupts; where it ends early, the later steps do nothing. */
  function OneRecord(s: Sys, client: Client, items: seq<Envelope>, fault: Fault<Document>): Sys {
    var entered := Next(s, Enter(client));
    var written := Next(entered, Write(items, fault));
    var renamed := Next(written, Rename(fault.NoFault?));
    Next(renamed, Answer)
  }

  function Told(answer: Result<Recorded, RecordError>): seq<Report> {
    match answer
    case Err(_) => []
    case Ok(done) => if done.replayed then [Replayed(done.envelope)] else [Accepted(done.envelope)]
  }

  /** It does what one call of the registry's record does: the same map, the same files and
      the same answer. */
  lemma SectionIsOneRecord(s: Sys, client: Client, v: Envelope, now: Time, items: seq<Envelope>, fault: Fault<Document>)
    requires s.up && s.section.Idle? && client in s.waiting
    ensures Normalize(v, now, true) == Ok(s.waiting[client].envelope) ==>
              var (m, answer) := Outcome(s.mem, v, now, fault.NoFault?);
              var done := OneRecord(s, client, items, fault);
              && done.section.Idle? && done.mem == m && done.reports == s.reports + Told(answer)
              && done.disk == if s.waiting[client].envelope.id in s.mem then s.disk else AfterPersist(s.disk, Document(REGISTRY_VERSION, items), fault)
  {
    hide Normalize, Stored, Loaded, ProducerPrincipal, AfterPersist, Next;
    var d := s.waiting[client];
    EnterIsAfterEnter(s, client);
    if d.envelope.id in s.mem {
      NothingToWrite(AfterEnter(s, client, d), items, fault);
    } else {
      RollBack(s.mem, d.envelope);
      OneWrite(AfterEnter(s, client, d), d, items, fault);
    }
  }

  lemma EnterIsAfterEnter(s: Sys, client: Client)
    requires client in s.waiting
    ensures Next(s, Enter(client)) == AfterEnter(s, client, s.waiting[client])
  {
    hide AfterEnter;
  }

  lemma NothingToWrite(s: Sys, items: seq<Envelope>, fault: Fault<Document>)
    requires s.section.Idle?
    ensures Next(Next(Next(s, Write(items, fault)), Rename(fault.NoFault?)), Answer) == s
  {
  }

  /** Write, rename and answer of one entry. */
  lemma OneWrite(s: Sys, d: Entry, items: seq<Envelope>, fault: Fault<Document>)
    requires s.up && s.section == Writing(d)
    ensures var done := Next(Next(Next(s, Write(items, fault)), Rename(fault.NoFault?)), Answer);
            && done.section.Idle?
            && done.mem == (if fault.NoFault? then s.mem else s.mem - {d.envelope.id})
            && done.reports == s.reports + (if fault.NoFault? then [Accepted(d.envelope)] else [])
            && done.disk == AfterPersist(s.disk, Document(REGISTRY_VERSION, items), fault)
  {
    hide Normalize, Loaded, ProducerPrincipal, AfterPersist;
    PersistCases(s.disk, Document(REGISTRY_VERSION, items), fault);
  }

  lemma PersistCases(before: Cells<Document>, doc: Document, fault: Fault<Document>)
    ensures fault.NoFault? ==> AfterPersist(before, doc, fault) == Cells(Holds(doc), Missing)
    ensures fault.RenameFails? ==> AfterPersist(before, doc, fault) == Cells(before.file, Holds(doc))
  {
  }

  /** The status endpoint's two readings, at any two moments of a run: the sums of the
      per-producer counts of the first never exceed the totals of the second. */
  lemma StatusInRun(trace: seq<Sys>, steps: seq<Step>, i: nat, j: nat, listing: seq<Envelope>, t: Time, producers: seq<string>)
    requires IsRun(trace, steps) && i <= j < |trace|
    requires trace[i].up && trace[i].section.Idle? && trace[j].up && trace[j].section.Idle?
    requires IsListing(trace[i].mem, listing)
    requires forall p, q :: 0 <= p < q < |producers| ==> producers[p] != producers[q]
    requires forall e :: e in listing ==> ProducerName(e) in producers
    ensures SumCurrent(listing, t, producers) <= |FreshIds(trace[j].mem, t)|
    ensures SumStale(listing, t, producers) <= |trace[j].mem| - |FreshIds(trace[j].mem, t)|
  {
    MemoryIsLegal(trace, steps, i);
    VisibleGrows(trace, steps, i, j);
    hide Enabled, Next, IsRun, IsListing, Legal, SumCurrent, SumStale, FreshIds, ProducerName;
    StatusIsSound(trace[i].mem, listing, trace[j].mem, t, producers);
  }

  lemma MemoryIsLegal(trace: seq<Sys>, steps: seq<Step>, i: nat)
    requires IsRun(trace, steps) && i < |trace|
    requires trace[i].up && trace[i].section.Idle?
    ensures Legal(trace[i].mem)
  {
    RunKeepsInv(trace, steps, i);
    hide Enabled, Next, FileMap, Stored, InSync, IsRun;
  }
}

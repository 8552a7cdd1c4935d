/** Whole runs of the durable store: registrations and relationships from any number of
    clients, writes that fail without being undone in memory, crashes and restarts. The
    endpoint checks of a relationship happen before, and outside, its put. */
module StoreRuns {
  import opened Wrappers
  import opened MeshModel
  import opened Disk
  import opened Store
  import Sorting

  type Client = string

  /** A relationship on its way in, with the endpoints found so far. */
  datatype Pending = Pending(r: Relationship, sourceSeen: bool, targetSeen: bool)

  datatype Section = Idle | Writing | Renaming

  datatype Sys = Sys(up: bool, mem: State, section: Section, pending: map<Client, Pending>, disk: Cells<State>)

  datatype Step =
    | RegisterService(s: MeshModel.Service)
    | Propose(client: Client, r: Relationship)
    | CheckSource(client: Client)
    | CheckTarget(client: Client)
    | PutRelationship(client: Client)
    | Write(fault: Fault<State>)
    | Rename(ok: bool)
    | Crash(left: Content<State>)
    | Restart

  /** Before the first start: nothing, or any file that stands for an integral state, and
      anything left in the temporary file. */
  ghost predicate IsStart(s: Sys) {
    s == Sys(false, NO_STATE, Idle, map[], s.disk) && FileHolds(s.disk.file)
  }

  ghost predicate Enabled(s: Sys, step: Step) {
    match step
    case RegisterService(v) => s.up && s.section.Idle? && Registrable(v)
    case Propose(_, r) => s.up && Proper(r)
    case CheckSource(c) => s.up && s.section.Idle? && c in s.pending
    case CheckTarget(c) => s.up && s.section.Idle? && c in s.pending && s.pending[c].sourceSeen
    case PutRelationship(c) => s.up && s.section.Idle? && c in s.pending && s.pending[c].sourceSeen && s.pending[c].targetSeen
    case Write(_) => s.up && s.section.Writing?
    case Rename(_) => s.up && s.section.Renaming?
    case Crash(left) => s.up && (s.section.Writing? || left == s.disk.tmp)
    case Restart => !s.up
  }

  function Next(s: Sys, step: Step): Sys {
    match step
    case RegisterService(v) => s.(mem := WithService(s.mem, v), section := Writing)
    case Propose(c, r) => s.(pending := s.pending[c := Pending(r, false, false)])
    case CheckSource(c) => if c in s.pending then AfterCheck(s, c, s.pending[c].r.from in s.mem.services, true) else s
    case CheckTarget(c) => if c in s.pending then AfterCheck(s, c, s.pending[c].r.to in s.mem.services, false) else s
    case PutRelationship(c) =>
      if c in s.pending then s.(mem := WithRelationship(s.mem, s.pending[c].r), section := Writing, pending := s.pending - {c}) else s
    case Write(fault) =>
      if fault.NoFault? || fault.RenameFails? then s.(disk := s.disk.(tmp := Holds(s.mem)), section := Renaming)
      else s.(disk := AfterPersist(s.disk, s.mem, fault), section := Idle)
    case Rename(ok) => if ok then s.(disk := Cells(s.disk.tmp, Missing), section := Idle) else s.(section := Idle)
    case Crash(left) => Sys(false, NO_STATE, Idle, map[], s.disk.(tmp := left))
    case Restart => match Loaded(s.disk.file) case Err(_) => s case Ok(st) => s.(up := true, mem := st)
  }

  /** An endpoint that is not registered ends the request. */
  function AfterCheck(s: Sys, c: Client, found: bool, source: bool): Sys
    requires c in s.pending
  {
    if !found then s.(pending := s.pending - {c})
    else if source then s.(pending := s.pending[c := s.pending[c].(sourceSeen := true)])
    else s.(pending := s.pending[c := s.pending[c].(targetSeen := true)])
  }

  ghost predicate IsRun(trace: seq<Sys>, steps: seq<Step>) {
    && |trace| == |steps| + 1
    && IsStart(trace[0])
    && forall i :: 0 <= i < |steps| ==> Enabled(trace[i], steps[i]) && trace[i + 1] == Next(trace[i], steps[i])
  }

  // ---------- the invariant ----------

  /** The state the file stands for. */
  function FileState(file: Content<State>): State {
    if file.Holds? then file.doc else NO_STATE
  }

  ghost predicate FileHolds(file: Content<State>) {
    !file.Malformed? && Integral(FileState(file))
  }

  /** An endpoint that was seen is still registered: services are never removed. */
  ghost predicate PendingHolds(pending: map<Client, Pending>, mem: State) {
    forall c :: c in pending ==>
                  && Proper(pending[c].r)
                  && (pending[c].sourceSeen ==> pending[c].r.from in mem.services)
                  && (pending[c].targetSeen ==> pending[c].r.to in mem.services)
  }

  /** Memory never lacks a service or relationship that the file has. */
  ghost predicate Covers(mem: State, file: State) {
    file.services.Keys <= mem.services.Keys && file.relationships.Keys <= mem.relationships.Keys
  }

  ghost predicate Inv(s: Sys) {
    && Integral(s.mem)
    && FileHolds(s.disk.file)
    && PendingHolds(s.pending, s.mem)
    && (s.up ==> Covers(s.mem, FileState(s.disk.file)))
    && (s.section.Renaming? ==> s.up && s.disk.tmp == Holds(s.mem))
    && (!s.up ==> s.section.Idle? && s.pending == map[])
  }

  lemma PutsKeepInv(s: Sys, step: Step)
    requires Inv(s) && Enabled(s, step) && (step.RegisterService? || step.PutRelationship?)
    ensures Inv(Next(s, step))
  {
    hide Registrable, Proper, FileHolds;
    if step.RegisterService? {
      ServicePutKeepsIntegrity(s.mem, step.s);
    } else {
      RelationshipPutKeepsIntegrity(s.mem, s.pending[step.client].r);
    }
  }

  lemma NothingIsIntegral()
    ensures Integral(NO_STATE)
  {
  }

  /** Every step keeps the invariant, and what the file lists it lists for ever. */
  lemma StepKeepsInv(s: Sys, step: Step)
    requires Inv(s) && Enabled(s, step)
    ensures Inv(Next(s, step))
    ensures Covers(FileState(Next(s, step).disk.file), FileState(s.disk.file))
  {
    hide Integral, Registrable, Proper, WithService, WithRelationship;
    NothingIsIntegral();
    if step.RegisterService? || step.PutRelationship? {
      PutsKeepInv(s, step);
    }
  }

  lemma {:induction false} RunKeepsInv(trace: seq<Sys>, steps: seq<Step>, i: nat)
    requires IsRun(trace, steps) && i < |trace|
    ensures Inv(trace[i])
  {
    if i == 0 {
      NothingIsIntegral();
    } else {
      RunKeepsInv(trace, steps, i - 1);
      StepKeepsInv(trace[i - 1], steps[i - 1]);
    }
  }

  // ---------- what runs promise ----------

  /** Referential integrity survives failed writes, crashes and restarts, in memory and in
      the file: records are kept under their own ids, services have a name and a kind, and the
      two ends of a relationship are registered and differ. */
  lemma IntegrityInEveryRun(trace: seq<Sys>, steps: seq<Step>, i: nat, st: State)
    requires IsRun(trace, steps) && i < |trace| && (st == trace[i].mem || trace[i].disk.file == Holds(st))
    ensures !trace[i].disk.file.Malformed?
    ensures forall k :: k in st.services ==>
              var s := st.services[k];
              s.id == k != "" && s.name != "" && s.kind != "" && s.health in ["unknown", "healthy", "degraded", "unavailable"]
    ensures forall k :: k in st.relationships ==>
              var r := st.relationships[k];
              r.id == k != "" && r.kind != "" && r.from in st.services && r.to in st.services && r.from != r.to
    ensures Integral(st)
  {
    RunKeepsInv(trace, steps, i);
    hide IsRun, Sorting.Sorted;
  }

  /** The file is always the first one or a complete snapshot of some earlier memory, never a
      mixture. */
  lemma {:induction false} FileIsSomeMemory(trace: seq<Sys>, steps: seq<Step>, i: nat)
    requires IsRun(trace, steps) && i < |trace|
    ensures trace[i].disk.file == trace[0].disk.file || exists k :: 0 <= k <= i && trace[k].up && trace[i].disk.file == Holds(trace[k].mem)
  {
    hide Integral, Registrable, Proper;
    if i > 0 {
      FileIsSomeMemory(trace, steps, i - 1);
      RunKeepsInv(trace, steps, i - 1);
      var s, step := trace[i - 1], steps[i - 1];
      if step.Rename? && step.ok {
        assert trace[i - 1].up && trace[i].disk.file == Holds(trace[i - 1].mem);
      } else {
        assert trace[i].disk.file == s.disk.file;
      }
    }
  }

  /** A put that reports success leaves the file equal to memory. */
  lemma SuccessIsDurable(trace: seq<Sys>, steps: seq<Step>, i: nat)
    requires IsRun(trace, steps) && i < |steps| && steps[i] == Rename(true)
    ensures trace[i + 1].disk.file == Holds(trace[i + 1].mem) && trace[i + 1].section.Idle?
  {
    RunKeepsInv(trace, steps, i);
  }

  /** A restart always succeeds and gives back what the file stands for. */
  lemma RestartGivesFile(trace: seq<Sys>, steps: seq<Step>, i: nat)
    requires IsRun(trace, steps) && i < |steps| && steps[i].Restart?
    ensures trace[i + 1].up && trace[i + 1].mem == FileState(trace[i].disk.file)
  {
    RunKeepsInv(trace, steps, i);
    hide Integral;
  }

  /** What the file once lists, every later file lists, and every later memory. */
  lemma {:induction false} FilesOnlyGrow(trace: seq<Sys>, steps: seq<Step>, i: nat, j: nat)
    requires IsRun(trace, steps) && i <= j < |trace|
    ensures Covers(FileState(trace[j].disk.file), FileState(trace[i].disk.file))
    ensures trace[j].up ==> Covers(trace[j].mem, FileState(trace[i].disk.file))
  {
    hide Inv, Enabled, Next, FileState;
    RunKeepsInv(trace, steps, j);
    UpCovers(trace[j]);
    if i < j {
      FilesOnlyGrow(trace, steps, i, j - 1);
      RunKeepsInv(trace, steps, j - 1);
      StepKeepsInv(trace[j - 1], steps[j - 1]);
    }
  }

  lemma UpCovers(s: Sys)
    requires Inv(s)
    ensures s.up ==> Covers(s.mem, FileState(s.disk.file))
  {
    hide Integral;
  }

  /** A locked part that nothing interrupts. */
  function OnePut(s: Sys, step: Step, fault: Fault<State>): Sys {
    var written := Next(Next(s, step), Write(fault));
    if written.section.Idle? then written else Next(written, Rename(fault.NoFault?))
  }

  /** It does what one put of the store does: the same memory, and the same files whether or
      not the write fails. */
  lemma SectionIsOnePut(s: Sys, step: Step, fault: Fault<State>)
    requires s.up && s.section.Idle? && Enabled(s, step) && (step.RegisterService? || step.PutRelationship?)
    ensures var done := OnePut(s, step, fault);
            && done.section.Idle?
            && done.mem == (if step.RegisterService? then WithService(s.mem, step.s) else WithRelationship(s.mem, s.pending[step.client].r))
            && done.disk == AfterPersist(s.disk, done.mem, fault)
  {
    hide Registrable, Proper;
  }

  /** A put that reported failure is not undone: a crash loses it, but the next successful
      write of anything else makes it durable. This is where the store differs from the
      evidence registries, which roll back. */
  lemma FailedPutMaySurface(s: Sys, a: MeshModel.Service, fault: Fault<State>, b: MeshModel.Service)
    requires Inv(s) && s.up && s.section.Idle?
    requires Registrable(a) && Registrable(b) && a.id != b.id && !fault.NoFault?
    ensures var failed := OnePut(s, RegisterService(a), fault);
            var crashed := Next(Next(failed, Crash(failed.disk.tmp)), Restart);
            var later := OnePut(failed, RegisterService(b), NoFault);
            && failed.disk.file == s.disk.file && failed.mem == WithService(s.mem, a)
            && crashed.up && crashed.mem == FileState(s.disk.file)
            && later.disk.file == Holds(WithService(WithService(s.mem, a), b))
            && later.disk.file.doc.services[a.id] == a
  {
    hide Integral, Registrable, Proper;
  }
}

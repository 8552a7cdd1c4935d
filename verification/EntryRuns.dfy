/** Whole runs of a registry that keeps the latest accepted entry for each key: recordings,
    failed writes that are rolled back, a crash between any two steps, and restarts. The
    registries of runtime evidence and of recovery evidence are the two kinds of it. */
module EntryRuns {
  import opened Wrappers
  import opened GoTime
  import opened Disk
  import Keyed

  /** What the two registries differ in: the key of an entry, which entries may be held, what
      an input becomes when it is accepted, and what a load makes of a file. */
  datatype Kind<!K, !V> = Kind(
    key: V -> K,
    fit: V -> bool,
    accept: (V, Time) -> Option<V>,
    load: (Content<seq<V>>, Time) -> Option<map<K, V>>)

  /** The locked part of Record; before is the entry that a rollback puts back. */
  datatype Section<+V> = Idle | Writing(entry: V, before: Option<V>) | Renaming(entry: V, before: Option<V>) | Answering(entry: V)

  /** commits lists every entry that reached the file, in order; answered every entry that a
      caller was told is recorded. They record history and decide nothing. */
  datatype Sys<K, +V> = Sys(
    up: bool,
    mem: map<K, V>,
    section: Section<V>,
    disk: Cells<seq<V>>,
    commits: seq<V>,
    answered: seq<V>)

  datatype Step<+V> =
    | Enter(input: V, now: Time)
    | Write(items: seq<V>, fault: Fault<seq<V>>)
    | Rename(ok: bool)
    | Answer
    | Crash(left: Content<seq<V>>)
    | Restart(now: Time)

  // ---------- maps and files ----------

  ghost predicate Legal<K(!new), V(!new)>(kind: Kind<K, V>, m: map<K, V>) {
    forall k :: k in m ==> kind.key(m[k]) == k && kind.fit(m[k])
  }

  ghost predicate InSync<K(!new), V(!new)>(kind: Kind<K, V>, file: Content<seq<V>>, m: map<K, V>) {
    match file
    case Missing => m == map[]
    case Blank => m == map[]
    case Malformed => false
    case Holds(items) => Keyed.Lists(items, m, kind.key)
  }

  /** The map the file stands for. */
  function FileMap<K, V>(kind: Kind<K, V>, file: Content<seq<V>>): map<K, V> {
    if file.Holds? then Keyed.MapOf(file.doc, kind.key) else map[]
  }

  /** Accepted entries may be held, and a file in step with a legal map loads as that map if it
      loads at all. */
  ghost predicate Lawful<K(!new), V(!new)>(kind: Kind<K, V>) {
    && (forall v, now :: kind.accept(v, now).Some? ==> kind.fit(kind.accept(v, now).value))
    && (forall file, m, now :: Legal(kind, m) && InSync(kind, file, m) && kind.load(file, now).Some? ==> kind.load(file, now) == Some(m))
  }

  // ---------- steps ----------

  ghost predicate Enabled<K(!new), V(!new)>(kind: Kind<K, V>, s: Sys<K, V>, step: Step<V>) {
    match step
    case Enter(input, now) => s.up && s.section.Idle? && kind.accept(input, now).Some?
    case Write(items, _) => s.up && s.section.Writing? && Keyed.Lists(items, s.mem, kind.key)
    case Rename(_) => s.up && s.section.Renaming?
    case Answer => s.up && s.section.Answering?
    case Crash(left) => s.up && (s.section.Writing? || left == s.disk.tmp)
    case Restart(_) => !s.up
  }

  function Next<K, V>(kind: Kind<K, V>, s: Sys<K, V>, step: Step<V>): Sys<K, V> {
    match step
    case Enter(input, now) => if kind.accept(input, now).Some? then AfterEnter(kind, s, kind.accept(input, now).value) else s
    case Write(items, fault) => if s.section.Writing? then AfterWrite(kind, s, items, fault) else s
    case Rename(ok) => if s.section.Renaming? then AfterRename(kind, s, s.section.entry, s.section.before, ok) else s
    case Answer => if s.section.Answering? then s.(section := Idle, answered := s.answered + [s.section.entry]) else s
    case Crash(left) => Sys(false, map[], Idle, s.disk.(tmp := left), s.commits, s.answered)
    case Restart(now) =>
      if kind.load(s.disk.file, now).Some? then s.(up := true, mem := kind.load(s.disk.file, now).value) else s
  }

  function Lookup<K, V>(m: map<K, V>, k: K): Option<V> {
    if k in m then Some(m[k]) else None
  }

  /** Put the old entry back, or take the new one out. */
  function RolledBack<K, V>(m: map<K, V>, k: K, before: Option<V>): map<K, V> {
    if before.Some? then m[k := before.value] else m - {k}
  }

  function AfterEnter<K, V>(kind: Kind<K, V>, s: Sys<K, V>, c: V): Sys<K, V> {
    s.(mem := s.mem[kind.key(c) := c], section := Writing(c, Lookup(s.mem, kind.key(c))))
  }

  function AfterWrite<K, V>(kind: Kind<K, V>, s: Sys<K, V>, items: seq<V>, fault: Fault<seq<V>>): Sys<K, V>
    requires s.section.Writing?
  {
    var c, before := s.section.entry, s.section.before;
    if fault.NoFault? || fault.RenameFails? then
      s.(disk := s.disk.(tmp := Holds(items)), section := Renaming(c, before))
    else
      s.(disk := AfterPersist(s.disk, items, fault), mem := RolledBack(s.mem, kind.key(c), before), section := Idle)
  }

  function AfterRename<K, V>(kind: Kind<K, V>, s: Sys<K, V>, c: V, before: Option<V>, ok: bool): Sys<K, V> {
    if ok then
      s.(disk := Cells(s.disk.tmp, Missing), section := Answering(c), commits := s.commits + [c])
    else
      s.(mem := RolledBack(s.mem, kind.key(c), before), section := Idle)
  }

  /** Before the first start: any file that stands for a legal map, and anything left in the
      temporary file. */
  ghost predicate IsStart<K(!new), V(!new)>(kind: Kind<K, V>, s: Sys<K, V>) {
    && !s.up && s.mem == map[] && s.section.Idle? && s.answered == []
    && Legal(kind, FileMap(kind, s.disk.file)) && InSync(kind, s.disk.file, FileMap(kind, s.disk.file))
    && s.commits == (if s.disk.file.Holds? then s.disk.file.doc else [])
  }

  ghost predicate IsRun<K(!new), V(!new)>(kind: Kind<K, V>, trace: seq<Sys<K, V>>, steps: seq<Step<V>>) {
    && |trace| == |steps| + 1
    && IsStart(kind, trace[0])
    && forall i :: 0 <= i < |steps| ==> Enabled(kind, trace[i], steps[i]) && trace[i + 1] == Next(kind, trace[i], steps[i])
  }

  // ---------- the invariant ----------

  /** While a section is open, memory is the file with the new entry, and the rollback knows
      what the file has in its place. */
  ghost predicate SectionHolds<K(!new), V(!new)>(kind: Kind<K, V>, s: Sys<K, V>, file: map<K, V>) {
    match s.section
    case Idle => s.up ==> s.mem == file
    case Writing(c, before) => s.up && kind.fit(c) && s.mem == file[kind.key(c) := c] && before == Lookup(file, kind.key(c))
    case Renaming(c, before) =>
      && s.up && kind.fit(c) && s.mem == file[kind.key(c) := c] && before == Lookup(file, kind.key(c))
      && s.disk.tmp.Holds? && InSync(kind, s.disk.tmp, s.mem)
    case Answering(c) => s.up && s.mem == file && c in s.commits
  }

  ghost predicate Inv<K(!new), V(!new)>(kind: Kind<K, V>, s: Sys<K, V>) {
    var file := FileMap(kind, s.disk.file);
    && Legal(kind, file) && InSync(kind, s.disk.file, file)
    && file == Keyed.MapOf(s.commits, kind.key)
    && (forall e :: e in s.answered ==> e in s.commits)
    && SectionHolds(kind, s, file)
  }

  lemma RollBack<K, V>(m: map<K, V>, k: K, v: V)
    ensures RolledBack(m[k := v], k, Lookup(m, k)) == m
  {
  }

  lemma EnterKeepsInv<K(!new), V(!new)>(kind: Kind<K, V>, s: Sys<K, V>, step: Step<V>)
    requires Lawful(kind) && Inv(kind, s) && step.Enter? && Enabled(kind, s, step)
    ensures Inv(kind, Next(kind, s, step))
  {
    hide Legal, InSync, FileMap, Keyed.MapOf;
  }

  lemma WriteKeepsInv<K(!new), V(!new)>(kind: Kind<K, V>, s: Sys<K, V>, items: seq<V>, fault: Fault<seq<V>>)
    requires Inv(kind, s) && s.section.Writing? && Keyed.Lists(items, s.mem, kind.key)
    ensures Inv(kind, AfterWrite(kind, s, items, fault))
  {
    hide Legal, FileMap, Keyed.MapOf;
    RollBack(FileMap(kind, s.disk.file), kind.key(s.section.entry), s.section.entry);
  }

  lemma RenameFailureKeepsInv<K(!new), V(!new)>(kind: Kind<K, V>, s: Sys<K, V>)
    requires Inv(kind, s) && s.section.Renaming?
    ensures Inv(kind, AfterRename(kind, s, s.section.entry, s.section.before, false))
  {
    hide Legal, InSync, FileMap, Keyed.MapOf;
    RollBack(FileMap(kind, s.disk.file), kind.key(s.section.entry), s.section.entry);
  }

  lemma RenameKeepsInv<K(!new), V(!new)>(kind: Kind<K, V>, s: Sys<K, V>)
    requires Inv(kind, s) && s.section.Renaming?
    ensures Inv(kind, AfterRename(kind, s, s.section.entry, s.section.before, true))
  {
    var c := s.section.entry;
    Keyed.ListsGivesMap(s.disk.tmp.doc, s.mem, kind.key);
    assert (s.commits + [c])[..|s.commits|] == s.commits;
    assert Keyed.MapOf(s.commits + [c], kind.key) == s.mem;
    hide Keyed.MapOf;
  }

  lemma RestartKeepsInv<K(!new), V(!new)>(kind: Kind<K, V>, s: Sys<K, V>, step: Step<V>)
    requires Lawful(kind) && Inv(kind, s) && step.Restart? && Enabled(kind, s, step)
    ensures Inv(kind, Next(kind, s, step))
  {
    hide Legal, InSync, FileMap, Keyed.MapOf;
  }

  /** Every step keeps the invariant, and history only grows. */
  lemma StepKeepsInv<K(!new), V(!new)>(kind: Kind<K, V>, s: Sys<K, V>, step: Step<V>)
    requires Lawful(kind) && Inv(kind, s) && Enabled(kind, s, step)
    ensures Inv(kind, Next(kind, s, step))
    ensures s.commits <= Next(kind, s, step).commits && s.answered <= Next(kind, s, step).answered
  {
    hide Lawful, Legal, InSync, FileMap, Keyed.MapOf;
    match step
    case Enter(_, _) => EnterKeepsInv(kind, s, step);
    case Write(items, fault) => WriteKeepsInv(kind, s, items, fault);
    case Rename(ok) => if ok { RenameKeepsInv(kind, s); } else { RenameFailureKeepsInv(kind, s); }
    case Restart(_) => RestartKeepsInv(kind, s, step);
    case _ =>
  }

  lemma {:induction false} RunKeepsInv<K(!new), V(!new)>(kind: Kind<K, V>, trace: seq<Sys<K, V>>, steps: seq<Step<V>>, i: nat)
    requires Lawful(kind) && IsRun(kind, trace, steps) && i < |trace|
    ensures Inv(kind, trace[i])
  {
    hide Lawful, Enabled, Next, Legal, InSync;
    if i > 0 {
      RunKeepsInv(kind, trace, steps, i - 1);
      StepKeepsInv(kind, trace[i - 1], steps[i - 1]);
    }
  }

  lemma {:induction false} HistoryGrows<K(!new), V(!new)>(kind: Kind<K, V>, trace: seq<Sys<K, V>>, steps: seq<Step<V>>, i: nat, j: nat)
    requires Lawful(kind) && IsRun(kind, trace, steps) && i <= j < |trace|
    ensures trace[i].commits <= trace[j].commits && trace[i].answered <= trace[j].answered
  {
    hide Lawful, Enabled, Next, Inv, IsStart;
    if i < j {
      HistoryGrows(kind, trace, steps, i, j - 1);
      RunKeepsInv(kind, trace, steps, j - 1);
      StepKeepsInv(kind, trace[j - 1], steps[j - 1]);
    }
  }

  // ---------- what runs promise ----------

  /** The file always stands for a legal map, and whenever no record is in its locked part,
      memory is that map. */
  lemma MemoryIsFile<K(!new), V(!new)>(kind: Kind<K, V>, trace: seq<Sys<K, V>>, steps: seq<Step<V>>, i: nat)
    requires Lawful(kind) && IsRun(kind, trace, steps) && i < |trace|
    ensures var file := FileMap(kind, trace[i].disk.file);
            && Legal(kind, file) && InSync(kind, trace[i].disk.file, file)
            && (trace[i].up && trace[i].section.Idle? ==> trace[i].mem == file)
  {
    RunKeepsInv(kind, trace, steps, i);
    hide IsRun, Lawful, FileMap, Legal, InSync;
  }

  /** The latest entry wins, and is durable: what once reached the file, and so whatever a
      caller was told is recorded, is in the file, and in memory between records, for as
      long as nothing else with its key reaches the file. Failed writes, crashes and restarts
      do not matter. */
  lemma LatestIsKept<K(!new), V(!new)>(kind: Kind<K, V>, trace: seq<Sys<K, V>>, steps: seq<Step<V>>, i: nat, j: nat, n: nat)
    requires Lawful(kind) && IsRun(kind, trace, steps) && i <= j < |trace|
    requires n < |trace[i].commits|
    ensures forall e :: e in trace[i].answered ==> e in trace[i].commits
    ensures n < |trace[j].commits|
    ensures var e, s := trace[i].commits[n], trace[j];
            (forall l :: n < l < |s.commits| ==> kind.key(s.commits[l]) != kind.key(e)) ==>
              && Lookup(FileMap(kind, s.disk.file), kind.key(e)) == Some(e)
              && (s.up && s.section.Idle? ==> Lookup(s.mem, kind.key(e)) == Some(e))
  {
    HistoryGrows(kind, trace, steps, i, j);
    RunKeepsInv(kind, trace, steps, i);
    RunKeepsInv(kind, trace, steps, j);
    hide IsRun, Lawful, FileMap, Legal, InSync;
    var e, s := trace[i].commits[n], trace[j];
    assert s.commits[n] == e;
    if forall l :: n < l < |s.commits| ==> kind.key(s.commits[l]) != kind.key(e) {
      Keyed.LastIsKept(s.commits, kind.key, n);
    }
  }

  /** After a crash and a restart that succeeds, memory is what the file stood for: all that
      was held before the crash, but for a record that was still in its write. */
  lemma CrashLosesOpenRecord<K(!new), V(!new)>(kind: Kind<K, V>, trace: seq<Sys<K, V>>, steps: seq<Step<V>>, i: nat)
    requires Lawful(kind) && IsRun(kind, trace, steps) && i + 1 < |steps|
    requires steps[i].Crash? && steps[i + 1].Restart? && trace[i + 2].up
    ensures var was, now := trace[i], trace[i + 2].mem;
            && now == FileMap(kind, was.disk.file)
            && match was.section
               case Idle => now == was.mem
               case Answering(_) => now == was.mem
               case Writing(c, _) => was.mem == now[kind.key(c) := c]
               case Renaming(c, _) => was.mem == now[kind.key(c) := c]
  {
    RunKeepsInv(kind, trace, steps, i);
    RunKeepsInv(kind, trace, steps, i + 2);
    assert Enabled(kind, trace[i], steps[i]) && Enabled(kind, trace[i + 1], steps[i + 1]);
    assert trace[i + 1] == Next(kind, trace[i], steps[i]) && trace[i + 2] == Next(kind, trace[i + 1], steps[i + 1]);
    hide IsRun, Lawful, FileMap, Legal, InSync;
  }

  /** A locked part that nothing interrupts. */
  function OneRecord<K, V>(kind: Kind<K, V>, s: Sys<K, V>, input: V, now: Time, items: seq<V>, fault: Fault<seq<V>>): Sys<K, V> {
    var entered := Next(kind, s, Enter(input, now));
    var written := Next(kind, entered, Write(items, fault));
    var renamed := Next(kind, written, Rename(fault.NoFault?));
    Next(kind, renamed, Answer)
  }

  /** It enters the accepted entry, in memory and file, or leaves both as they were. */
  lemma SectionIsOneRecord<K(!new), V(!new)>(kind: Kind<K, V>, s: Sys<K, V>, input: V, now: Time, items: seq<V>, fault: Fault<seq<V>>)
    requires s.up && s.section.Idle? && kind.accept(input, now).Some?
    ensures var c, done := kind.accept(input, now).value, OneRecord(kind, s, input, now, items, fault);
            && done.up && done.section.Idle?
            && done.mem == (if fault.NoFault? then s.mem[kind.key(c) := c] else s.mem)
            && done.disk == AfterPersist(s.disk, items, fault)
            && done.answered == s.answered + (if fault.NoFault? then [c] else [])
  {
    var c := kind.accept(input, now).value;
    RollBack(s.mem, kind.key(c), c);
  }
}

/** Whole runs of the persistent registry of recovery evidence. */
module RecoveryRuns {
  import opened Wrappers
  import opened GoTime
  import opened Disk
  import opened Recovery
  import Runs = EntryRuns

  type Sys = Runs.Sys<Dimension, Evidence>
  type Step = Runs.Step<Evidence>

  function Accept(e: Evidence, at: Time): Option<Evidence> {
    if Problem(e, at).None? then Some(e) else None
  }

  function LoadOf(file: Content<seq<Evidence>>, at: Time): Option<Contents> {
    if Loaded(file, at).Ok? then Some(Loaded(file, at).value) else None
  }

  ghost function Kind(): Runs.Kind<Dimension, Evidence> {
    Runs.Kind(Key, Sound, Accept, LoadOf)
  }

  lemma SameNotions(file: Content<seq<Evidence>>, m: Contents)
    ensures Runs.Legal(Kind(), m) <==> Legal(m)
    ensures Runs.InSync(Kind(), file, m) <==> InSync(file, m)
  {
    hide Sound;
  }

  lemma IsLawful()
    ensures Runs.Lawful(Kind())
  {
    hide Sound, Problem, Loaded, Runs.Legal, Runs.InSync, Legal, InSync;
    forall e, at | Accept(e, at).Some? ensures Sound(Accept(e, at).value) {
      VerdictMeaning(e, at);
    }
    forall file, m, at | Runs.Legal(Kind(), m) && Runs.InSync(Kind(), file, m) && LoadOf(file, at).Some?
      ensures LoadOf(file, at) == Some(m)
    {
      SameNotions(file, m);
      RestartExactly(file, m, at);
    }
  }

  /** At every point of every run, failed writes and crashes included: the file stands for a map
      that may be held, and whenever no record is in its locked part, memory is that map. */
  lemma MemoryIsFile(trace: seq<Sys>, steps: seq<Step>, i: nat)
    requires Runs.IsRun(Kind(), trace, steps) && i < |trace|
    ensures var file := Runs.FileMap(Kind(), trace[i].disk.file);
            && Legal(file) && InSync(trace[i].disk.file, file)
            && (trace[i].up && trace[i].section.Idle? ==> trace[i].mem == file)
  {
    IsLawful();
    hide Runs.IsRun, Runs.Lawful, Legal, InSync, Runs.Legal, Runs.InSync, Runs.FileMap;
    Runs.MemoryIsFile(Kind(), trace, steps, i);
    SameNotions(trace[i].disk.file, Runs.FileMap(Kind(), trace[i].disk.file));
  }

  /** A restart in a run succeeds exactly at the instants not before any observation in the
      file, and then memory is exactly the map of the file. */
  lemma RestartInRun(trace: seq<Sys>, steps: seq<Step>, i: nat)
    requires Runs.IsRun(Kind(), trace, steps) && i < |steps| && steps[i].Restart?
    ensures var file := Runs.FileMap(Kind(), trace[i].disk.file);
            && (trace[i + 1].up <==> ObservedBy(file, steps[i].now))
            && (trace[i + 1].up ==> trace[i + 1].mem == file)
  {
    MemoryIsFile(trace, steps, i);
    assert Runs.Enabled(Kind(), trace[i], steps[i]) && trace[i + 1] == Runs.Next(Kind(), trace[i], steps[i]);
    hide Runs.IsRun, Legal, InSync, Runs.FileMap, Loaded, ObservedBy;
    RestartExactly(trace[i].disk.file, Runs.FileMap(Kind(), trace[i].disk.file), steps[i].now);
  }

  /** Between records a crash, and a restart from the last observation on, change neither the
      map nor, at any instant, the answer of the gate. */
  lemma ReadinessSurvivesCrash(trace: seq<Sys>, steps: seq<Step>, i: nat, at: Time)
    requires Runs.IsRun(Kind(), trace, steps) && i + 1 < |steps| && trace[i].section.Idle?
    requires steps[i].Crash? && steps[i + 1].Restart? && ObservedBy(trace[i].mem, steps[i + 1].now)
    ensures trace[i + 2].up && trace[i + 2].mem == trace[i].mem
    ensures IsReady(trace[i + 2].mem, at) <==> IsReady(trace[i].mem, at)
  {
    MemoryIsFile(trace, steps, i);
    assert Runs.Enabled(Kind(), trace[i], steps[i]) && trace[i + 1] == Runs.Next(Kind(), trace[i], steps[i]);
    assert Runs.Enabled(Kind(), trace[i + 1], steps[i + 1]) && trace[i + 2] == Runs.Next(Kind(), trace[i + 1], steps[i + 1]);
    hide Runs.IsRun, Legal, InSync, Runs.FileMap, Loaded, IsReady, ObservedBy;
    RestartExactly(trace[i].disk.file, trace[i].mem, steps[i + 1].now);
  }

  /** The locked part of one record, undisturbed, is one call of the registry's Record. */
  lemma SectionIsOneRecord(s: Sys, e: Evidence, at: Time, items: seq<Evidence>, fault: Fault<seq<Evidence>>)
    requires s.up && s.section.Idle? && Problem(e, at).None?
    ensures var done := Runs.OneRecord(Kind(), s, e, at, items, fault);
            && done.up && done.section.Idle?
            && done.mem == (if fault.NoFault? then s.mem[e.dimension := e] else s.mem)
            && done.disk == AfterPersist(s.disk, items, fault)
            && done.answered == s.answered + (if fault.NoFault? then [e] else [])
  {
    hide Problem, Runs.OneRecord;
    Runs.SectionIsOneRecord(Kind(), s, e, at, items, fault);
  }
}

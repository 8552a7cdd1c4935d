/** Whole runs of the persistent registry of runtime evidence. */
module RuntimeRuns {
  import opened Wrappers
  import opened GoTime
  import opened Disk
  import opened RuntimeEvidence
  import Runs = EntryRuns

  type Sys = Runs.Sys<Platform, Evidence>
  type Step = Runs.Step<Evidence>

  /** The wall clock is past the zero time. */
  function Accept(v: Evidence, now: Time): Option<Evidence> {
    if !now.IsZero() && Normalize(v, now).Ok? then Some(Normalize(v, now).value) else None
  }

  function LoadOf(file: Content<seq<Evidence>>, now: Time): Option<Contents> {
    if Loaded(file, now).Ok? then Some(Loaded(file, now).value) else None
  }

  ghost function Kind(): Runs.Kind<Platform, Evidence> {
    Runs.Kind(Key, Held, Accept, LoadOf)
  }

  lemma SameNotions(file: Content<seq<Evidence>>, m: Contents)
    ensures Runs.Legal(Kind(), m) <==> Legal(m)
    ensures Runs.InSync(Kind(), file, m) <==> InSync(file, m)
  {
    hide Held;
  }

  lemma IsLawful()
    ensures Runs.Lawful(Kind())
  {
    hide Held, Normalize, Loaded, Runs.Legal, Runs.InSync, Legal, InSync;
    forall v, now: Time | Accept(v, now).Some? ensures Held(Accept(v, now).value) {
      AcceptedIsHeld(v, now);
    }
    forall file, m, now | Runs.Legal(Kind(), m) && Runs.InSync(Kind(), file, m) && LoadOf(file, now).Some?
      ensures LoadOf(file, now) == Some(m)
    {
      SameNotions(file, m);
      RestartExactly(file, m, now);
    }
  }

  /** At every point of every run, failed writes and crashes included: the file stands for a map
      that may be held, and whenever no record is in its locked part, memory is that map. */
  lemma MemoryIsFile(trace: seq<Sys>, steps: seq<Step>, i: nat)
    requires Runs.IsRun(Kind(), trace, steps) && i < |trace|
    ensures var file := Runs.FileMap(Kind(), trace[i].disk.file);
            && Legal(file) && InSync(trace[i].disk.file, file)
            && (trace[i].up && trace[i].section.Idle? ==> trace[i].mem == file)
  {
    IsLawful();
    hide Runs.IsRun, Runs.Lawful, Legal, InSync, Runs.Legal, Runs.InSync, Runs.FileMap;
    Runs.MemoryIsFile(Kind(), trace, steps, i);
    SameNotions(trace[i].disk.file, Runs.FileMap(Kind(), trace[i].disk.file));
  }

  /** A restart in a run succeeds exactly when every entry in the file was observed by then
      and no validated one has expired, and then memory is exactly the map of the file. */
  lemma RestartInRun(trace: seq<Sys>, steps: seq<Step>, i: nat)
    requires Runs.IsRun(Kind(), trace, steps) && i < |steps| && steps[i].Restart?
    ensures var file := Runs.FileMap(Kind(), trace[i].disk.file);
            && (trace[i + 1].up <==> forall p :: p in file ==> Timely(file[p], steps[i].now))
            && (trace[i + 1].up ==> trace[i + 1].mem == file)
  {
    MemoryIsFile(trace, steps, i);
    assert Runs.Enabled(Kind(), trace[i], steps[i]) && trace[i + 1] == Runs.Next(Kind(), trace[i], steps[i]);
    hide Runs.IsRun, Legal, InSync, Runs.FileMap, Loaded, Timely;
    RestartExactly(trace[i].disk.file, Runs.FileMap(Kind(), trace[i].disk.file), steps[i].now);
  }

  /** While the gate is open between records, a crash and a restart at the gate's instant
      bring the registry back, with the gate open, exactly when no entry was observed later. */
  lemma GateSurvivesCrash(trace: seq<Sys>, steps: seq<Step>, i: nat)
    requires Runs.IsRun(Kind(), trace, steps) && i + 1 < |steps| && trace[i].section.Idle?
    requires steps[i].Crash? && steps[i + 1].Restart? && Eligible(trace[i].mem, steps[i + 1].now)
    ensures trace[i + 2].up <==> forall p :: p in trace[i].mem ==> trace[i].mem[p].observedAt.instant <= steps[i + 1].now.instant
    ensures trace[i + 2].up ==> trace[i + 2].mem == trace[i].mem && Eligible(trace[i + 2].mem, steps[i + 1].now)
  {
    MemoryIsFile(trace, steps, i);
    assert Runs.Enabled(Kind(), trace[i], steps[i]) && trace[i + 1] == Runs.Next(Kind(), trace[i], steps[i]);
    assert Runs.Enabled(Kind(), trace[i + 1], steps[i + 1]) && trace[i + 2] == Runs.Next(Kind(), trace[i + 1], steps[i + 1]);
    hide Runs.IsRun, Legal, InSync, Runs.FileMap, Loaded, Eligible;
    RestartExactly(trace[i].disk.file, trace[i].mem, steps[i + 1].now);
    EligibleSurvivesRestart(trace[i].disk.file, trace[i].mem, steps[i + 1].now);
  }

  /** The locked part of one record, undisturbed, is one call of the registry's Record. */
  lemma SectionIsOneRecord(s: Sys, v: Evidence, now: Time, items: seq<Evidence>, fault: Fault<seq<Evidence>>)
    requires s.up && s.section.Idle? && !now.IsZero() && Normalize(v, now).Ok?
    ensures var done := Runs.OneRecord(Kind(), s, v, now, items, fault);
            && done.up && done.section.Idle?
            && done.mem == AfterRecord(s.mem, v, now, fault.NoFault?)
            && done.disk == AfterPersist(s.disk, items, fault)
            && done.answered == s.answered + (if fault.NoFault? then [Normalize(v, now).value] else [])
  {
    hide Normalize, Runs.OneRecord;
    Runs.SectionIsOneRecord(Kind(), s, v, now, items, fault);
  }
}

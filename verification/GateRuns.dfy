/** The Stable gate among writers. One call reads the four mandatory platforms one after
    the other, each under the lock on its own; between two reads other callers record.
    A record shows to readers as one step, since it holds the lock until its write has
    succeeded or its entry is taken back. */
module GateRuns {
  import opened Wrappers
  import opened GoTime
  import opened RuntimeEvidence
  import Bags

  /** A record call: its input, the clock it normalised with before taking the lock, and
      whether its write succeeds. */
  datatype Delivery = Delivery(input: Evidence, now: Time, persisted: bool)

  /** Where one call of StableEligibleAt stands. */
  datatype Gate = Idle | Reading(t: Time, next: nat) | Closed(t: Time)

  datatype Sys = Sys(held: Contents, gate: Gate)

  datatype Step = Start(t: Time) | Read | Record(d: Delivery) | Answer(eligible: bool)

  const START := Sys(map[], Idle)

  /** The platform holds evidence that the gate lets through. */
  predicate Fresh(m: Contents, p: Platform, t: Time) {
    p in m && FreshAt(m[p], t)
  }

  predicate Enabled(s: Sys, step: Step) {
    match step
    case Start(_) => s.gate.Idle?
    case Read => s.gate.Reading? && s.gate.next < |MANDATORY|
    case Record(d) => !d.now.IsZero()
    case Answer(eligible) => if eligible then s.gate.Reading? && s.gate.next == |MANDATORY| else s.gate.Closed?
  }

  function Next(s: Sys, step: Step): Sys {
    match step
    case Start(t) => s.(gate := Reading(t, 0))
    case Read => s.(gate := AfterRead(s.held, s.gate))
    case Record(d) => s.(held := AfterRecord(s.held, d.input, d.now, d.persisted))
    case Answer(_) => s.(gate := Idle)
  }

  /** Get and evidenceFreshAt for the next platform; the first failure ends the loop. */
  function AfterRead(m: Contents, gate: Gate): Gate {
    if gate.Reading? && gate.next < |MANDATORY| then
      if Fresh(m, MANDATORY[gate.next], gate.t) then Reading(gate.t, gate.next + 1) else Closed(gate.t)
    else gate
  }

  /** From the empty registry; ReachableExactly shows that this misses no legal one. */
  ghost predicate IsRun(trace: seq<Sys>, steps: seq<Step>) {
    && |trace| == |steps| + 1
    && trace[0] == START
    && forall i :: 0 <= i < |steps| ==> Enabled(trace[i], steps[i]) && trace[i + 1] == Next(trace[i], steps[i])
  }

  /** From the i-th step on one call is under way, and until the j-th it is not over. */
  ghost predicate InCall(steps: seq<Step>, i: nat, j: nat) {
    && i < j <= |steps| && steps[i].Start?
    && forall n :: i < n < j ==> steps[n].Read? || steps[n].Record?
  }

  // ---------- the registry in a run ----------

  lemma AcceptedPlatform(v: Evidence, now: Time)
    ensures Normalize(v, now).Ok? ==> Normalize(v, now).value.platform == v.platform && v.platform in MANDATORY
    ensures Normalize(v, now).Ok? && !now.IsZero() ==> Held(Normalize(v, now).value)
  {
    AcceptedExactly(v, now);
    var w := Spelling(v, now);
    assert w.platform == v.platform;
    hide Normalize, Spelling, Timely, Tidy, ValidationProblem, CatalogFor;
    if Normalize(v, now).Ok? { SoundIsMandatory(w); }
  }

  lemma SoundIsMandatory(v: Evidence)
    ensures Sound(v) ==> v.platform in MANDATORY
  {
    hide ValidationProblem;
    var i := match v.platform case GlazeUI => 0 case Wardveil => 1 case PrivacyShield => 2 case _ => 3;
    if !v.platform.OtherPlatform? { assert MANDATORY[i] == v.platform; }
  }

  lemma {:induction false} RunIsLegal(trace: seq<Sys>, steps: seq<Step>, i: nat)
    requires IsRun(trace, steps) && i < |trace|
    ensures Legal(trace[i].held)
  {
    hide Held, Normalize, AfterRead;
    if i > 0 {
      RunIsLegal(trace, steps, i - 1);
      if steps[i - 1].Record? {
        var d := steps[i - 1].d;
        AcceptedPlatform(d.input, d.now);
      }
    }
  }

  /** One more step at the end of a run. */
  lemma Longer(trace: seq<Sys>, steps: seq<Step>, step: Step) returns (trace': seq<Sys>, steps': seq<Step>)
    requires IsRun(trace, steps) && Enabled(trace[|steps|], step)
    ensures trace' == trace + [Next(trace[|steps|], step)] && steps' == steps + [step]
    ensures IsRun(trace', steps')
  {
    hide Enabled, Next;
    trace', steps' := trace + [Next(trace[|steps|], step)], steps + [step];
    forall i | 0 <= i < |steps'| ensures Enabled(trace'[i], steps'[i]) && trace'[i + 1] == Next(trace'[i], steps'[i]) {
      if i < |steps| { assert trace'[i] == trace[i] && trace'[i + 1] == trace[i + 1] && steps'[i] == steps[i]; }
    }
  }

  /** Runs reach exactly the legal maps: each of them by recording its entries when they
      were observed. */
  lemma {:induction false} ReachesLegalMap(m: Contents) returns (trace: seq<Sys>, steps: seq<Step>)
    requires Legal(m)
    ensures Reaches(trace, steps, m)
    decreases |m|
  {
    hide Held, Normalize;
    if m == map[] {
      trace, steps := [START], [];
    } else {
      var p :| p in m;
      var rest := m - {p};
      assert |rest| < |m| by { assert rest.Keys == m.Keys - {p} && |rest.Keys| == |rest| && |m.Keys| == |m|; }
      trace, steps := ReachesLegalMap(rest);
      var d := Delivery(m[p], m[p].observedAt, true);
      Reload(m[p], m[p].observedAt);
      TidyTimes(m[p]);
      HeldIsTidy(m[p]);
      assert AfterRecord(rest, d.input, d.now, true) == m;
      trace, steps := Longer(trace, steps, Record(d));
    }
  }

  lemma HeldIsTidy(v: Evidence)
    ensures Held(v) ==> Tidy(v)
  {
  }

  ghost predicate Reaches(trace: seq<Sys>, steps: seq<Step>, m: Contents) {
    IsRun(trace, steps) && trace[|steps|] == Sys(m, Idle)
  }

  lemma ReachableExactly(m: Contents)
    ensures Legal(m) <==> exists trace, steps :: Reaches(trace, steps, m)
  {
    hide Held, Legal;
    if Legal(m) {
      var trace, steps := ReachesLegalMap(m);
      assert Reaches(trace, steps, m);
    }
    if trace, steps :| Reaches(trace, steps, m) {
      RunIsLegal(trace, steps, |steps|);
    }
  }

  // ---------- what an answer means ----------

  /** moments[k] is where the call read the k-th platform and found it fresh. */
  ghost predicate ReadAt(trace: seq<Sys>, steps: seq<Step>, i: nat, j: nat, t: Time, moments: seq<int>)
    requires |trace| == |steps| + 1
  {
    && |moments| <= |MANDATORY|
    && (forall k :: 0 <= k < |moments| ==>
          i < moments[k] < j <= |steps| && steps[moments[k]].Read? && Fresh(trace[moments[k]].held, MANDATORY[k], t))
    && (forall k, l :: 0 <= k < l < |moments| ==> moments[k] < moments[l])
  }

  /** As long as a call is not over, it stands where its reads have brought it. */
  lemma {:induction false} ReadsSoFar(trace: seq<Sys>, steps: seq<Step>, i: nat, j: nat) returns (moments: seq<int>)
    requires IsRun(trace, steps) && InCall(steps, i, j)
    ensures ReadAt(trace, steps, i, j, steps[i].t, moments)
    ensures var gate := trace[j].gate;
            && !gate.Idle? && gate.t == steps[i].t
            && (gate.Reading? ==> |moments| == gate.next)
            && (gate.Closed? ==> exists k, n :: 0 <= k < |MANDATORY| && i < n < j && !Fresh(trace[n].held, MANDATORY[k], steps[i].t))
  {
    hide Fresh, AfterRecord;
    moments := [];
    assert Enabled(trace[j - 1], steps[j - 1]);
    if i + 1 < j {
      moments := ReadsSoFar(trace, steps, i, j - 1);
      if steps[j - 1].Read? && trace[j].gate.Reading? {
        moments := moments + [j - 1];
      }
    }
  }

  /** "Eligible" means that every mandatory platform was fresh at some moment of the call,
      in the order of the reads; a refusal means that some platform was not. */
  lemma AnswerIsPerPlatform(trace: seq<Sys>, steps: seq<Step>, i: nat, j: nat)
    requires IsRun(trace, steps) && InCall(steps, i, j) && j < |steps| && steps[j].Answer?
    ensures steps[j].eligible ==>
              exists moments: seq<int> :: |moments| == |MANDATORY| && ReadAt(trace, steps, i, j, steps[i].t, moments)
    ensures !steps[j].eligible ==>
              exists k, n :: 0 <= k < |MANDATORY| && i < n < j && !Fresh(trace[n].held, MANDATORY[k], steps[i].t)
  {
    hide Fresh, ReadAt, Next;
    var moments := ReadsSoFar(trace, steps, i, j);
    assert Enabled(trace[j], steps[j]);
  }

  lemma {:induction false} NothingRecorded(trace: seq<Sys>, steps: seq<Step>, i: nat, j: nat)
    requires IsRun(trace, steps) && i <= j <= |steps|
    requires forall n :: i <= n < j ==> !steps[n].Record?
    ensures trace[j].held == trace[i].held
  {
    hide Enabled;
    if i < j { NothingRecorded(trace, steps, i, j - 1); }
  }

  /** Without a writer beside it the call answers as the registry's own method is specified
      to: by the map it runs on. */
  lemma UndisturbedGate(trace: seq<Sys>, steps: seq<Step>, i: nat, j: nat)
    requires IsRun(trace, steps) && InCall(steps, i, j) && j < |steps| && steps[j].Answer?
    requires forall n :: i < n < j ==> !steps[n].Record?
    ensures steps[j].eligible <==> Eligible(trace[i].held, steps[i].t)
  {
    assert |trace| == |steps| + 1;
    hide IsRun, FreshAt;
    AnswerIsPerPlatform(trace, steps, i, j);
    forall n | i <= n <= j ensures trace[n].held == trace[i].held { NothingRecorded(trace, steps, i, n); }
  }

  // ---------- when an answer is right for one moment ----------

  /** The delivery stores evidence that the gate does not let through. */
  predicate Takes(d: Delivery, t: Time) {
    d.persisted && Normalize(d.input, d.now).Ok? && !FreshAt(Normalize(d.input, d.now).value, t)
  }

  /** The delivery stores evidence that the gate lets through. */
  predicate Brings(d: Delivery, t: Time) {
    d.persisted && Normalize(d.input, d.now).Ok? && FreshAt(Normalize(d.input, d.now).value, t)
  }

  /** The place of a platform in the order of the reads. */
  function Place(p: Platform): nat {
    match p
    case GlazeUI => 0
    case Wardveil => 1
    case PrivacyShield => 2
    case Everkeep => 3
    case OtherPlatform(_) => 4
  }

  lemma PlaceIsIndex(p: Platform)
    ensures p in MANDATORY ==> Place(p) < |MANDATORY| && MANDATORY[Place(p)] == p
    ensures forall k :: 0 <= k < |MANDATORY| ==> Place(MANDATORY[k]) == k && MANDATORY[k] in MANDATORY
  {
  }

  /** What one record does to one platform. */
  lemma RecordOn(m: Contents, d: Delivery, p: Platform, t: Time)
    ensures var after := AfterRecord(m, d.input, d.now, d.persisted);
            && (d.input.platform != p ==> (p in after <==> p in m) && (p in m ==> after[p] == m[p]))
            && (Fresh(m, p, t) && !Fresh(after, p, t) ==> Takes(d, t) && d.input.platform == p)
            && (!Fresh(m, p, t) && Fresh(after, p, t) ==> Brings(d, t) && d.input.platform == p)
            && (Takes(d, t) && d.input.platform == p ==> !Fresh(after, p, t))
            && (Brings(d, t) && d.input.platform == p ==> Fresh(after, p, t))
  {
    hide Normalize, FreshAt;
    AcceptedPlatform(d.input, d.now);
  }

  /** A platform that nothing is taken from stays fresh, and one that nothing is brought to
      was fresh before if it is fresh now. */
  lemma {:induction false} FreshBetween(trace: seq<Sys>, steps: seq<Step>, i: nat, j: nat, p: Platform, t: Time)
    requires IsRun(trace, steps) && i <= j <= |steps|
    ensures (forall n :: i <= n < j && steps[n].Record? && steps[n].d.input.platform == p ==> !Takes(steps[n].d, t)) ==>
              Fresh(trace[i].held, p, t) ==> Fresh(trace[j].held, p, t)
    ensures (forall n :: i <= n < j && steps[n].Record? && steps[n].d.input.platform == p ==> !Brings(steps[n].d, t)) ==>
              Fresh(trace[j].held, p, t) ==> Fresh(trace[i].held, p, t)
  {
    hide Fresh, AfterRecord, Takes, Brings, Enabled, AfterRead;
    if i < j {
      FreshBetween(trace, steps, i, j - 1, p, t);
      if steps[j - 1].Record? { RecordOn(trace[j - 1].held, steps[j - 1].d, p, t); }
    }
  }

  /** Among the records of the call, one takes a platform that is read before another one
      that a record brings. */
  ghost predicate Opposed(steps: seq<Step>, i: nat, j: nat, t: Time)
    requires j <= |steps|
  {
    exists a, b :: i < a < j && i < b < j && OpposedPair(steps[a], steps[b], t)
  }

  predicate OpposedPair(a: Step, b: Step, t: Time) {
    && a.Record? && b.Record? && Takes(a.d, t) && Brings(b.d, t)
    && Place(a.d.input.platform) < Place(b.d.input.platform)
  }

  /** Nothing in between is taken from the platforms before the x-th, and something is taken
      from the x-th unless it is the last. */
  ghost predicate FirstTaken(steps: seq<Step>, i: nat, j: nat, t: Time, x: nat)
    requires j <= |steps|
  {
    && x < |MANDATORY|
    && (forall n :: i < n < j && steps[n].Record? && Takes(steps[n].d, t) ==> x <= Place(steps[n].d.input.platform))
    && (x == |MANDATORY| - 1
        || exists n :: i < n < j && steps[n].Record? && Takes(steps[n].d, t) && Place(steps[n].d.input.platform) == x)
  }

  lemma {:induction false} FindFirstTaken(steps: seq<Step>, i: nat, j: nat, t: Time) returns (x: nat)
    requires i < j <= |steps|
    ensures FirstTaken(steps, i, j, t, x)
  {
    hide Takes;
    if i + 1 == j {
      x := |MANDATORY| - 1;
    } else {
      x := FindFirstTaken(steps, i, j - 1, t);
      if steps[j - 1].Record? && Takes(steps[j - 1].d, t) && Place(steps[j - 1].d.input.platform) < x {
        x := Place(steps[j - 1].d.input.platform);
      }
    }
  }

  /** When the x-th platform is read, those read before it are still fresh. */
  lemma EarlierStaysFresh(trace: seq<Sys>, steps: seq<Step>, i: nat, j: nat, t: Time, x: nat, k: nat, a: nat, b: nat)
    requires IsRun(trace, steps) && j <= |steps| && FirstTaken(steps, i, j, t, x)
    requires k < x && i < a <= b < j && Fresh(trace[a].held, MANDATORY[k], t)
    ensures Fresh(trace[b].held, MANDATORY[k], t)
  {
    assert |trace| == |steps| + 1;
    hide IsRun, Takes, Brings, Fresh;
    PlaceIsIndex(MANDATORY[k]);
    FreshBetween(trace, steps, a, b, MANDATORY[k], t);
  }

  /** And those read after it are fresh already, unless the records are opposed. */
  lemma LaterIsFreshAlready(trace: seq<Sys>, steps: seq<Step>, i: nat, j: nat, t: Time, x: nat, k: nat, a: nat, b: nat)
    requires IsRun(trace, steps) && j <= |steps| && FirstTaken(steps, i, j, t, x) && !Opposed(steps, i, j, t)
    requires x < k < |MANDATORY| && i < a <= b < j && Fresh(trace[b].held, MANDATORY[k], t)
    ensures Fresh(trace[a].held, MANDATORY[k], t)
  {
    assert |trace| == |steps| + 1;
    hide IsRun, Takes, Brings, Fresh;
    PlaceIsIndex(MANDATORY[k]);
    var c :| i < c < j && steps[c].Record? && Takes(steps[c].d, t) && Place(steps[c].d.input.platform) == x;
    forall n | a <= n < b && steps[n].Record? && steps[n].d.input.platform == MANDATORY[k] ensures !Brings(steps[n].d, t) {
      assert !OpposedPair(steps[c], steps[n], t);
    }
    FreshBetween(trace, steps, a, b, MANDATORY[k], t);
  }

  lemma FreshWhenRead(trace: seq<Sys>, steps: seq<Step>, i: nat, j: nat, t: Time, moments: seq<int>, x: nat, k: nat)
    requires IsRun(trace, steps) && ReadAt(trace, steps, i, j, t, moments) && |moments| == |MANDATORY| && j <= |steps|
    requires FirstTaken(steps, i, j, t, x) && !Opposed(steps, i, j, t) && k < |MANDATORY|
    ensures i < moments[x] < j && Fresh(trace[moments[x]].held, MANDATORY[k], t)
  {
    assert x < |MANDATORY| && i < moments[x] < j && i < moments[k] < j;
    assert Fresh(trace[moments[k]].held, MANDATORY[k], t);
    assert (k < x ==> moments[k] < moments[x]) && (x < k ==> moments[x] < moments[k]);
    hide IsRun, FirstTaken, Opposed, Fresh, ReadAt;
    if k < x {
      EarlierStaysFresh(trace, steps, i, j, t, x, k, moments[k], moments[x]);
    } else if k > x {
      LaterIsFreshAlready(trace, steps, i, j, t, x, k, moments[x], moments[k]);
    }
  }

  lemma AllFreshIsEligible(m: Contents, t: Time)
    ensures Eligible(m, t) <==> forall k :: 0 <= k < |MANDATORY| ==> Fresh(m, MANDATORY[k], t)
  {
    hide FreshAt;
  }

  /** Unless the records of a call are opposed, "eligible" is right for the whole registry at
      one moment of the call. */
  lemma EligibleAtOneMoment(trace: seq<Sys>, steps: seq<Step>, i: nat, j: nat)
    requires IsRun(trace, steps) && InCall(steps, i, j) && j < |steps| && steps[j] == Answer(true)
    requires !Opposed(steps, i, j, steps[i].t)
    ensures exists n :: i < n < j && Eligible(trace[n].held, steps[i].t)
  {
    var t := steps[i].t;
    AnswerIsPerPlatform(trace, steps, i, j);
    assert |trace| == |steps| + 1;
    hide IsRun, FirstTaken, Opposed, Fresh, ReadAt, Eligible;
    var moments: seq<int> :| |moments| == |MANDATORY| && ReadAt(trace, steps, i, j, t, moments);
    var x := FindFirstTaken(steps, i, j, t);
    forall k | 0 <= k < |MANDATORY| ensures x < |moments| && i < moments[x] < j && Fresh(trace[moments[x]].held, MANDATORY[k], t) {
      FreshWhenRead(trace, steps, i, j, t, moments, x, k);
    }
    AllFreshIsEligible(trace[moments[x]].held, t);
  }
  // ---------- and exactly when it can be wrong ----------

  function Of(step: Step): multiset<Delivery> {
    if step.Record? then multiset{step.d} else multiset{}
  }

  /** What was delivered from the i-th step on. */
  function DeliveredFrom(steps: seq<Step>, i: nat): multiset<Delivery> {
    if |steps| <= i then multiset{}
    else DeliveredFrom(steps[..|steps| - 1], i) + Of(steps[|steps| - 1])
  }

  lemma {:induction false} IsDelivered(steps: seq<Step>, i: nat, n: nat)
    requires i <= n < |steps| && steps[n].Record?
    ensures steps[n].d in DeliveredFrom(steps, i)
  {
    if n < |steps| - 1 { IsDelivered(steps[..|steps| - 1], i, n); }
  }

  /** A run from the empty registry whose last part is a call that answers "eligible" beside
      exactly the given deliveries, with the registry eligible at no moment of the call. */
  ghost predicate Misled(trace: seq<Sys>, steps: seq<Step>, i: nat, t: Time, ds: multiset<Delivery>) {
    && IsRun(trace, steps)
    && |steps| > 0 && InCall(steps, i, |steps| - 1) && steps[i].t == t && steps[|steps| - 1] == Answer(true)
    && DeliveredFrom(steps, i) == ds
    && forall n :: i <= n < |trace| ==> !Eligible(trace[n].held, t)
  }

  predicate OpposedDeliveries(a: Delivery, b: Delivery, t: Time) {
    Takes(a, t) && Brings(b, t) && Place(a.input.platform) < Place(b.input.platform)
  }

  ghost predicate HasOpposed(ds: multiset<Delivery>, t: Time) {
    exists a, b :: a in ds && b in ds && OpposedDeliveries(a, b, t)
  }

  lemma MisledIsOpposed(trace: seq<Sys>, steps: seq<Step>, i: nat, t: Time, ds: multiset<Delivery>)
    requires Misled(trace, steps, i, t, ds)
    ensures HasOpposed(ds, t)
  {
    hide Eligible, Takes, Brings, DeliveredFrom, Enabled, Next;
    var j := |steps| - 1;
    if !Opposed(steps, i, j, t) { EligibleAtOneMoment(trace, steps, i, j); }
    var a, b :| i < a < j && i < b < j && OpposedPair(steps[a], steps[b], t);
    IsDelivered(steps, i, a);
    IsDelivered(steps, i, b);
    assert OpposedDeliveries(steps[a].d, steps[b].d, t);
  }

  // a misleading schedule, built step by step

  ghost predicate Building(trace: seq<Sys>, steps: seq<Step>, i: nat, t: Time, ds: multiset<Delivery>) {
    && IsRun(trace, steps)
    && InCall(steps, i, |steps|) && steps[i].t == t
    && DeliveredFrom(steps, i) == ds
    && forall n :: i <= n < |trace| ==> !Eligible(trace[n].held, t)
  }

  lemma Grow(trace: seq<Sys>, steps: seq<Step>, i: nat, t: Time, ds: multiset<Delivery>, step: Step)
    returns (trace': seq<Sys>, steps': seq<Step>)
    requires Building(trace, steps, i, t, ds) && (step.Read? || step.Record?) && Enabled(trace[|steps|], step)
    requires !Eligible(Next(trace[|steps|], step).held, t)
    ensures Building(trace', steps', i, t, ds + Of(step))
    ensures trace'[|steps'|] == Next(trace[|steps|], step)
  {
    hide Enabled, Next, Eligible;
    trace', steps' := Longer(trace, steps, step);
    assert steps'[..|steps'| - 1] == steps;
  }

  /** One record that leaves the k-th platform stale. */
  lemma GrowRecord(trace: seq<Sys>, steps: seq<Step>, i: nat, t: Time, ds: multiset<Delivery>, d: Delivery, k: nat)
    returns (trace': seq<Sys>, steps': seq<Step>)
    requires Building(trace, steps, i, t, ds) && !d.now.IsZero() && k < |MANDATORY|
    requires !Fresh(AfterRecord(trace[|steps|].held, d.input, d.now, d.persisted), MANDATORY[k], t)
    ensures Building(trace', steps', i, t, ds + multiset{d})
    ensures trace'[|steps'|] == Sys(AfterRecord(trace[|steps|].held, d.input, d.now, d.persisted), trace[|steps|].gate)
  {
    hide Eligible, Fresh, AfterRecord, InCall, DeliveredFrom;
    StaleIsIneligible(AfterRecord(trace[|steps|].held, d.input, d.now, d.persisted), k, t);
    trace', steps' := Grow(trace, steps, i, t, ds, Record(d));
  }

  lemma StillIneligible(trace: seq<Sys>, steps: seq<Step>, i: nat, t: Time, ds: multiset<Delivery>)
    requires Building(trace, steps, i, t, ds)
    ensures |trace| == |steps| + 1 && !Eligible(trace[|steps|].held, t)
  {
    hide Eligible, Enabled, Next;
  }

  lemma StaleIsIneligible(m: Contents, k: nat, t: Time)
    requires k < |MANDATORY| && !Fresh(m, MANDATORY[k], t)
    ensures !Eligible(m, t)
  {
    hide FreshAt;
  }

  /** Reads over platforms that are all fresh. */
  lemma {:induction false} DoReads(trace: seq<Sys>, steps: seq<Step>, i: nat, t: Time, ds: multiset<Delivery>, upto: nat)
    returns (trace': seq<Sys>, steps': seq<Step>)
    requires Building(trace, steps, i, t, ds) && trace[|steps|].gate.Reading? && trace[|steps|].gate.t == t
    requires trace[|steps|].gate.next <= upto <= |MANDATORY|
    requires forall k :: trace[|steps|].gate.next <= k < upto ==> Fresh(trace[|steps|].held, MANDATORY[k], t)
    ensures Building(trace', steps', i, t, ds) && trace'[|steps'|] == Sys(trace[|steps|].held, Reading(t, upto))
    decreases upto
  {
    hide Fresh, Eligible, InCall, DeliveredFrom;
    trace', steps' := trace, steps;
    if trace[|steps|].gate.next < upto {
      trace', steps' := DoReads(trace, steps, i, t, ds, upto - 1);
      StillIneligible(trace', steps', i, t, ds);
      trace', steps' := Grow(trace', steps', i, t, ds, Read);
      assert ds + Of(Read) == ds;
    }
  }

  /** Records of other platforms while the k-th one is stale. */
  lemma {:induction false} DoRecords(trace: seq<Sys>, steps: seq<Step>, i: nat, t: Time, ds: multiset<Delivery>, more: seq<Delivery>, k: nat)
    returns (trace': seq<Sys>, steps': seq<Step>)
    requires Building(trace, steps, i, t, ds) && k < |MANDATORY| && !Fresh(trace[|steps|].held, MANDATORY[k], t)
    requires forall d :: d in more ==> !d.now.IsZero() && d.input.platform != MANDATORY[k]
    ensures Building(trace', steps', i, t, ds + multiset(more))
    ensures trace'[|steps'|].gate == trace[|steps|].gate && !Fresh(trace'[|steps'|].held, MANDATORY[k], t)
    ensures forall p :: (forall d :: d in more ==> d.input.platform != p) ==>
              Fresh(trace'[|steps'|].held, p, t) == Fresh(trace[|steps|].held, p, t)
    decreases |more|
  {
    hide Fresh, Eligible, InCall, DeliveredFrom, AfterRecord, Takes, Brings;
    trace', steps' := trace, steps;
    assert |trace| == |steps| + 1;
    hide IsRun;
    if more == [] {
      assert ds + multiset(more) == ds;
    } else {
      var front, last := more[..|more| - 1], more[|more| - 1];
      assert more == front + [last];
      trace', steps' := DoRecords(trace, steps, i, t, ds, front, k);
      var m := trace'[|steps'|].held;
      forall p ensures last.input.platform != p ==> Fresh(AfterRecord(m, last.input, last.now, last.persisted), p, t) == Fresh(m, p, t) {
        RecordOn(m, last, p, t);
      }
      trace', steps' := GrowRecord(trace', steps', i, t, ds + multiset(front), last, k);
      assert ds + multiset(front) + multiset{last} == ds + multiset(more);
    }
  }

  // the whole schedule

  /** Fresh evidence at t for every mandatory platform but the k-th. */
  lemma AllButOne(k: nat, t: Time) returns (m: Contents)
    requires k < |MANDATORY|
    ensures Legal(m) && MANDATORY[k] !in m
    ensures forall l :: 0 <= l < |MANDATORY| && l != k ==> Fresh(m, MANDATORY[l], t)
  {
    var until := if t.instant > 0 then t.instant else 1;
    var observed := if t.instant > 1 then t.instant - 1 else -1;
    assert forall l :: 0 <= l < |MANDATORY| ==> CatalogFor(MANDATORY[l]).Some?;
    hide CatalogFor, Sample, Held, FreshAt;
    m := map p | p in MANDATORY && p != MANDATORY[k] && CatalogFor(p).Some? :: Sample(p, observed, until);
    forall p | p in m ensures m[p].platform == p && Held(m[p]) && FreshAt(m[p], t) {
      SampleIsHeld(p, observed, until);
    }
    forall l | 0 <= l < |MANDATORY| && l != k ensures MANDATORY[l] in m {
      PlaceIsIndex(MANDATORY[l]);
      PlaceIsIndex(MANDATORY[k]);
    }
  }

  /** A call starts while the k-th platform has no evidence. */
  lemma StartCall(m: Contents, k: nat, t: Time) returns (trace: seq<Sys>, steps: seq<Step>, i: nat)
    requires Legal(m) && k < |MANDATORY| && MANDATORY[k] !in m
    ensures Building(trace, steps, i, t, multiset{}) && trace[|steps|] == Sys(m, Reading(t, 0))
  {
    hide Legal, Eligible, FreshAt;
    var trace0, steps0 := ReachesLegalMap(m);
    i := |steps0|;
    trace, steps := Longer(trace0, steps0, Start(t));
    assert steps[..|steps| - 1] == steps0 && DeliveredFrom(steps, i) == multiset{};
    assert trace[i] == trace0[i];
    StaleIsIneligible(m, k, t);
  }

  lemma EndCall(trace: seq<Sys>, steps: seq<Step>, i: nat, t: Time, ds: multiset<Delivery>)
    returns (trace': seq<Sys>, steps': seq<Step>)
    requires Building(trace, steps, i, t, ds) && trace[|steps|].gate == Reading(t, |MANDATORY|)
    ensures Misled(trace', steps', i, t, ds)
  {
    hide Eligible;
    trace', steps' := Longer(trace, steps, Answer(true));
    assert steps'[..|steps'| - 1] == steps;
    assert ds + Of(Answer(true)) == ds;
    assert !Eligible(trace[|steps|].held, t);
  }

  lemma OneTaken(m: Contents, t: Time, a: Delivery, p: nat, q: nat)
    requires p < q < |MANDATORY| && a.input.platform == MANDATORY[p] && Takes(a, t)
    requires forall l :: p < l < |MANDATORY| ==> (Fresh(m, MANDATORY[l], t) <==> l != q)
    ensures forall l :: p <= l < |MANDATORY| ==>
              (Fresh(AfterRecord(m, a.input, a.now, a.persisted), MANDATORY[l], t) <==> l != p && l != q)
  {
    hide Fresh, AfterRecord, Takes;
    forall l | p <= l < |MANDATORY|
      ensures Fresh(AfterRecord(m, a.input, a.now, a.persisted), MANDATORY[l], t) <==> l != p && l != q
    {
      RecordOn(m, a, MANDATORY[l], t);
      PlaceIsIndex(MANDATORY[l]);
    }
  }

  lemma OneBrought(m: Contents, t: Time, b: Delivery, p: nat, q: nat)
    requires p < q < |MANDATORY| && b.input.platform == MANDATORY[q] && Brings(b, t)
    requires forall l :: p <= l < |MANDATORY| ==> (Fresh(m, MANDATORY[l], t) <==> l != p && l != q)
    ensures forall l :: p <= l < |MANDATORY| ==> (Fresh(AfterRecord(m, b.input, b.now, b.persisted), MANDATORY[l], t) <==> l != p)
  {
    hide Fresh, AfterRecord, Brings;
    forall l | p <= l < |MANDATORY| ensures Fresh(AfterRecord(m, b.input, b.now, b.persisted), MANDATORY[l], t) <==> l != p {
      RecordOn(m, b, MANDATORY[l], t);
      PlaceIsIndex(MANDATORY[l]);
    }
  }

  lemma PlacesDiffer(p: nat, q: nat)
    requires p < q < |MANDATORY|
    ensures MANDATORY[p] != MANDATORY[q]
  {
  }

  lemma FirstReads(m: Contents, t: Time, p: nat, q: nat) returns (trace: seq<Sys>, steps: seq<Step>, i: nat)
    requires p < q < |MANDATORY| && Legal(m) && MANDATORY[q] !in m
    requires forall l :: 0 <= l < |MANDATORY| && l != q ==> Fresh(m, MANDATORY[l], t)
    ensures Building(trace, steps, i, t, multiset{}) && trace[|steps|] == Sys(m, Reading(t, p + 1))
  {
    hide Legal, Fresh, Building;
    trace, steps, i := StartCall(m, q, t);
    trace, steps := DoReads(trace, steps, i, t, multiset{}, p + 1);
  }

  /** The first half: with the q-th platform missing, the reads up to the p-th, then records
      of the p-th that leave it stale. */
  lemma FirstHalf(m: Contents, t: Time, mine: seq<Delivery>, a: Delivery, p: nat, q: nat)
    returns (trace: seq<Sys>, steps: seq<Step>, i: nat)
    requires p < q < |MANDATORY| && Legal(m) && MANDATORY[q] !in m
    requires forall l :: 0 <= l < |MANDATORY| && l != q ==> Fresh(m, MANDATORY[l], t)
    requires forall d :: d in mine ==> !d.now.IsZero() && d.input.platform == MANDATORY[p]
    requires !a.now.IsZero() && a.input.platform == MANDATORY[p] && Takes(a, t)
    ensures Building(trace, steps, i, t, multiset(mine) + multiset{a})
    ensures trace[|steps|].gate == Reading(t, p + 1)
    ensures forall l :: p <= l < |MANDATORY| ==> (Fresh(trace[|steps|].held, MANDATORY[l], t) <==> l != p && l != q)
  {
    PlacesDiffer(p, q);
    assert !Fresh(m, MANDATORY[q], t);
    hide Fresh, Building, Takes, Legal, AfterRecord;
    trace, steps, i := FirstReads(m, t, p, q);
    trace, steps := DoRecords(trace, steps, i, t, multiset{}, mine, q);
    assert multiset{} + multiset(mine) == multiset(mine);
    var held := trace[|steps|].held;
    forall l | p < l < |MANDATORY| ensures Fresh(held, MANDATORY[l], t) <==> l != q {
      PlacesDiffer(p, l);
    }
    OneTaken(held, t, a, p, q);
    trace, steps := GrowRecord(trace, steps, i, t, multiset(mine), a, p);
  }

  /** The second half: the record that brings the q-th platform, the other reads, and the
      other records. */
  lemma SecondHalf(trace: seq<Sys>, steps: seq<Step>, i: nat, t: Time, ds: multiset<Delivery>, others: seq<Delivery>, b: Delivery, p: nat, q: nat)
    returns (trace': seq<Sys>, steps': seq<Step>)
    requires p < q < |MANDATORY| && Building(trace, steps, i, t, ds)
    requires trace[|steps|].gate == Reading(t, p + 1)
    requires forall l :: p <= l < |MANDATORY| ==> (Fresh(trace[|steps|].held, MANDATORY[l], t) <==> l != p && l != q)
    requires forall d :: d in others ==> !d.now.IsZero() && d.input.platform != MANDATORY[p]
    requires !b.now.IsZero() && b.input.platform == MANDATORY[q] && Brings(b, t)
    ensures Misled(trace', steps', i, t, ds + multiset{b} + multiset(others))
  {
    hide Fresh, Misled, Brings, AfterRecord;
    assert |trace| == |steps| + 1;
    hide Building;
    var held := trace[|steps|].held;
    OneBrought(held, t, b, p, q);
    trace', steps' := GrowRecord(trace, steps, i, t, ds, b, p);
    trace', steps' := DoReads(trace', steps', i, t, ds + multiset{b}, |MANDATORY|);
    trace', steps' := DoRecords(trace', steps', i, t, ds + multiset{b}, others, p);
    trace', steps' := EndCall(trace', steps', i, t, ds + multiset{b} + multiset(others));
  }

  lemma PlacesOf(a: Delivery, b: Delivery, t: Time)
    requires OpposedDeliveries(a, b, t)
    ensures Place(a.input.platform) < Place(b.input.platform) < |MANDATORY|
    ensures MANDATORY[Place(a.input.platform)] == a.input.platform && MANDATORY[Place(b.input.platform)] == b.input.platform
  {
    hide Normalize, FreshAt;
    AcceptedPlatform(a.input, a.now);
    AcceptedPlatform(b.input, b.now);
    PlaceIsIndex(a.input.platform);
    PlaceIsIndex(b.input.platform);
  }

  lemma OpposedMisleads(ds: multiset<Delivery>, t: Time, a: Delivery, b: Delivery)
    returns (trace: seq<Sys>, steps: seq<Step>, i: nat)
    requires forall d :: d in ds ==> !d.now.IsZero()
    requires a in ds && b in ds && OpposedDeliveries(a, b, t)
    ensures Misled(trace, steps, i, t, ds)
  {
    PlacesOf(a, b, t);
    var p, q := Place(a.input.platform), Place(b.input.platform);
    hide Fresh, Legal, Building, Place, Misled, Takes, Brings;
    assert a != b;
    var mine, others := Bags.Apart(ds, a, b, (d: Delivery) => d.input.platform == MANDATORY[p]);
    var m := AllButOne(q, t);
    trace, steps, i := FirstHalf(m, t, mine, a, p, q);
    trace, steps := SecondHalf(trace, steps, i, t, multiset(mine) + multiset{a}, others, b, p, q);
  }

  /** The gate can answer "eligible" beside these deliveries although the registry is eligible
      at no moment of the call, in some order of events and from some reachable registry,
      exactly when one of them stores evidence that is not fresh for a platform that is read
      before the platform of another one that stores fresh evidence. */
  lemma MisledExactly(ds: multiset<Delivery>, t: Time)
    requires forall d :: d in ds ==> !d.now.IsZero()
    ensures (exists trace, steps, i: nat :: Misled(trace, steps, i, t, ds)) <==> HasOpposed(ds, t)
  {
    hide Misled, OpposedDeliveries;
    if trace, steps, i: nat :| Misled(trace, steps, i, t, ds) {
      MisledIsOpposed(trace, steps, i, t, ds);
    }
    if HasOpposed(ds, t) {
      var a, b :| a in ds && b in ds && OpposedDeliveries(a, b, t);
      var trace, steps, i := OpposedMisleads(ds, t, a, b);
    }
  }

  /** For deliveries whose clock is not behind the gate's, fresh means validated. */
  lemma FreshIsValidated(d: Delivery, t: Time)
    requires t.instant <= d.now.instant && Normalize(d.input, d.now).Ok?
    ensures FreshAt(Normalize(d.input, d.now).value, t) <==> d.input.state.Validated?
  {
    AcceptedExactly(d.input, d.now);
    hide CatalogProblem;
  }

  /** Stored, with evidence in the given state. */
  predicate Stores(d: Delivery, validated: bool) {
    d.persisted && Normalize(d.input, d.now).Ok? && d.input.state.Validated? == validated
  }

  /** So for the gate at its own clock, and records made since: it can mislead exactly when
      the records hold a non-validated one for a platform read before that of a validated
      one. */
  lemma MisledByStates(ds: multiset<Delivery>, t: Time)
    requires forall d :: d in ds ==> !d.now.IsZero() && t.instant <= d.now.instant
    ensures (exists trace, steps, i: nat :: Misled(trace, steps, i, t, ds)) <==>
            exists a, b :: a in ds && b in ds && Stores(a, false) && Stores(b, true) && Place(a.input.platform) < Place(b.input.platform)
  {
    hide Misled, Normalize, FreshAt, Place;
    MisledExactly(ds, t);
    forall d | d in ds ensures (Takes(d, t) <==> Stores(d, false)) && (Brings(d, t) <==> Stores(d, true)) {
      if Normalize(d.input, d.now).Ok? { FreshIsValidated(d, t); }
    }
    hide Takes, Brings, Stores;
    if HasOpposed(ds, t) {
      var a, b :| a in ds && b in ds && OpposedDeliveries(a, b, t);
      assert Stores(a, false) && Stores(b, true);
    }
    if a, b :| a in ds && b in ds && Stores(a, false) && Stores(b, true) && Place(a.input.platform) < Place(b.input.platform) {
      assert OpposedDeliveries(a, b, t);
    }
  }
}
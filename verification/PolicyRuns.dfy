/** Evaluate among writers. It reads the store three times, each under the lock on its own:
    the source, the target, and a snapshot of the relationships. Between two reads other
    callers put services and relationships; a put shows in memory as one step, and stays
    there even when its write fails. */
module PolicyRuns {
  import opened Wrappers
  import opened Text
  import opened GoTime
  import opened MeshModel
  import opened Mesh
  import Bags
  import Sorting

  datatype Put = OfService(s: Service) | OfRelationship(r: Relationship)

  /** Where one call of Evaluate stands. */
  datatype Call =
    | Idle
    | Asked(req: PolicyRequest)
    | HasSource(req: PolicyRequest, source: string)
    | HasTarget(req: PolicyRequest, source: string, target: string)
    | Decided(req: PolicyRequest, decision: PolicyDecision)

  datatype Sys = Sys(st: State, call: Call)

  datatype Step = Start(req: PolicyRequest) | ReadSource | ReadTarget | ReadRelationships | Store(put: Put) | Answer(decision: PolicyDecision)

  /** Some relationship of the state lets source call the capability of target. */
  predicate Permitted(st: State, source: string, target: string, capability: string) {
    exists k | k in st.relationships :: Permits(st.relationships[k], source, target, capability)
  }

  /** What RegisterService and AddRelationship may put; the endpoints were found before, and
      services are never removed. */
  ghost predicate MayPut(st: State, put: Put) {
    match put
    case OfService(s) => Registrable(s)
    case OfRelationship(r) => Proper(r) && r.from in st.services && r.to in st.services
  }

  function AfterPut(st: State, put: Put): State {
    match put
    case OfService(s) => WithService(st, s)
    case OfRelationship(r) => WithRelationship(st, r)
  }

  ghost predicate Enabled(s: Sys, step: Step) {
    match step
    case Start(_) => s.call.Idle?
    case ReadSource => s.call.Asked?
    case ReadTarget => s.call.HasSource?
    case ReadRelationships => s.call.HasTarget?
    case Store(put) => MayPut(s.st, put)
    case Answer(decision) => s.call.Decided? && decision == s.call.decision
  }

  function Next(s: Sys, step: Step): Sys {
    match step
    case Start(req) => s.(call := Asked(req))
    case ReadSource => if s.call.Asked? then s.(call := AfterSource(s.st, s.call.req)) else s
    case ReadTarget => if s.call.HasSource? then s.(call := AfterTarget(s.st, s.call.req, s.call.source)) else s
    case ReadRelationships =>
      if s.call.HasTarget? then s.(call := AfterRelationships(s.st, s.call.req, s.call.source, s.call.target)) else s
    case Store(put) => s.(st := AfterPut(s.st, put))
    case Answer(_) => s.(call := Idle)
  }

  function AfterSource(st: State, req: PolicyRequest): Call {
    var source := TrimSpace(req.source);
    if source in st.services then HasSource(req, st.services[source].id)
    else Decided(req, PolicyDecision(false, SourceNotRegistered))
  }

  function AfterTarget(st: State, req: PolicyRequest, source: string): Call {
    var target := TrimSpace(req.target);
    if target !in st.services then Decided(req, PolicyDecision(false, TargetNotRegistered))
    else if st.services[target].health == UNAVAILABLE then Decided(req, PolicyDecision(false, TargetUnavailable))
    else if req.capability == "" then Decided(req, PolicyDecision(false, CapabilityRequired))
    else if req.capability !in st.services[target].capabilities then Decided(req, PolicyDecision(false, NotAdvertised))
    else HasTarget(req, source, st.services[target].id)
  }

  function AfterRelationships(st: State, req: PolicyRequest, source: string, target: string): Call {
    if Permitted(st, source, target, req.capability) then Decided(req, PolicyDecision(true, Authorizes))
    else Decided(req, PolicyDecision(false, NothingAuthorizes))
  }

  /** From any state with referential integrity, which every run of the store keeps. */
  ghost predicate IsRun(trace: seq<Sys>, steps: seq<Step>) {
    && |trace| == |steps| + 1
    && Integral(trace[0].st) && trace[0].call.Idle?
    && forall i :: 0 <= i < |steps| ==> Enabled(trace[i], steps[i]) && trace[i + 1] == Next(trace[i], steps[i])
  }

  /** From the i-th step on one call is under way, and until the j-th it is not over. */
  ghost predicate InCall(steps: seq<Step>, i: nat, j: nat) {
    && i < j <= |steps| && steps[i].Start?
    && forall n :: i < n < j ==> !steps[n].Start? && !steps[n].Answer?
  }

  // ---------- the store in a run ----------

  lemma {:induction false} RunIsIntegral(trace: seq<Sys>, steps: seq<Step>, i: nat)
    requires IsRun(trace, steps) && i < |trace|
    ensures Integral(trace[i].st)
  {
    hide Integral, Registrable, Proper, WithService, WithRelationship, AfterSource, AfterTarget, AfterRelationships;
    if i > 0 {
      RunIsIntegral(trace, steps, i - 1);
      if steps[i - 1].Store? { PutKeepsIntegrity(trace[i - 1].st, steps[i - 1].put); }
    }
  }

  lemma PutKeepsIntegrity(st: State, put: Put)
    ensures Integral(st) && MayPut(st, put) ==> Integral(AfterPut(st, put))
  {
    match put
    case OfService(s) => ServicePutKeepsIntegrity(st, s);
    case OfRelationship(r) => RelationshipPutKeepsIntegrity(st, r);
  }

  /** The service is registered and offers the capability. */
  predicate Offered(st: State, target: string, capability: string) {
    target in st.services && Offers(st.services[target], capability)
  }

  /** The put leaves the target without the capability. */
  predicate Takes(put: Put, target: string, capability: string) {
    put.OfService? && put.s.id == target && !Offers(put.s, capability)
  }

  /** The put permits the call. */
  predicate Brings(put: Put, source: string, target: string, capability: string) {
    put.OfRelationship? && Permits(put.r, source, target, capability)
  }

  lemma PutOn(st: State, put: Put, source: string, target: string, capability: string)
    ensures var after := AfterPut(st, put);
            && (source in st.services ==> source in after.services)
            && (Offered(st, target, capability) && !Offered(after, target, capability) ==> Takes(put, target, capability))
            && (Takes(put, target, capability) ==> !Offered(after, target, capability))
            && (!Permitted(st, source, target, capability) && Permitted(after, source, target, capability) ==>
                  Brings(put, source, target, capability))
            && (Brings(put, source, target, capability) ==> Permitted(after, source, target, capability))
  {
    hide Offers, Permits;
    if put.OfRelationship? {
      var after := AfterPut(st, put);
      assert put.r.id in after.relationships && after.relationships[put.r.id] == put.r;
    }
  }

  lemma {:induction false} Between(trace: seq<Sys>, steps: seq<Step>, i: nat, j: nat, source: string, target: string, capability: string)
    requires IsRun(trace, steps) && i <= j <= |steps|
    ensures source in trace[i].st.services ==> source in trace[j].st.services
    ensures (forall n :: i <= n < j && steps[n].Store? ==> !Takes(steps[n].put, target, capability)) ==>
              Offered(trace[i].st, target, capability) ==> Offered(trace[j].st, target, capability)
    ensures (forall n :: i <= n < j && steps[n].Store? ==> !Brings(steps[n].put, source, target, capability)) ==>
              Permitted(trace[j].st, source, target, capability) ==> Permitted(trace[i].st, source, target, capability)
  {
    hide Offered, Permitted, Takes, Brings, AfterPut, Enabled, AfterSource, AfterTarget, AfterRelationships, Integral;
    if i < j {
      Between(trace, steps, i, j - 1, source, target, capability);
      if steps[j - 1].Store? { PutOn(trace[j - 1].st, steps[j - 1].put, source, target, capability); }
    }
  }

  lemma AuthorizedMeans(st: State, req: PolicyRequest)
    requires Integral(st)
    ensures var source, target := TrimSpace(req.source), TrimSpace(req.target);
            Authorized(st, req) <==>
              source in st.services && req.capability != "" && Offered(st, target, req.capability) && Permitted(st, source, target, req.capability)
  {
    hide TrimSpace, Permits, Registrable, Proper;
    var source, target := TrimSpace(req.source), TrimSpace(req.target);
    PermitMeans(st, source, target, req.capability);
    if source in st.services && target in st.services {
      assert st.services[source].id == source && st.services[target].id == target;
    }
  }

  // ---------- what an answer means ----------

  /** Where the call stands, in terms of what its reads have seen at earlier moments. */
  ghost predicate Seen(trace: seq<Sys>, i: nat, j: nat, req: PolicyRequest, call: Call, a: int, b: int, c: int)
    requires j < |trace|
  {
    var source, target := TrimSpace(req.source), TrimSpace(req.target);
    match call
    case Idle => false
    case Asked(r) => r == req
    case HasSource(r, x) => r == req && x == source && i < a < j && source in trace[a].st.services
    case HasTarget(r, x, y) =>
      && r == req && x == source && y == target && i < a < b < j && source in trace[a].st.services
      && req.capability != "" && Offered(trace[b].st, target, req.capability)
    case Decided(r, decision) =>
      r == req && (decision.allowed ==>
        && i < a < b < c < j && source in trace[a].st.services
        && req.capability != "" && Offered(trace[b].st, target, req.capability)
        && Permitted(trace[c].st, source, target, req.capability))
  }

  lemma ReadSees(trace: seq<Sys>, steps: seq<Step>, i: nat, j: nat, a: int, b: int, c: int) returns (a': int, b': int, c': int)
    requires IsRun(trace, steps) && InCall(steps, i, j + 1) && i < j
    requires Seen(trace, i, j, steps[i].req, trace[j].call, a, b, c)
    ensures Seen(trace, i, j + 1, steps[i].req, trace[j + 1].call, a', b', c')
  {
    RunIsIntegral(trace, steps, j);
    hide Registrable, Proper, AfterPut, Permitted;
    assert Enabled(trace[j], steps[j]) && trace[j + 1] == Next(trace[j], steps[j]);
    hide IsRun;
    a' := if steps[j].ReadSource? then j else a;
    b' := if steps[j].ReadTarget? then j else b;
    c' := if steps[j].ReadRelationships? then j else c;
  }

  lemma {:induction false} SeenSoFar(trace: seq<Sys>, steps: seq<Step>, i: nat, j: nat) returns (a: int, b: int, c: int)
    requires IsRun(trace, steps) && InCall(steps, i, j)
    ensures Seen(trace, i, j, steps[i].req, trace[j].call, a, b, c)
  {
    hide Offered, Permitted, Integral;
    if i + 1 == j {
      a, b, c := 0, 0, 0;
    } else {
      var a0, b0, c0 := SeenSoFar(trace, steps, i, j - 1);
      hide Seen, IsRun;
      a, b, c := ReadSees(trace, steps, i, j - 1, a0, b0, c0);
    }
  }

  lemma AllowedReads(trace: seq<Sys>, steps: seq<Step>, i: nat, j: nat) returns (a: int, b: int, c: int)
    requires IsRun(trace, steps) && InCall(steps, i, j) && j < |steps| && steps[j].Answer? && steps[j].decision.allowed
    ensures i < a < b < c < j && steps[i].req.capability != ""
    ensures var source, target := TrimSpace(steps[i].req.source), TrimSpace(steps[i].req.target);
            && source in trace[a].st.services
            && Offered(trace[b].st, target, steps[i].req.capability)
            && Permitted(trace[c].st, source, target, steps[i].req.capability)
  {
    a, b, c := SeenSoFar(trace, steps, i, j);
    hide Offered, Permitted, Integral, Next;
    assert Enabled(trace[j], steps[j]);
  }

  /** "Allowed" means: at three moments of the call, in this order, the source was registered,
      the target was available and advertised the capability, and some enabled relationship
      permitted the call. */
  lemma AllowedIsPerRead(trace: seq<Sys>, steps: seq<Step>, i: nat, j: nat) returns (a: int, b: int, c: int)
    requires IsRun(trace, steps) && InCall(steps, i, j) && j < |steps| && steps[j].Answer? && steps[j].decision.allowed
    ensures i < a < b < c < j && steps[i].req.capability != ""
    ensures var source, target := TrimSpace(steps[i].req.source), TrimSpace(steps[i].req.target);
            && source in trace[a].st.services
            && target in trace[b].st.services && trace[b].st.services[target].health != "unavailable"
            && steps[i].req.capability in trace[b].st.services[target].capabilities
            && var held := trace[c].st.relationships;
               exists k :: k in held && held[k].enabled && held[k].from == source && held[k].to == target
                           && (held[k].capability == "" || held[k].capability == steps[i].req.capability)
  {
    a, b, c := AllowedReads(trace, steps, i, j);
    hide IsRun, TrimSpace;
    PermitMeans(trace[c].st, TrimSpace(steps[i].req.source), TrimSpace(steps[i].req.target), steps[i].req.capability);
  }

  // ---------- when an answer is right for one moment ----------

  ghost predicate Opposed(steps: seq<Step>, i: nat, j: nat, req: PolicyRequest)
    requires j <= |steps|
  {
    exists x, y :: i < x < j && i < y < j && OpposedPair(steps[x], steps[y], req)
  }

  predicate OpposedPair(x: Step, y: Step, req: PolicyRequest) {
    && x.Store? && y.Store? && Takes(x.put, TrimSpace(req.target), req.capability)
    && Brings(y.put, TrimSpace(req.source), TrimSpace(req.target), req.capability)
  }

  /** Unless some put during the call takes the capability from the target and another permits
      the call, an allowed call was authorised at one moment of the call. */
  lemma AuthorizedAtOneMoment(trace: seq<Sys>, steps: seq<Step>, i: nat, j: nat)
    requires IsRun(trace, steps) && InCall(steps, i, j) && j < |steps| && steps[j].Answer? && steps[j].decision.allowed
    requires !Opposed(steps, i, j, steps[i].req)
    ensures exists n :: i < n < j && Authorized(trace[n].st, steps[i].req)
  {
    var req := steps[i].req;
    var source, target := TrimSpace(req.source), TrimSpace(req.target);
    var a, b, c := AllowedReads(trace, steps, i, j);
    RunIsIntegral(trace, steps, b);
    RunIsIntegral(trace, steps, c);
    assert |trace| == |steps| + 1;
    hide IsRun, Integral, Takes, Brings, Offered, Permitted, Authorized, TrimSpace;
    Between(trace, steps, a, b, source, target, req.capability);
    Between(trace, steps, b, c, source, target, req.capability);
    AuthorizedMeans(trace[b].st, req);
    AuthorizedMeans(trace[c].st, req);
    if x :| b <= x < c && steps[x].Store? && Takes(steps[x].put, target, req.capability) {
      forall y | b <= y < c && steps[y].Store? ensures !Brings(steps[y].put, source, target, req.capability) {
        assert !OpposedPair(steps[x], steps[y], req);
      }
    }
  }
  // ---------- a call that nothing disturbs ----------

  /** Where a call stands that has only ever seen one state. */
  ghost predicate Undisturbed(st: State, req: PolicyRequest, call: Call) {
    var source, target := TrimSpace(req.source), TrimSpace(req.target);
    match call
    case Idle => false
    case Asked(r) => r == req
    case HasSource(r, x) => r == req && x == source && source in st.services
    case HasTarget(r, x, y) => r == req && x == source && y == target && source in st.services && req.capability != "" && Offered(st, target, req.capability)
    case Decided(r, decision) => r == req && decision == PolicyDecision(Authorized(st, req), Verdict(st, req))
  }

  lemma ReadKeepsUndisturbed(s: Sys, step: Step, req: PolicyRequest)
    requires Integral(s.st) && Enabled(s, step) && !step.Start? && !step.Answer? && !step.Store?
    requires Undisturbed(s.st, req, s.call)
    ensures Next(s, step).st == s.st && Undisturbed(s.st, req, Next(s, step).call)
  {
    AuthorizedMeans(s.st, req);
    hide Registrable, Proper, Permitted, Authorized, TrimSpace;
  }

  lemma {:induction false} UndisturbedSoFar(trace: seq<Sys>, steps: seq<Step>, i: nat, j: nat)
    requires IsRun(trace, steps) && InCall(steps, i, j) && forall n :: i < n < j ==> !steps[n].Store?
    ensures trace[j].st == trace[i].st && Undisturbed(trace[i].st, steps[i].req, trace[j].call)
  {
    hide Integral, Authorized, Verdict, Enabled;
    if i + 1 == j {
      assert trace[j] == Next(trace[i], steps[i]);
      hide IsRun;
    } else {
      hide Undisturbed, Next;
      UndisturbedSoFar(trace, steps, i, j - 1);
      RunIsIntegral(trace, steps, j - 1);
      assert Enabled(trace[j - 1], steps[j - 1]) && trace[j] == Next(trace[j - 1], steps[j - 1]);
      ReadKeepsUndisturbed(trace[j - 1], steps[j - 1], steps[i].req);
    }
  }

  /** Without a writer beside it the call decides as the mesh's own method is specified to: by
      the state it runs on. */
  lemma UndisturbedEvaluate(trace: seq<Sys>, steps: seq<Step>, i: nat, j: nat)
    requires IsRun(trace, steps) && InCall(steps, i, j) && j < |steps| && steps[j].Answer?
    requires forall n :: i < n < j ==> !steps[n].Store?
    ensures steps[j].decision == PolicyDecision(Authorized(trace[i].st, steps[i].req), Verdict(trace[i].st, steps[i].req))
  {
    hide Integral, Authorized, Verdict, Next;
    UndisturbedSoFar(trace, steps, i, j);
    assert Enabled(trace[j], steps[j]);
  }

  // ---------- and exactly when it can be wrong ----------

  function Of(step: Step): multiset<Put> {
    if step.Store? then multiset{step.put} else multiset{}
  }

  function PutsOf(steps: seq<Step>): multiset<Put> {
    if steps == [] then multiset{} else PutsOf(steps[..|steps| - 1]) + Of(steps[|steps| - 1])
  }

  lemma {:induction false} IsPut(steps: seq<Step>, n: nat)
    requires n < |steps| && steps[n].Store?
    ensures steps[n].put in PutsOf(steps)
  {
    if n < |steps| - 1 { IsPut(steps[..|steps| - 1], n); }
  }

  /** A call that is allowed beside exactly the given puts, and authorised at no moment. */
  ghost predicate Misled(trace: seq<Sys>, steps: seq<Step>, req: PolicyRequest, puts: multiset<Put>) {
    && IsRun(trace, steps)
    && |steps| > 1 && steps[0] == Start(req) && InCall(steps, 0, |steps| - 1)
    && steps[|steps| - 1].Answer? && steps[|steps| - 1].decision.allowed
    && PutsOf(steps) == puts
    && forall n :: 0 <= n < |trace| ==> !Authorized(trace[n].st, req)
  }

  predicate OpposedPuts(x: Put, y: Put, req: PolicyRequest) {
    Takes(x, TrimSpace(req.target), req.capability) && Brings(y, TrimSpace(req.source), TrimSpace(req.target), req.capability)
  }

  /** The capability is one that a service can advertise, one put takes it from the target, and
      one permits the call. */
  ghost predicate HasOpposed(puts: multiset<Put>, req: PolicyRequest) {
    && req.capability != "" && Tight(req.capability)
    && exists x, y :: x in puts && y in puts && OpposedPuts(x, y, req)
  }

  lemma OfferedIsTight(st: State, target: string, capability: string)
    requires Integral(st) && Offered(st, target, capability)
    ensures Tight(capability)
  {
    hide Tight, Sorting.Sorted;
    var s := st.services[target];
    var i :| 0 <= i < |s.capabilities| && s.capabilities[i] == capability;
    assert Registrable(s);
  }

  lemma MisledIsOpposed(trace: seq<Sys>, steps: seq<Step>, req: PolicyRequest, puts: multiset<Put>)
    requires Misled(trace, steps, req, puts)
    ensures HasOpposed(puts, req)
  {
    var j := |steps| - 1;
    var a, b, c := AllowedReads(trace, steps, 0, j);
    RunIsIntegral(trace, steps, b);
    OfferedIsTight(trace[b].st, TrimSpace(req.target), req.capability);
    hide Authorized, Takes, Brings, PutsOf, Enabled, Next, Integral, Tight, TrimSpace;
    if !Opposed(steps, 0, j, req) { AuthorizedAtOneMoment(trace, steps, 0, j); }
    var x, y :| 0 < x < j && 0 < y < j && OpposedPair(steps[x], steps[y], req);
    IsPut(steps, x);
    IsPut(steps, y);
    assert OpposedPuts(steps[x].put, steps[y].put, req);
  }

  // a misleading schedule, built step by step

  ghost predicate Building(trace: seq<Sys>, steps: seq<Step>, req: PolicyRequest, puts: multiset<Put>) {
    && IsRun(trace, steps)
    && InCall(steps, 0, |steps|) && steps[0] == Start(req)
    && PutsOf(steps) == puts
    && forall n :: 0 <= n < |trace| ==> !Authorized(trace[n].st, req)
  }

  lemma Longer(trace: seq<Sys>, steps: seq<Step>, step: Step) returns (trace': seq<Sys>, steps': seq<Step>)
    requires IsRun(trace, steps) && Enabled(trace[|steps|], step)
    ensures trace' == trace + [Next(trace[|steps|], step)] && steps' == steps + [step]
    ensures IsRun(trace', steps')
  {
    hide Enabled, Next, Integral;
    trace', steps' := trace + [Next(trace[|steps|], step)], steps + [step];
    forall i | 0 <= i < |steps'| ensures Enabled(trace'[i], steps'[i]) && trace'[i + 1] == Next(trace'[i], steps'[i]) {
      if i < |steps| { assert trace'[i] == trace[i] && trace'[i + 1] == trace[i + 1] && steps'[i] == steps[i]; }
    }
  }

  lemma Grow(trace: seq<Sys>, steps: seq<Step>, req: PolicyRequest, puts: multiset<Put>, step: Step)
    returns (trace': seq<Sys>, steps': seq<Step>)
    requires Building(trace, steps, req, puts) && !step.Start? && !step.Answer? && Enabled(trace[|steps|], step)
    requires !Authorized(Next(trace[|steps|], step).st, req)
    ensures Building(trace', steps', req, puts + Of(step))
    ensures trace'[|steps'|] == Next(trace[|steps|], step)
  {
    hide Enabled, Next, Authorized, Integral;
    trace', steps' := Longer(trace, steps, step);
    assert steps'[..|steps'| - 1] == steps;
  }

  /** Nothing permits the call, or the target does not offer the capability. */
  ghost predicate Blocked(st: State, req: PolicyRequest) {
    !Permitted(st, TrimSpace(req.source), TrimSpace(req.target), req.capability) || !Offered(st, TrimSpace(req.target), req.capability)
  }

  lemma BlockedIsUnauthorized(st: State, req: PolicyRequest)
    requires Integral(st)
    ensures Authorized(st, req) ==> !Blocked(st, req)
  {
    hide Authorized, Permitted, Offered, Integral;
    AuthorizedMeans(st, req);
  }

  /** One put into a state that stays blocked. */
  lemma GrowPut(trace: seq<Sys>, steps: seq<Step>, req: PolicyRequest, puts: multiset<Put>, put: Put)
    returns (trace': seq<Sys>, steps': seq<Step>)
    requires Building(trace, steps, req, puts) && MayPut(trace[|steps|].st, put)
    requires Blocked(AfterPut(trace[|steps|].st, put), req)
    ensures Building(trace', steps', req, puts + multiset{put})
    ensures trace'[|steps'|] == Sys(AfterPut(trace[|steps|].st, put), trace[|steps|].call)
  {
    RunIsIntegral(trace, steps, |steps|);
    hide Authorized, Integral, Blocked, AfterPut, IsRun, InCall, PutsOf, MayPut;
    PutKeepsIntegrity(trace[|steps|].st, put);
    BlockedIsUnauthorized(AfterPut(trace[|steps|].st, put), req);
    trace', steps' := Grow(trace, steps, req, puts, Store(put));
  }

  /** Services, while there is no relationship at all. */
  lemma {:induction false} PutServices(trace: seq<Sys>, steps: seq<Step>, req: PolicyRequest, puts: multiset<Put>, more: seq<Put>)
    returns (trace': seq<Sys>, steps': seq<Step>)
    requires Building(trace, steps, req, puts) && trace[|steps|].st.relationships == map[]
    requires forall p :: p in more ==> p.OfService? && Registrable(p.s)
    ensures Building(trace', steps', req, puts + multiset(more)) && trace'[|steps'|].call == trace[|steps|].call
    ensures trace'[|steps'|].st.relationships == map[] && trace[|steps|].st.services.Keys <= trace'[|steps'|].st.services.Keys
    decreases |more|
  {
    hide Authorized, Integral, Registrable, InCall, PutsOf, TrimSpace, Offered;
    trace', steps' := trace, steps;
    if more == [] {
      assert puts + multiset(more) == puts;
    } else {
      var front, last := more[..|more| - 1], more[|more| - 1];
      assert more == front + [last] && last in more;
      trace', steps' := PutServices(trace, steps, req, puts, front);
      hide IsRun, Building;
      trace', steps' := GrowPut(trace', steps', req, puts + multiset(front), last);
      assert puts + multiset(front) + multiset{last} == puts + multiset(more);
    }
  }

  /** Relationships, while the target does not offer the capability. */
  lemma {:induction false} PutRelationships(trace: seq<Sys>, steps: seq<Step>, req: PolicyRequest, puts: multiset<Put>, more: seq<Put>)
    returns (trace': seq<Sys>, steps': seq<Step>)
    requires Building(trace, steps, req, puts) && !Offered(trace[|steps|].st, TrimSpace(req.target), req.capability)
    requires forall p :: p in more ==> p.OfRelationship? && MayPut(trace[|steps|].st, p)
    ensures Building(trace', steps', req, puts + multiset(more)) && trace'[|steps'|].call == trace[|steps|].call
    ensures trace'[|steps'|].st.services == trace[|steps|].st.services
    decreases |more|
  {
    hide Authorized, Integral, Proper, InCall, PutsOf, TrimSpace, Permitted;
    trace', steps' := trace, steps;
    if more == [] {
      assert puts + multiset(more) == puts;
    } else {
      var front, last := more[..|more| - 1], more[|more| - 1];
      assert more == front + [last] && last in more;
      trace', steps' := PutRelationships(trace, steps, req, puts, front);
      hide IsRun, Building;
      trace', steps' := GrowPut(trace', steps', req, puts + multiset(front), last);
      assert puts + multiset(front) + multiset{last} == puts + multiset(more);
    }
  }

  // the whole schedule

  function Endpoints(puts: multiset<Put>): set<string> {
    (set p | p in puts && p.OfRelationship? :: p.r.from) + (set p | p in puts && p.OfRelationship? :: p.r.to)
  }

  /** Services under the given ids, each of which offers the capability; no relationship. */
  function AllOffering(ids: set<string>, capability: string): State {
    State(map id | id in ids :: Service(id, "service", "application", "", "", [capability], [], HEALTHY, map[], map[], ZERO), map[])
  }

  lemma AllOfferingIsIntegral(ids: set<string>, capability: string)
    requires "" !in ids && capability != "" && Tight(capability)
    ensures Integral(AllOffering(ids, capability)) && AllOffering(ids, capability).relationships == map[]
    ensures forall id :: id in ids ==> id in AllOffering(ids, capability).services && Offers(AllOffering(ids, capability).services[id], capability)
  {
    hide Tight;
  }

  lemma BeginCall(st: State, req: PolicyRequest)
    requires Integral(st) && !Authorized(st, req)
    ensures Building([Sys(st, Idle), Sys(st, Asked(req))], [Start(req)], req, multiset{})
  {
    hide Integral, Authorized;
    var steps := [Start(req)];
    assert steps[..|steps| - 1] == [] && PutsOf(steps) == PutsOf([]) + Of(steps[0]);
  }

  /** The first two reads, in a state where both services are fine and nothing permits the
      call. */
  lemma StartCall(st: State, req: PolicyRequest) returns (trace: seq<Sys>, steps: seq<Step>)
    requires Integral(st) && st.relationships == map[] && req.capability != ""
    requires TrimSpace(req.source) in st.services && Offered(st, TrimSpace(req.target), req.capability)
    ensures Building(trace, steps, req, multiset{})
    ensures trace[|steps|] == Sys(st, HasTarget(req, TrimSpace(req.source), TrimSpace(req.target)))
  {
    BlockedIsUnauthorized(st, req);
    hide Authorized, TrimSpace;
    trace, steps := [Sys(st, Idle), Sys(st, Asked(req))], [Start(req)];
    BeginCall(st, req);
    trace, steps := Grow(trace, steps, req, multiset{}, ReadSource);
    assert multiset{} + Of(ReadSource) == multiset{};
    trace, steps := Grow(trace, steps, req, multiset{}, ReadTarget);
    assert multiset{} + Of(ReadTarget) == multiset{};
  }

  lemma EndCall(trace: seq<Sys>, steps: seq<Step>, req: PolicyRequest, puts: multiset<Put>) returns (trace': seq<Sys>, steps': seq<Step>)
    requires Building(trace, steps, req, puts)
    requires trace[|steps|].call == HasTarget(req, TrimSpace(req.source), TrimSpace(req.target))
    requires Permitted(trace[|steps|].st, TrimSpace(req.source), TrimSpace(req.target), req.capability)
    ensures Misled(trace', steps', req, puts)
  {
    hide Authorized, Permitted, Integral, TrimSpace;
    assert !Authorized(trace[|steps|].st, req);
    trace', steps' := Grow(trace, steps, req, puts, ReadRelationships);
    assert puts + Of(ReadRelationships) == puts;
    var decision := PolicyDecision(true, Authorizes);
    assert !Authorized(trace'[|steps'|].st, req);
    ghost var before := steps';
    trace', steps' := Longer(trace', steps', Answer(decision));
    assert steps'[..|steps'| - 1] == before;
    assert puts + Of(Answer(decision)) == puts;
  }

  /** What the callers of the store let through. */
  ghost predicate WellFormed(put: Put) {
    match put
    case OfService(s) => Registrable(s)
    case OfRelationship(r) => Proper(r)
  }

  lemma EndpointsAreNamed(puts: multiset<Put>)
    requires forall p :: p in puts ==> WellFormed(p)
    ensures "" !in Endpoints(puts)
    ensures forall p :: p in puts && p.OfRelationship? ==> p.r.from in Endpoints(puts) && p.r.to in Endpoints(puts)
  {
    hide Registrable;
  }

  /** The first half: both services are read while nothing permits the call; then services are
      put, and x, which takes the capability. */
  lemma FirstHalf(ids: set<string>, req: PolicyRequest, services: seq<Put>, x: Put) returns (trace: seq<Sys>, steps: seq<Step>)
    requires "" !in ids && req.capability != "" && Tight(req.capability)
    requires TrimSpace(req.source) in ids && TrimSpace(req.target) in ids
    requires forall p :: p in services ==> p.OfService? && Registrable(p.s)
    requires Takes(x, TrimSpace(req.target), req.capability) && Registrable(x.s)
    ensures Building(trace, steps, req, multiset(services) + multiset{x})
    ensures trace[|steps|].call == HasTarget(req, TrimSpace(req.source), TrimSpace(req.target))
    ensures ids <= trace[|steps|].st.services.Keys && !Offered(trace[|steps|].st, TrimSpace(req.target), req.capability)
  {
    AllOfferingIsIntegral(ids, req.capability);
    var st := AllOffering(ids, req.capability);
    hide Integral, Registrable, TrimSpace, Tight, AllOffering, Offers;
    trace, steps := StartCall(st, req);
    hide Building;
    trace, steps := PutServices(trace, steps, req, multiset{}, services);
    assert multiset{} + multiset(services) == multiset(services);
    PutOn(trace[|steps|].st, x, TrimSpace(req.source), TrimSpace(req.target), req.capability);
    assert Blocked(AfterPut(trace[|steps|].st, x), req);
    hide Offered, Takes, Blocked;
    trace, steps := GrowPut(trace, steps, req, multiset(services), x);
  }

  /** The second half: relationships are put, and then y, which permits the call; then the call
      reads on. */
  lemma SecondHalf(trace: seq<Sys>, steps: seq<Step>, req: PolicyRequest, puts: multiset<Put>, relationships: seq<Put>, y: Put)
    returns (trace': seq<Sys>, steps': seq<Step>)
    requires Building(trace, steps, req, puts)
    requires trace[|steps|].call == HasTarget(req, TrimSpace(req.source), TrimSpace(req.target))
    requires !Offered(trace[|steps|].st, TrimSpace(req.target), req.capability)
    requires forall p :: p in relationships ==> p.OfRelationship? && MayPut(trace[|steps|].st, p)
    requires MayPut(trace[|steps|].st, y) && Brings(y, TrimSpace(req.source), TrimSpace(req.target), req.capability)
    ensures Misled(trace', steps', req, puts + multiset(relationships) + multiset{y})
  {
    hide Integral, Proper, TrimSpace, Permits, Offers;
    assert |trace| == |steps| + 1;
    hide Building, Misled;
    var st := trace[|steps|].st;
    trace', steps' := PutRelationships(trace, steps, req, puts, relationships);
    PutOn(trace'[|steps'|].st, y, TrimSpace(req.source), TrimSpace(req.target), req.capability);
    trace', steps' := GrowPut(trace', steps', req, puts + multiset(relationships), y);
    trace', steps' := EndCall(trace', steps', req, puts + multiset(relationships) + multiset{y});
  }

  lemma OpposedMisleads(puts: multiset<Put>, req: PolicyRequest, x: Put, y: Put) returns (trace: seq<Sys>, steps: seq<Step>)
    requires forall p :: p in puts ==> WellFormed(p)
    requires req.capability != "" && Tight(req.capability)
    requires x in puts && y in puts && OpposedPuts(x, y, req)
    ensures Misled(trace, steps, req, puts)
  {
    EndpointsAreNamed(puts);
    assert y.r.from == TrimSpace(req.source) && y.r.to == TrimSpace(req.target) && x != y;
    hide Registrable, Proper, Tight, TrimSpace, Building, Misled, Endpoints, Takes, Brings, Offered;
    var services, relationships := Bags.Apart(puts, x, y, (p: Put) => p.OfService?);
    assert WellFormed(x) && WellFormed(y);
    forall p | p in services ensures p.OfService? && Registrable(p.s) { assert WellFormed(p); }
    trace, steps := FirstHalf(Endpoints(puts), req, services, x);
    forall p | p in relationships ensures p.OfRelationship? && MayPut(trace[|steps|].st, p) { assert WellFormed(p); }
    trace, steps := SecondHalf(trace, steps, req, multiset(services) + multiset{x}, relationships, y);
    assert multiset(services) + multiset{x} + multiset(relationships) + multiset{y} == puts;
  }

  /** Evaluate can allow the call beside these puts although it is authorised at no moment, in
      some order of events and from some state, exactly when one of the puts takes the
      capability from the target, another permits the call, and the capability is one that
      a service can advertise. */
  lemma MisledExactly(puts: multiset<Put>, req: PolicyRequest)
    requires forall p :: p in puts ==> WellFormed(p)
    ensures (exists trace, steps :: Misled(trace, steps, req, puts)) <==> HasOpposed(puts, req)
  {
    hide Misled, OpposedPuts, Tight, WellFormed;
    if trace, steps :| Misled(trace, steps, req, puts) {
      MisledIsOpposed(trace, steps, req, puts);
    }
    if HasOpposed(puts, req) {
      var x, y :| x in puts && y in puts && OpposedPuts(x, y, req);
      var trace, steps := OpposedMisleads(puts, req, x, y);
    }
  }
}

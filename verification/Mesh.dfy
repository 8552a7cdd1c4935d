/** The mesh registry: registration, discovery, policy and dependency impact. */
module Mesh {
  import opened Wrappers
  import opened Text
  import opened GoTime
  import opened MeshModel
  import opened Disk
  import opened Store
  import opened EventBus
  import opened Filtering
  import Graph
  import Keyed
  import Sorting
  import Trust

  datatype MeshError = FieldsRequired | InvalidHealth | SelfRelationship | UnknownSource | UnknownTarget | NotPersisted

  datatype PolicyRequest = PolicyRequest(source: string, target: string, capability: string)

  datatype Reason =
    | SourceNotRegistered | TargetNotRegistered | TargetUnavailable | CapabilityRequired
    | NotAdvertised | Authorizes | NothingAuthorizes

  datatype PolicyDecision = PolicyDecision(allowed: bool, reason: Reason)

  // ---------- specifications ----------

  /** v with its texts trimmed, its lists canonical and a default health. */
  ghost predicate IsNormalized(v: MeshModel.Service, s: MeshModel.Service, now: Time) {
    && Trust.IsUnique(v.capabilities, s.capabilities) && Trust.IsUnique(v.dependencies, s.dependencies)
    && s == v.(id := TrimSpace(v.id), name := TrimSpace(v.name), kind := TrimSpace(v.kind),
               health := if v.health == "" then "unknown" else v.health,
               capabilities := s.capabilities, dependencies := s.dependencies, updatedAt := now.Utc())
  }

  predicate Offers(s: MeshModel.Service, capability: string) {
    s.health != UNAVAILABLE && capability in s.capabilities
  }

  function Offering(capability: string): MeshModel.Service -> bool {
    (s: MeshModel.Service) => Offers(s, capability)
  }

  lemma NothingOffered(capability: string)
    ensures Filter([], Offering(capability)) == []
  {
  }

  lemma OffersMeans(s: MeshModel.Service, capability: string)
    ensures Offers(s, capability) <==> s.health != "unavailable" && capability in s.capabilities
  {
  }

  lemma DiscoveryMeans(services: seq<MeshModel.Service>, capability: string)
    ensures forall s :: s in Filter(services, Offering(capability)) <==>
              s in services && s.health != "unavailable" && capability in s.capabilities
    ensures Sorting.Sorted(ById, services) ==>
              var out := Filter(services, Offering(capability));
              forall i, j :: 0 <= i < j < |out| ==> Less(out[i].id, out[j].id)
  {
    hide Less;
    FilterMembers(services, Offering(capability));
    if Sorting.Sorted(ById, services) { FilterSorted(ById, services, Offering(capability)); }
  }

  predicate Permits(r: Relationship, source: string, target: string, capability: string) {
    r.enabled && r.from == source && r.to == target && (r.capability == "" || r.capability == capability)
  }

  /** Who may call what: both services are registered, the target is not unavailable and
      advertises the capability, which is not empty, and some enabled relationship runs
      between the two for every capability or this one. */
  ghost predicate Authorized(st: State, req: PolicyRequest) {
    var source, target := TrimSpace(req.source), TrimSpace(req.target);
    && source in st.services && target in st.services
    && st.services[target].health != "unavailable"
    && req.capability != "" && req.capability in st.services[target].capabilities
    && exists k :: k in st.relationships && st.relationships[k].enabled
                   && st.relationships[k].from == st.services[source].id && st.relationships[k].to == st.services[target].id
                   && (st.relationships[k].capability == "" || st.relationships[k].capability == req.capability)
  }

  /** When a reason applies to a request. */
  ghost predicate Applies(st: State, req: PolicyRequest, why: Reason) {
    var source, target := TrimSpace(req.source), TrimSpace(req.target);
    match why
    case SourceNotRegistered => source !in st.services
    case TargetNotRegistered => target !in st.services
    case TargetUnavailable => target in st.services && st.services[target].health == "unavailable"
    case CapabilityRequired => req.capability == ""
    case NotAdvertised => target in st.services && req.capability !in st.services[target].capabilities
    case Authorizes => Authorized(st, req)
    case NothingAuthorizes => !Authorized(st, req)
  }

  /** The order in which the reasons are looked for. */
  ghost function Rank(why: Reason): nat {
    match why
    case SourceNotRegistered => 1 case TargetNotRegistered => 2 case TargetUnavailable => 3
    case CapabilityRequired => 4 case NotAdvertised => 5 case Authorizes => 6 case NothingAuthorizes => 7
  }

  /** The first reason that applies is the one to give. */
  ghost predicate IsVerdict(st: State, req: PolicyRequest, why: Reason) {
    Applies(st, req, why) && forall other :: Rank(other) < Rank(why) ==> !Applies(st, req, other)
  }

  /** The reason to give, found by cases. */
  ghost function Verdict(st: State, req: PolicyRequest): Reason {
    var source, target := TrimSpace(req.source), TrimSpace(req.target);
    if source !in st.services then SourceNotRegistered
    else if target !in st.services then TargetNotRegistered
    else if st.services[target].health == UNAVAILABLE then TargetUnavailable
    else if req.capability == "" then CapabilityRequired
    else if !Offers(st.services[target], req.capability) then NotAdvertised
    else if exists k :: k in st.relationships && Permits(st.relationships[k], st.services[source].id, st.services[target].id, req.capability)
    then Authorizes
    else NothingAuthorizes
  }

  lemma PermitMeans(st: State, source: string, target: string, capability: string)
    ensures (exists k :: k in st.relationships && Permits(st.relationships[k], source, target, capability)) <==>
            exists k :: k in st.relationships && st.relationships[k].enabled
                        && st.relationships[k].from == source && st.relationships[k].to == target
                        && (st.relationships[k].capability == "" || st.relationships[k].capability == capability)
  {
    if k :| k in st.relationships && st.relationships[k].enabled
            && st.relationships[k].from == source && st.relationships[k].to == target
            && (st.relationships[k].capability == "" || st.relationships[k].capability == capability)
    {
      assert Permits(st.relationships[k], source, target, capability);
    }
  }

  lemma VerdictMeans(st: State, req: PolicyRequest)
    ensures IsVerdict(st, req, Verdict(st, req))
    ensures Authorized(st, req) <==> Verdict(st, req) == Authorizes
  {
    hide TrimSpace, Permits;
    var source, target := TrimSpace(req.source), TrimSpace(req.target);
    if source in st.services && target in st.services {
      PermitMeans(st, st.services[source].id, st.services[target].id, req.capability);
    }
  }

  /** Why AddRelationship turns a relationship away before it is stored, if it does: an empty
      name, then equal ends, then a source and then a target that is not registered. */
  ghost function Objection(st: State, v: Relationship): Option<MeshError> {
    if "" in [TrimSpace(v.id), TrimSpace(v.from), TrimSpace(v.to), TrimSpace(v.kind)] then Some(FieldsRequired)
    else if TrimSpace(v.from) == TrimSpace(v.to) then Some(SelfRelationship)
    else if TrimSpace(v.from) !in st.services then Some(UnknownSource)
    else if TrimSpace(v.to) !in st.services then Some(UnknownTarget)
    else None
  }

  predicate ById(a: MeshModel.Service, b: MeshModel.Service) {
    Less(a.id, b.id)
  }

  lemma SortServices(items: seq<MeshModel.Service>, keys: seq<string>, st: State)
    requires Integral(st) && Keyed.IsRange(items, keys, st.services)
    ensures Sorting.Sorted(ById, Sorting.Sort(ById, items))
  {
    hide Registrable, Proper;
    forall a: MeshModel.Service ensures !ById(a, a) { LessIrreflexive(a.id); }
    forall a, b, c | ById(a, b) && ById(b, c) ensures ById(a, c) { LessTransitive(a.id, b.id, c.id); }
    forall i, j | 0 <= i < j < |items| ensures ById(items[i], items[j]) || ById(items[j], items[i]) {
      assert items[i].id == keys[i] && items[j].id == keys[j];
      LessTotal(items[i].id, items[j].id);
    }
    Sorting.SortSorts(ById, items);
  }

  // ---------- the search ----------

  /** reverse holds, under each key, the other ends of the edges that leave it. */
  ghost predicate Represents(reverse: map<string, seq<string>>, g: Graph.Edges) {
    forall a, b :: (a in reverse && b in reverse[a]) <==> (a, b) in g
  }

  function Push(reverse: map<string, seq<string>>, a: string, b: string): map<string, seq<string>> {
    reverse[a := (if a in reverse then reverse[a] else []) + [b]]
  }

  lemma PushRepresents(reverse: map<string, seq<string>>, g: Graph.Edges, a: string, b: string)
    requires Represents(reverse, g)
    ensures Represents(Push(reverse, a, b), g + {(a, b)})
  {
  }

  /** reverse holds, under each name, exactly the names that depend directly on it. */
  ghost predicate Reverses(reverse: map<string, seq<string>>, st: State) {
    forall x, y :: (x in reverse && y in reverse[x]) <==> DependsOn(st, y, x)
  }

  method BuildReverse(st: State) returns (reverse: map<string, seq<string>>)
    ensures Reverses(reverse, st) && Represents(reverse, ReverseEdges(st))
  {
    hide Represents, Reverses, DependsOn, DependencyEdges, RequirementEdges;
    reverse := map[];
    ghost var g: Graph.Edges := {};
    NothingRepresented(st);
    var rest := st.services.Keys;
    while rest != {}
      invariant rest <= st.services.Keys
      invariant Represents(reverse, g) && g == DependencyEdges(st.services, st.services.Keys - rest)
      decreases rest
    {
      var k :| k in rest;
      var s := st.services[k];
      ghost var before := g;
      for i := 0 to |s.dependencies|
        invariant Represents(reverse, g) && g == before + EdgesTo(s.dependencies[..i], s.id)
      {
        MoreEdgesTo(s.dependencies, i, s.id);
        PushRepresents(reverse, g, s.dependencies[i], s.id);
        reverse := Push(reverse, s.dependencies[i], s.id);
        g := g + {(s.dependencies[i], s.id)};
      }
      assert s.dependencies[..|s.dependencies|] == s.dependencies;
      MoreDependencies(st.services, st.services.Keys - rest, k);
      assert st.services.Keys - (rest - {k}) == (st.services.Keys - rest) + {k};
      rest := rest - {k};
    }
    ghost var dependencies := g;
    rest := st.relationships.Keys;
    while rest != {}
      invariant rest <= st.relationships.Keys
      invariant Represents(reverse, g)
      invariant g == dependencies + RequirementEdges(st.relationships, st.relationships.Keys - rest)
      decreases rest
    {
      var k :| k in rest;
      var r := st.relationships[k];
      MoreRequirements(st.relationships, st.relationships.Keys - rest, k);
      if r.enabled && r.required {
        PushRepresents(reverse, g, r.to, r.from);
        reverse := Push(reverse, r.to, r.from);
        g := g + {(r.to, r.from)};
      }
      assert st.relationships.Keys - (rest - {k}) == (st.relationships.Keys - rest) + {k};
      rest := rest - {k};
    }
    assert st.services.Keys - {} == st.services.Keys && st.relationships.Keys - {} == st.relationships.Keys;
    ReversesDependencies(st, reverse);
  }

  lemma ReversesDependencies(st: State, reverse: map<string, seq<string>>)
    requires Represents(reverse, ReverseEdges(st))
    ensures Reverses(reverse, st)
  {
    forall x, y ensures (x, y) in ReverseEdges(st) <==> DependsOn(st, y, x) { EdgesAreDependencies(st, x, y); }
    hide ReverseEdges, DependsOn;
  }

  lemma NothingRepresented(st: State)
    ensures Represents(map[], {})
    ensures DependencyEdges(st.services, st.services.Keys - st.services.Keys) == {}
    ensures RequirementEdges(st.relationships, st.relationships.Keys - st.relationships.Keys) == {}
  {
  }

  lemma MoreEdgesTo(ds: seq<string>, i: nat, id: string)
    requires i < |ds|
    ensures EdgesTo(ds[..i + 1], id) == EdgesTo(ds[..i], id) + {(ds[i], id)}
    ensures EdgesTo(ds[..0], id) == {}
  {
    assert ds[..i + 1] == ds[..i] + [ds[i]];
  }

  lemma MoreDependencies(services: map<string, MeshModel.Service>, keys: set<string>, k: string)
    requires k in services
    ensures DependencyEdges(services, keys + {k}) == DependencyEdges(services, keys) + EdgesTo(services[k].dependencies, services[k].id)
  {
  }

  lemma MoreRequirements(relationships: map<string, Relationship>, keys: set<string>, k: string)
    requires k in relationships
    ensures var r := relationships[k];
            RequirementEdges(relationships, keys + {k}) ==
            RequirementEdges(relationships, keys) + if r.enabled && r.required then {(r.to, r.from)} else {}
  {
  }

  function Targets(g: Graph.Edges): set<string> {
    set e | e in g :: e.1
  }

  /** Everything seen is reachable; out is what was seen besides the start, each once. */
  ghost predicate Frontier(g: Graph.Edges, id: string, seen: set<string>, queue: seq<string>, out: seq<string>) {
    && id in seen
    && (forall x :: x in seen ==> Graph.Reaches(g, id, x))
    && (forall x :: x in out <==> x in seen && x != id)
    && (forall i, j :: 0 <= i < j < |out| ==> out[i] != out[j])
    && (forall x :: x in queue ==> x in seen)
  }

  ghost predicate Explored(g: Graph.Edges, x: string, seen: set<string>) {
    forall y :: (x, y) in g ==> y in seen
  }

  /** Everything seen has been explored but what waits in the queue, and perhaps one more. */
  ghost predicate ExploredBut(g: Graph.Edges, seen: set<string>, queue: seq<string>, current: iset<string>) {
    forall x :: x in seen && x !in queue && x !in current ==> Explored(g, x, seen)
  }

  lemma Discovered(g: Graph.Edges, id: string, seen: set<string>, queue: seq<string>, out: seq<string>, current: string, x: string)
    requires Frontier(g, id, seen, queue, out) && ExploredBut(g, seen, queue, iset{current})
    requires current in seen && (current, x) in g && x !in seen
    ensures Frontier(g, id, seen + {x}, queue + [x], out + [x]) && ExploredBut(g, seen + {x}, queue + [x], iset{current})
    ensures x in Targets(g)
  {
    Graph.ReachesNext(g, id, current, x);
    hide Graph.Reaches;
  }

  lemma Dequeued(g: Graph.Edges, id: string, seen: set<string>, queue: seq<string>, out: seq<string>)
    requires Frontier(g, id, seen, queue, out) && ExploredBut(g, seen, queue, iset{}) && queue != []
    ensures Frontier(g, id, seen, queue[1..], out) && ExploredBut(g, seen, queue[1..], iset{queue[0]}) && queue[0] in seen
  {
    hide Graph.Reaches, Explored;
    assert queue == [queue[0]] + queue[1..];
  }

  lemma StartSearch(g: Graph.Edges, id: string)
    ensures Searched(g, id, {id}, [id], [])
  {
    Graph.ReachesItself(g, id);
  }

  lemma NoneLeft(g: Graph.Edges, seen: set<string>, queue: seq<string>, current: string)
    requires ExploredBut(g, seen, queue, iset{current}) && Explored(g, current, seen)
    ensures ExploredBut(g, seen, queue, iset{})
  {
  }

  lemma SearchIsComplete(g: Graph.Edges, id: string, seen: set<string>, queue: seq<string>, out: seq<string>)
    requires Frontier(g, id, seen, queue, out) && ExploredBut(g, seen, queue, iset{}) && queue == []
    ensures forall x :: x in out <==> x != id && Graph.Reaches(g, id, x)
    ensures forall i, j :: 0 <= i < j < |out| ==> out[i] != out[j]
  {
    AllSeen(g, id, seen);
  }

  lemma AllSeen(g: Graph.Edges, id: string, seen: set<string>)
    requires id in seen && forall x :: x in seen ==> Explored(g, x, seen)
    ensures forall x :: Graph.Reaches(g, id, x) ==> x in seen
  {
    forall x | Graph.Reaches(g, id, x) ensures x in seen {
      var closed := iset y | y in seen;
      Graph.ClosedReach(g, closed, id, x);
    }
  }

  /** current has left the queue, and the first i of its dependents have been looked at since
      then; until the first new one the queue stays as it was. */
  ghost predicate Visiting(g: Graph.Edges, id: string, current: string, dependents: seq<string>, i: int,
                           before: set<string>, todo: seq<string>, seen: set<string>, queue: seq<string>, out: seq<string>) {
    && Frontier(g, id, seen, queue, out) && ExploredBut(g, seen, queue, iset{current})
    && (forall b :: (current, b) in g <==> b in dependents)
    && current in before && before <= seen <= Targets(g) + {id}
    && (seen == before ==> queue == todo)
    && 0 <= i <= |dependents| && forall k :: 0 <= k < i ==> dependents[k] in seen
  }

  ghost predicate Searched(g: Graph.Edges, id: string, seen: set<string>, queue: seq<string>, out: seq<string>) {
    Frontier(g, id, seen, queue, out) && ExploredBut(g, seen, queue, iset{}) && seen <= Targets(g) + {id}
  }

  ghost function Unseen(g: Graph.Edges, id: string, seen: set<string>): set<string> {
    Targets(g) + {id} - seen
  }

  lemma StartVisit(g: Graph.Edges, reverse: map<string, seq<string>>, id: string, seen: set<string>, queue: seq<string>, out: seq<string>)
    requires Searched(g, id, seen, queue, out) && queue != [] && Represents(reverse, g)
    ensures var current := queue[0];
            var dependents := if current in reverse then reverse[current] else [];
            Visiting(g, id, current, dependents, 0, seen, queue[1..], seen, queue[1..], out)
  {
    Dequeued(g, id, seen, queue, out);
    hide Frontier, ExploredBut, Targets;
  }

  lemma VisitNext(g: Graph.Edges, id: string, current: string, dependents: seq<string>, i: nat,
                  before: set<string>, todo: seq<string>, seen: set<string>, queue: seq<string>, out: seq<string>)
    requires i < |dependents| && Visiting(g, id, current, dependents, i, before, todo, seen, queue, out)
    ensures var x := dependents[i];
            if x in seen then Visiting(g, id, current, dependents, i + 1, before, todo, seen, queue, out)
            else Visiting(g, id, current, dependents, i + 1, before, todo, seen + {x}, queue + [x], out + [x])
  {
    var x := dependents[i];
    if x !in seen { Discovered(g, id, seen, queue, out, current, x); }
    hide Frontier, ExploredBut, Targets;
  }

  lemma EndVisit(g: Graph.Edges, id: string, current: string, dependents: seq<string>,
                 before: set<string>, todo: seq<string>, seen: set<string>, queue: seq<string>, out: seq<string>)
    requires Visiting(g, id, current, dependents, |dependents|, before, todo, seen, queue, out)
    ensures Searched(g, id, seen, queue, out)
    ensures Unseen(g, id, seen) < Unseen(g, id, before) || (seen == before && queue == todo)
  {
    hide Frontier, ExploredBut, Targets;
    assert Explored(g, current, seen);
    NoneLeft(g, seen, queue, current);
  }

  lemma SearchFinds(st: State, id: string, seen: set<string>, queue: seq<string>, out: seq<string>)
    requires Searched(ReverseEdges(st), id, seen, queue, out) && queue == []
    ensures IsImpact(st, id, Sorting.Sort(Less, out))
  {
    hide Impacted, ReverseEdges, Graph.Reaches, Frontier, ExploredBut;
    SearchIsComplete(ReverseEdges(st), id, seen, queue, out);
    Trust.SortDistinct(out);
    forall x ensures x in out <==> Impacted(st, id, x) { ImpactedIsReached(st, id, x); }
  }

  // ---------- the mesh ----------

  class Mesh {
    const store: Store
    const bus: Bus

    constructor (store: Store, bus: Bus)
      ensures this.store == store && this.bus == bus
    {
      this.store, this.bus := store, bus;
    }

    /** RegisterService: a rejected input changes nothing; a failed write keeps the service in
        memory but publishes nothing. */
    method RegisterService(v: MeshModel.Service, now: Time, fault: Fault<State>) returns (r: Result<MeshModel.Service, MeshError>)
      requires bus.Valid()
      modifies store`data, store.volume, bus`published, bus`channels
      ensures bus.Valid()
      ensures r.Ok? ==> IsNormalized(v, r.value, now) && Registrable(r.value)
      ensures r.Ok? ==> && store.data.services == old(store.data.services)[TrimSpace(v.id) := r.value]
                        && store.data.relationships == old(store.data.relationships)
      ensures r == Err(FieldsRequired) <==> TrimSpace(v.id) == "" || TrimSpace(v.name) == "" || TrimSpace(v.kind) == ""
      ensures r == Err(InvalidHealth) <==>
                && TrimSpace(v.id) != "" && TrimSpace(v.name) != "" && TrimSpace(v.kind) != ""
                && v.health !in ["", "unknown", "healthy", "degraded", "unavailable"]
      ensures r.Ok? || r in [Err(FieldsRequired), Err(InvalidHealth), Err(NotPersisted)]
      ensures r == Err(NotPersisted) ==> store.path != "" && !fault.NoFault?
      ensures r.Ok? ==> store.path == "" || fault.NoFault?
      ensures r.Err? && r.error != NotPersisted ==> store.data == old(store.data) && store.volume.State() == old(store.volume.State())
      ensures r.Err? && r.error == NotPersisted ==>
                && store.data.relationships == old(store.data.relationships)
                && exists s :: IsNormalized(v, s, now) && Registrable(s) && store.data.services == old(store.data.services)[TrimSpace(v.id) := s]
      ensures bus.published == old(bus.published) + if r.Ok? then 1 else 0
      ensures if r.Ok? then
                OfferedToAll(old(bus.channels), bus.channels, bus.subs,
                             Event(EventId(bus.published), "mesh.service.upserted", r.value.id, r.value.id, map["health" := r.value.health], now.Utc()))
              else bus.channels == old(bus.channels)
      ensures old(Integral(store.data)) ==> Integral(store.data)
      ensures store.volume.file == if r.Ok? && store.path != "" then Holds(store.data) else old(store.volume.file)
    {
      hide Integral, OfferedToAll;
      var s := v.(id := TrimSpace(v.id), name := TrimSpace(v.name), kind := TrimSpace(v.kind));
      if s.id == "" || s.name == "" || s.kind == "" {
        return Err(FieldsRequired);
      }
      if s.health == "" {
        s := s.(health := UNKNOWN);
      }
      if !ValidHealth(s.health) {
        return Err(InvalidHealth);
      }
      var capabilities := Trust.Unique(s.capabilities);
      var dependencies := Trust.Unique(s.dependencies);
      s := s.(capabilities := capabilities, dependencies := dependencies, updatedAt := now.Utc());
      assert IsNormalized(v, s, now) && Registrable(s);
      ServicePutKeepsIntegrity(store.data, s);
      var ok := store.PutService(s, fault);
      if !ok {
        return Err(NotPersisted);
      }
      bus.Publish("mesh.service.upserted", s.id, s.id, map["health" := s.health], now);
      return Ok(s);
    }

    /** AddRelationship */
    method AddRelationship(v: Relationship, now: Time, fault: Fault<State>) returns (r: Result<Relationship, MeshError>)
      requires bus.Valid()
      modifies store`data, store.volume, bus`published, bus`channels
      ensures bus.Valid()
      ensures r.Ok? ==>
                r.value == v.(id := TrimSpace(v.id), from := TrimSpace(v.from), to := TrimSpace(v.to),
                              kind := TrimSpace(v.kind), updatedAt := now.Utc())
      ensures r.Ok? ==> && store.data.relationships == old(store.data.relationships)[TrimSpace(v.id) := r.value]
                        && store.data.services == old(store.data.services)
      ensures r.Ok? <==> Objection(old(store.data), v).None? && (store.path == "" || fault.NoFault?)
      ensures Objection(old(store.data), v).Some? ==> r == Err(Objection(old(store.data), v).value)
      ensures Objection(old(store.data), v).None? && r.Err? ==> r == Err(NotPersisted)
      ensures r.Err? && r.error != NotPersisted ==> store.data == old(store.data) && store.volume.State() == old(store.volume.State())
      ensures r.Err? && r.error == NotPersisted ==>
                && store.data.services == old(store.data.services)
                && store.data.relationships == old(store.data.relationships)[TrimSpace(v.id) :=
                     v.(id := TrimSpace(v.id), from := TrimSpace(v.from), to := TrimSpace(v.to),
                        kind := TrimSpace(v.kind), updatedAt := now.Utc())]
      ensures bus.published == old(bus.published) + if r.Ok? then 1 else 0
      ensures if r.Ok? then
                OfferedToAll(old(bus.channels), bus.channels, bus.subs,
                             Event(EventId(bus.published), "mesh.relationship.upserted", r.value.from, r.value.id,
                                   map["target" := r.value.to, "type" := r.value.kind], now.Utc()))
              else bus.channels == old(bus.channels)
      ensures old(Integral(store.data)) ==> Integral(store.data)
      ensures store.volume.file == if r.Ok? && store.path != "" then Holds(store.data) else old(store.volume.file)
    {
      hide Integral, OfferedToAll;
      var rel := v.(id := TrimSpace(v.id), from := TrimSpace(v.from), to := TrimSpace(v.to), kind := TrimSpace(v.kind));
      if rel.id == "" || rel.from == "" || rel.to == "" || rel.kind == "" {
        return Err(FieldsRequired);
      }
      if rel.from == rel.to {
        return Err(SelfRelationship);
      }
      var source := store.Service(rel.from);
      if source.None? {
        return Err(UnknownSource);
      }
      var target := store.Service(rel.to);
      if target.None? {
        return Err(UnknownTarget);
      }
      rel := rel.(updatedAt := now.Utc());
      RelationshipPutKeepsIntegrity(store.data, rel);
      var ok := store.PutRelationship(rel, fault);
      if !ok {
        return Err(NotPersisted);
      }
      bus.Publish("mesh.relationship.upserted", rel.from, rel.id, map["target" := rel.to, "type" := rel.kind], now);
      return Ok(rel);
    }

    /** Services: all of them, by id. */
    method Services() returns (out: seq<MeshModel.Service>)
      ensures forall s :: s in out <==> s in store.data.services.Values
      ensures Integral(store.data) ==> Sorting.Sorted(ById, out)
      ensures Integral(store.data) ==> forall i, j :: 0 <= i < j < |out| ==> Less(out[i].id, out[j].id)
    {
      hide Registrable;
      var st := store.Snapshot();
      var items, keys := Keyed.Range(st.services);
      forall s ensures s in items <==> s in st.services.Values {
        if s in st.services.Values {
          var k :| k in st.services && st.services[k] == s;
          var i :| 0 <= i < |keys| && keys[i] == k;
          assert items[i] == s;
        }
      }
      Sorting.SortKeeps(ById, items);
      if Integral(store.data) { SortServices(items, keys, st); }
      out := Sorting.Sort(ById, items);
    }

    /** Discover: every service that is not unavailable and advertises the capability, once
        and by id. */
    method Discover(capability: string) returns (out: seq<MeshModel.Service>)
      ensures forall s :: s in out <==>
                s in store.data.services.Values && s.health != "unavailable" && TrimSpace(capability) in s.capabilities
      ensures Integral(store.data) ==> forall i, j :: 0 <= i < j < |out| ==> Less(out[i].id, out[j].id)
    {
      hide Integral, ById, Filter, Offers, Less;
      var wanted := TrimSpace(capability);
      var services := Services();
      out := [];
      NothingOffered(wanted);
      for i := 0 to |services|
        invariant out == Filter(services[..i], Offering(wanted))
      {
        var s := services[i];
        assert services[..i + 1] == services[..i] + [s];
        FilterAppend(services[..i], s, Offering(wanted));
        OffersMeans(s, wanted);
        if s.health == UNAVAILABLE {
          assert out + [] == out;
          continue;
        }
        ghost var before := out;
        for j := 0 to |s.capabilities|
          invariant out == before && wanted !in s.capabilities[..j]
        {
          if s.capabilities[j] == wanted {
            out := out + [s];
            break;
          }
        }
        assert s.capabilities[..|s.capabilities|] == s.capabilities;
        assert before + [] == before;
      }
      assert services[..|services|] == services;
      DiscoveryMeans(services, wanted);
    }

    /** Evaluate */
    method Evaluate(req: PolicyRequest) returns (d: PolicyDecision)
      ensures d.allowed <==> Authorized(store.data, req)
      ensures IsVerdict(store.data, req, d.reason) && d.reason == Verdict(store.data, req)
    {
      VerdictMeans(store.data, req);
      hide Authorized, IsVerdict;
      var source := store.Service(TrimSpace(req.source));
      if source.None? {
        return PolicyDecision(false, SourceNotRegistered);
      }
      var target := store.Service(TrimSpace(req.target));
      if target.None? {
        return PolicyDecision(false, TargetNotRegistered);
      }
      if target.value.health == UNAVAILABLE {
        return PolicyDecision(false, TargetUnavailable);
      }
      if req.capability == "" {
        return PolicyDecision(false, CapabilityRequired);
      }
      var capable := false;
      for i := 0 to |target.value.capabilities|
        invariant capable <==> req.capability in target.value.capabilities[..i]
        invariant !capable
      {
        if target.value.capabilities[i] == req.capability {
          capable := true;
          break;
        }
      }
      assert target.value.capabilities[..|target.value.capabilities|] == target.value.capabilities;
      if !capable {
        return PolicyDecision(false, NotAdvertised);
      }
      var st := store.Snapshot();
      var rest := st.relationships.Keys;
      while rest != {}
        invariant rest <= st.relationships.Keys
        invariant forall k :: k in st.relationships.Keys - rest ==>
                    !Permits(st.relationships[k], source.value.id, target.value.id, req.capability)
        decreases rest
      {
        var k :| k in rest;
        if Permits(st.relationships[k], source.value.id, target.value.id, req.capability) {
          return PolicyDecision(true, Authorizes);
        }
        rest := rest - {k};
      }
      return PolicyDecision(false, NothingAuthorizes);
    }

    /** Impact: breadth first over the reverse graph. */
    method Impact(id: string) returns (out: seq<string>)
      ensures IsImpact(store.data, id, out)
    {
      var st := store.Snapshot();
      var reverse := BuildReverse(st);
      ghost var g := ReverseEdges(st);
      hide ReverseEdges, IsImpact, Represents, Reverses, Searched, Visiting;
      out := [];
      var seen: set<string> := {id};
      var queue := [id];
      StartSearch(g, id);
      while queue != []
        invariant Searched(g, id, seen, queue, out)
        decreases Unseen(g, id, seen), |queue|
      {
        StartVisit(g, reverse, id, seen, queue, out);
        var current := queue[0];
        queue := queue[1..];
        ghost var before, todo := seen, queue;
        var dependents := if current in reverse then reverse[current] else [];
        for i := 0 to |dependents|
          invariant Visiting(g, id, current, dependents, i, before, todo, seen, queue, out)
        {
          var dependent := dependents[i];
          VisitNext(g, id, current, dependents, i, before, todo, seen, queue, out);
          if dependent in seen {
            continue;
          }
          seen := seen + {dependent};
          out := out + [dependent];
          queue := queue + [dependent];
        }
        EndVisit(g, id, current, dependents, before, todo, seen, queue, out);
      }
      SearchFinds(st, id, seen, queue, out);
      out := Sorting.Sort(Less, out);
    }
  }
}

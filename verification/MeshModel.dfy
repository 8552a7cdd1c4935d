/** The records of the mesh registry and the dependency graph they span. */
module MeshModel {
  import opened Text
  import opened GoTime
  import Graph
  import Sorting

  const UNKNOWN := "unknown"
  const HEALTHY := "healthy"
  const DEGRADED := "degraded"
  const UNAVAILABLE := "unavailable"

  datatype Service = Service(
    id: string,
    name: string,
    kind: string,
    version: string,
    endpoint: string,
    capabilities: seq<string>,
    dependencies: seq<string>,
    health: string,
    labels: map<string, string>,
    conformance: map<string, string>,
    updatedAt: Time)

  datatype Relationship = Relationship(
    id: string,
    from: string,
    to: string,
    kind: string,
    capability: string,
    contract: string,
    required: bool,
    enabled: bool,
    updatedAt: Time)

  datatype State = State(services: map<string, Service>, relationships: map<string, Relationship>)

  const NO_STATE := State(map[], map[])

  predicate ValidHealth(health: string) {
    health == UNKNOWN || health == HEALTHY || health == DEGRADED || health == UNAVAILABLE
  }

  lemma ValidHealthMeans(health: string)
    ensures ValidHealth(health) <==> health in ["unknown", "healthy", "degraded", "unavailable"]
  {
  }

  // ---------- what RegisterService and AddRelationship let through ----------

  ghost predicate Names(items: seq<string>) {
    Sorting.Sorted(Less, items) && forall i :: 0 <= i < |items| ==> items[i] != "" && Tight(items[i])
  }

  ghost predicate Registrable(s: Service) {
    && s.id != "" && s.name != "" && s.kind != "" && ValidHealth(s.health)
    && Names(s.capabilities) && Names(s.dependencies)
  }

  predicate Proper(r: Relationship) {
    r.id != "" && r.from != "" && r.to != "" && r.kind != "" && r.from != r.to
  }

  /** Referential integrity: keys are the records' own ids, and both ends of every
      relationship are registered and differ. */
  ghost predicate Integral(st: State) {
    && (forall k :: k in st.services ==> st.services[k].id == k && Registrable(st.services[k]))
    && (forall k :: k in st.relationships ==>
          st.relationships[k].id == k && Proper(st.relationships[k])
          && st.relationships[k].from in st.services && st.relationships[k].to in st.services)
  }

  function WithService(st: State, s: Service): State {
    st.(services := st.services[s.id := s])
  }

  function WithRelationship(st: State, r: Relationship): State {
    st.(relationships := st.relationships[r.id := r])
  }

  /** Registering a service, new or again, keeps integrity: no service is ever removed. */
  lemma ServicePutKeepsIntegrity(st: State, s: Service)
    ensures Integral(st) && Registrable(s) ==> Integral(WithService(st, s))
  {
    hide Registrable, Proper;
  }

  lemma RelationshipPutKeepsIntegrity(st: State, r: Relationship)
    ensures Integral(st) && Proper(r) && r.from in st.services && r.to in st.services ==> Integral(WithRelationship(st, r))
  {
    hide Registrable, Proper;
  }

  // ---------- the graph ----------

  /** From each of the dependencies to the service that declares them. */
  function EdgesTo(dependencies: seq<string>, id: string): Graph.Edges {
    set d | d in dependencies :: (d, id)
  }

  /** Those of the services under the given keys. */
  function DependencyEdges(services: map<string, Service>, keys: set<string>): Graph.Edges {
    set k, d | k in keys && k in services && d in services[k].dependencies :: (d, services[k].id)
  }

  /** From the target of each enabled required relationship to its source. */
  function RequirementEdges(relationships: map<string, Relationship>, keys: set<string>): Graph.Edges {
    set k | k in keys && k in relationships && relationships[k].enabled && relationships[k].required
      :: (relationships[k].to, relationships[k].from)
  }

  function ReverseEdges(st: State): Graph.Edges {
    DependencyEdges(st.services, st.services.Keys) + RequirementEdges(st.relationships, st.relationships.Keys)
  }

  /** y lists x among its dependencies, or an enabled required relationship runs from y to x. */
  ghost predicate DependsOn(st: State, y: string, x: string) {
    || (exists k :: k in st.services && st.services[k].id == y && x in st.services[k].dependencies)
    || (exists k :: k in st.relationships && RequiresOf(st.relationships[k], y, x))
  }

  ghost predicate RequiresOf(r: Relationship, y: string, x: string) {
    r.enabled && r.required && r.from == y && r.to == x
  }

  /** Each name after the first depends directly on the one before it. */
  ghost predicate IsChain(st: State, chain: seq<string>) {
    chain != [] && forall i :: 0 <= i < |chain| - 1 ==> DependsOn(st, chain[i + 1], chain[i])
  }

  /** x is another name that depends, directly or through others, on id. */
  ghost predicate Impacted(st: State, id: string, x: string) {
    x != id && exists chain :: IsChain(st, chain) && chain[0] == id && chain[|chain| - 1] == x
  }

  /** The answer of Impact: the impacted ids in strict order. */
  ghost predicate IsImpact(st: State, id: string, out: seq<string>) {
    Sorting.Sorted(Less, out) && forall x :: x in out <==> Impacted(st, id, x)
  }

  /** The graph searched has the dependencies, turned round, as its edges. */
  lemma EdgesAreDependencies(st: State, x: string, y: string)
    ensures (x, y) in ReverseEdges(st) <==> DependsOn(st, y, x)
  {
    if k :| k in st.relationships && RequiresOf(st.relationships[k], y, x) {
      assert (x, y) in RequirementEdges(st.relationships, st.relationships.Keys);
    }
    if (x, y) in RequirementEdges(st.relationships, st.relationships.Keys) {
      var k :| k in st.relationships && st.relationships[k].enabled && st.relationships[k].required
               && (x, y) == (st.relationships[k].to, st.relationships[k].from);
      assert RequiresOf(st.relationships[k], y, x);
    }
  }

  /** Impact is reachability in that graph. */
  lemma ImpactedIsReached(st: State, id: string, x: string)
    ensures Impacted(st, id, x) <==> x != id && Graph.Reaches(ReverseEdges(st), id, x)
  {
    var g := ReverseEdges(st);
    forall a, b ensures (a, b) in g <==> DependsOn(st, b, a) { EdgesAreDependencies(st, a, b); }
    hide DependsOn, ReverseEdges;
    if chain :| IsChain(st, chain) && chain[0] == id && chain[|chain| - 1] == x {
      assert Graph.IsPath(g, chain);
    }
    if Graph.Reaches(g, id, x) {
      var p :| Graph.IsPath(g, p) && p[0] == id && p[|p| - 1] == x;
      assert IsChain(st, p);
    }
  }
}

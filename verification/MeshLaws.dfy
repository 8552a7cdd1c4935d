/** What the answers of the mesh mean, and how they change. */
module MeshLaws {
  import opened Text
  import opened MeshModel
  import opened Mesh
  import Graph
  import Sorting
  import Trust

  /** The impact of a state is one list: the order of map iteration does not show. */
  lemma ImpactIsUnique(st: State, id: string, a: seq<string>, b: seq<string>)
    requires IsImpact(st, id, a) && IsImpact(st, id, b)
    ensures a == b
  {
    Trust.LessIsOrder();
    assert Sorting.SameElements(a, b);
    Sorting.SortedUnique(Less, a, b);
  }

  /** Only registered services are ever impacted. */
  lemma ImpactedAreRegistered(st: State, id: string, x: string)
    requires Integral(st) && Impacted(st, id, x)
    ensures x in st.services
  {
    hide Registrable, Proper;
    var chain :| IsChain(st, chain) && chain[0] == id && chain[|chain| - 1] == x;
    assert DependsOn(st, chain[|chain| - 2 + 1], chain[|chain| - 2]);
  }

  /** One more enabled required relationship under a new id adds exactly one edge. */
  lemma NewRelationshipAddsEdge(st: State, r: Relationship)
    requires r.id !in st.relationships && r.enabled && r.required
    ensures ReverseEdges(WithRelationship(st, r)) == ReverseEdges(st) + {(r.to, r.from)}
  {
    var after := WithRelationship(st, r).relationships;
    assert after.Keys == st.relationships.Keys + {r.id};
    var before := RequirementEdges(st.relationships, st.relationships.Keys);
    var now := RequirementEdges(after, after.Keys);
    forall e ensures e in now <==> e in before + {(r.to, r.from)} {
      if e in now {
        var k :| k in after && after[k].enabled && after[k].required && e == (after[k].to, after[k].from);
        if k != r.id { assert st.relationships[k] == after[k]; }
      }
      if e in before {
        var k :| k in st.relationships && st.relationships[k].enabled && st.relationships[k].required
                 && e == (st.relationships[k].to, st.relationships[k].from);
        assert after[k] == st.relationships[k];
      }
      if e == (r.to, r.from) { assert after[r.id] == r; }
    }
    assert now == before + {(r.to, r.from)};
  }

  /** The incremental law: where the new target is x itself or already impacted by x, the
      impact of x gains the new source and everything impacted by it, x excepted; elsewhere
      nothing changes. */
  lemma ImpactGrowsBy(st: State, r: Relationship, x: string, y: string)
    requires r.id !in st.relationships && r.enabled && r.required
    ensures (r.to == x || Impacted(st, x, r.to)) ==>
              (Impacted(WithRelationship(st, r), x, y) <==>
               (Impacted(st, x, y) || y == r.from || Impacted(st, r.from, y)) && y != x)
    ensures !(r.to == x || Impacted(st, x, r.to)) ==> (Impacted(WithRelationship(st, r), x, y) <==> Impacted(st, x, y))
  {
    NewRelationshipAddsEdge(st, r);
    var g := ReverseEdges(st);
    ImpactedIsReached(WithRelationship(st, r), x, y);
    ImpactedIsReached(st, x, y);
    ImpactedIsReached(st, x, r.to);
    ImpactedIsReached(st, r.from, y);
    Graph.ReachWithEdge(g, r.to, r.from, x, y);
    Graph.ReachesItself(g, x);
    Graph.ReachesItself(g, r.from);
    hide Impacted, Graph.Reaches, ReverseEdges, WithRelationship;
  }

  /** A relationship that is disabled or not required leaves every impact alone. */
  lemma OptionalRelationshipKeepsImpact(st: State, r: Relationship, x: string, y: string)
    requires r.id !in st.relationships && !(r.enabled && r.required)
    ensures Impacted(WithRelationship(st, r), x, y) <==> Impacted(st, x, y)
  {
    var after := WithRelationship(st, r).relationships;
    var before := RequirementEdges(st.relationships, st.relationships.Keys);
    forall e ensures e in RequirementEdges(after, after.Keys) <==> e in before {
      if e in before {
        var k :| k in st.relationships && st.relationships[k].enabled && st.relationships[k].required
                 && e == (st.relationships[k].to, st.relationships[k].from);
        assert after[k] == st.relationships[k];
      }
    }
    assert RequirementEdges(after, after.Keys) == before;
    ImpactedIsReached(st, x, y);
    ImpactedIsReached(WithRelationship(st, r), x, y);
    hide Impacted, Graph.Reaches, RequirementEdges;
  }

  lemma NewServiceAddsEdges(st: State, s: Service)
    requires s.id !in st.services
    ensures ReverseEdges(WithService(st, s)) == ReverseEdges(st) + Graph.EdgesInto((set d | d in s.dependencies), s.id)
  {
    var after := WithService(st, s).services;
    assert after.Keys == st.services.Keys + {s.id};
    var before := DependencyEdges(st.services, st.services.Keys);
    var more := Graph.EdgesInto((set d | d in s.dependencies), s.id);
    forall e ensures e in DependencyEdges(after, after.Keys) <==> e in before + more {
      if e in DependencyEdges(after, after.Keys) {
        var k, d :| k in after && d in after[k].dependencies && e == (d, after[k].id);
        if k != s.id { assert after[k] == st.services[k]; }
      }
      if e in before {
        var k, d :| k in st.services && d in st.services[k].dependencies && e == (d, st.services[k].id);
        assert after[k] == st.services[k];
      }
      if e in more { assert after[s.id] == s; }
    }
    assert DependencyEdges(after, after.Keys) == before + more;
  }

  /** The incremental law for a service registered under a new id: where one of its
      dependencies is x itself or already impacted by x, the impact of x gains the service
      and everything impacted by it. */
  lemma ImpactGrowsByService(st: State, s: Service, x: string, y: string)
    requires s.id !in st.services
    ensures Impacted(WithService(st, s), x, y) <==>
            y != x && (Impacted(st, x, y) ||
                       ((exists d :: d in s.dependencies && (d == x || Impacted(st, x, d))) && (y == s.id || Impacted(st, s.id, y))))
  {
    NewServiceAddsEdges(st, s);
    var g := ReverseEdges(st);
    ImpactedIsReached(WithService(st, s), x, y);
    ImpactedIsReached(st, s.id, y);
    forall z ensures Impacted(st, x, z) <==> z != x && Graph.Reaches(g, x, z) { ImpactedIsReached(st, x, z); }
    Graph.ReachWithEdgesInto(g, (set d | d in s.dependencies), s.id, x, y);
    Graph.ReachesItself(g, x);
    Graph.ReachesItself(g, s.id);
    hide Impacted, Graph.Reaches, ReverseEdges, WithService;
  }

  /** In an integral state, a target that a caller may use is one that discovery of the
      capability lists: registered capabilities are trimmed already. */
  lemma AllowedIsDiscovered(st: State, req: PolicyRequest)
    requires Integral(st) && Authorized(st, req)
    ensures TrimSpace(req.target) in st.services
    ensures st.services[TrimSpace(req.target)].health != "unavailable"
    ensures TrimSpace(req.capability) in st.services[TrimSpace(req.target)].capabilities
  {
    hide Proper;
    var target := st.services[TrimSpace(req.target)];
    assert Registrable(target);
    var i :| 0 <= i < |target.capabilities| && target.capabilities[i] == req.capability;
    assert Tight(req.capability);
    TrimTight(req.capability);
  }

  /** A new relationship that is disabled, or for another capability, changes no decision. */
  lemma OtherRelationshipsKeepVerdicts(st: State, r: Relationship, req: PolicyRequest)
    requires r.id !in st.relationships && (!r.enabled || r.capability !in ["", req.capability])
    ensures Verdict(WithRelationship(st, r), req) == Verdict(st, req)
    ensures Authorized(WithRelationship(st, r), req) <==> Authorized(st, req)
  {
    hide TrimSpace;
    VerdictMeans(st, req);
    VerdictMeans(WithRelationship(st, r), req);
    var after := WithRelationship(st, r);
    hide IsVerdict, Authorized;
    assert forall k :: k in st.relationships ==> k in after.relationships && after.relationships[k] == st.relationships[k];
    assert forall k :: k in after.relationships && k != r.id ==> k in st.relationships;
  }
}

/** Reachability over a finite set of directed edges. */
module Graph {

  type Edges = set<(string, string)>

  ghost predicate IsPath(g: Edges, p: seq<string>) {
    p != [] && forall i :: 0 <= i < |p| - 1 ==> (p[i], p[i + 1]) in g
  }

  ghost predicate Reaches(g: Edges, a: string, b: string) {
    exists p :: IsPath(g, p) && p[0] == a && p[|p| - 1] == b
  }

  lemma ReachesItself(g: Edges, a: string)
    ensures Reaches(g, a, a)
  {
    assert IsPath(g, [a]);
  }

  lemma ReachesNext(g: Edges, a: string, b: string, c: string)
    requires Reaches(g, a, b) && (b, c) in g
    ensures Reaches(g, a, c)
  {
    var p :| IsPath(g, p) && p[0] == a && p[|p| - 1] == b;
    assert IsPath(g, p + [c]);
  }

  /** A set that contains the start and every successor of its members contains
      everything that can be reached. */
  lemma {:induction false} ClosedContains(g: Edges, s: iset<string>, p: seq<string>)
    requires IsPath(g, p) && p[0] in s
    requires forall a, b :: a in s && (a, b) in g ==> b in s
    ensures p[|p| - 1] in s
  {
    if |p| > 1 {
      var front := p[..|p| - 1];
      assert IsPath(g, front);
      ClosedContains(g, s, front);
      assert (p[|p| - 2], p[|p| - 1]) in g;
    }
  }

  lemma ClosedReach(g: Edges, s: iset<string>, a: string, b: string)
    requires a in s && Reaches(g, a, b)
    requires forall x, y :: x in s && (x, y) in g ==> y in s
    ensures b in s
  {
    var p :| IsPath(g, p) && p[0] == a && p[|p| - 1] == b;
    ClosedContains(g, s, p);
  }

  lemma ReachesThrough(g: Edges, a: string, b: string, c: string)
    requires Reaches(g, a, b) && Reaches(g, b, c)
    ensures Reaches(g, a, c)
  {
    var from := iset x | Reaches(g, a, x);
    forall x, y | x in from && (x, y) in g ensures y in from { ReachesNext(g, a, x, y); }
    ClosedReach(g, from, b, c);
  }

  lemma MoreEdgesReachMore(g: Edges, h: Edges, a: string, b: string)
    requires g <= h && Reaches(g, a, b)
    ensures Reaches(h, a, b)
  {
    var p :| IsPath(g, p) && p[0] == a && p[|p| - 1] == b;
    assert IsPath(h, p);
  }

  function EdgesInto(us: set<string>, v: string): Edges {
    set u | u in us :: (u, v)
  }

  /** More edges into v: the new paths are those that run to one of their starts, over it
      and on from v. */
  lemma ReachWithEdgesInto(g: Edges, us: set<string>, v: string, a: string, b: string)
    ensures Reaches(g + EdgesInto(us, v), a, b) <==>
            Reaches(g, a, b) || ((exists u :: u in us && Reaches(g, a, u)) && Reaches(g, v, b))
  {
    var h := g + EdgesInto(us, v);
    var entered := exists u :: u in us && Reaches(g, a, u);
    if Reaches(h, a, b) {
      var known := iset x | Reaches(g, a, x) || (entered && Reaches(g, v, x));
      ReachesItself(g, a);
      ReachesItself(g, v);
      forall x, y | x in known && (x, y) in h ensures y in known {
        if Reaches(g, a, x) {
          if (x, y) in g { ReachesNext(g, a, x, y); }
        } else {
          if (x, y) in g { ReachesNext(g, v, x, y); }
        }
      }
      hide Reaches;
      ClosedReach(h, known, a, b);
    }
    if Reaches(g, a, b) { MoreEdgesReachMore(g, h, a, b); }
    if entered && Reaches(g, v, b) {
      var u :| u in us && Reaches(g, a, u);
      MoreEdgesReachMore(g, h, a, u);
      assert (u, v) in h;
      ReachesNext(h, a, u, v);
      MoreEdgesReachMore(g, h, v, b);
      ReachesThrough(h, a, v, b);
    }
  }

  /** One more edge (u, v): the new paths are those that run to u, over it and on from v. */
  lemma ReachWithEdge(g: Edges, u: string, v: string, a: string, b: string)
    ensures Reaches(g + {(u, v)}, a, b) <==> Reaches(g, a, b) || (Reaches(g, a, u) && Reaches(g, v, b))
  {
    assert EdgesInto({u}, v) == {(u, v)};
    ReachWithEdgesInto(g, {u}, v, a, b);
    hide Reaches;
  }
}

/** The import graph of the v2 language server (languageserver/server2/depgraph.go).

    `ImportGraph` holds the mathematics: paths, reachability and the set of transitive
    dependents of a node.  `DependencyGraphs` holds the class that the server mutates.
    An edge from `a` to `b` means "a imports b". */
module ImportGraph {
  import opened Prelude

  type Edges = map<Key, set<Key>>

  function Targets(g: Edges, a: Key): set<Key> {
    if a in g then g[a] else {}
  }

  predicate HasEdge(g: Edges, a: Key, b: Key) {
    b in Targets(g, a)
  }

  function WithEdge(g: Edges, a: Key, b: Key): Edges {
    g[a := Targets(g, a) + {b}]
  }

  function WithoutEdgesOf(g: Edges, a: Key): Edges {
    g - {a}
  }

  /** `p` is a walk along edges of `g` that stays inside `within`. */
  ghost predicate IsPath(g: Edges, p: seq<Key>, within: iset<Key>) {
    && p != []
    && (forall i | 0 <= i < |p| :: p[i] in within)
    && (forall i | 0 <= i < |p| - 1 :: HasEdge(g, p[i], p[i + 1]))
  }

  ghost predicate IsPathBetween(g: Edges, p: seq<Key>, a: Key, b: Key, within: iset<Key>) {
    IsPath(g, p, within) && p[0] == a && p[|p| - 1] == b
  }

  /** `b` can be reached from `a` in zero or more edges, visiting only nodes in `within`. */
  ghost predicate ReachesWithin(g: Edges, a: Key, b: Key, within: iset<Key>) {
    exists p :: IsPathBetween(g, p, a, b, within)
  }

  ghost function Everywhere(): iset<Key> {
    iset k: Key | 0 <= |k|
  }

  ghost predicate Reaches(g: Edges, a: Key, b: Key) {
    ReachesWithin(g, a, b, Everywhere())
  }

  /** Everything that imports `u`, directly or not, other than `u` itself. */
  ghost function Dependents(g: Edges, u: Key): set<Key> {
    set v | v in g.Keys && v != u && Reaches(g, v, u)
  }

  lemma ReachesSelf(g: Edges, a: Key, within: iset<Key>)
    requires a in within
    ensures ReachesWithin(g, a, a, within)
  {
    assert IsPathBetween(g, [a], a, a, within);
  }

  lemma ReachesStep(g: Edges, a: Key, b: Key, c: Key, within: iset<Key>)
    requires HasEdge(g, a, b) && a in within && ReachesWithin(g, b, c, within)
    ensures ReachesWithin(g, a, c, within)
  {
    var p :| IsPathBetween(g, p, b, c, within);
    assert IsPathBetween(g, [a] + p, a, c, within);
  }

  lemma ReachesTransitive(g: Edges, a: Key, b: Key, c: Key, within: iset<Key>)
    requires ReachesWithin(g, a, b, within) && ReachesWithin(g, b, c, within)
    ensures ReachesWithin(g, a, c, within)
  {
    var p :| IsPathBetween(g, p, a, b, within);
    var q :| IsPathBetween(g, q, b, c, within);
    var r := p + q[1..];
    assert forall i | 0 <= i < |r| - 1 :: HasEdge(g, r[i], r[i + 1]) by {
      forall i | 0 <= i < |r| - 1
        ensures HasEdge(g, r[i], r[i + 1])
      {
        if i < |p| - 1 {
        } else if i == |p| - 1 {
          assert r[i] == q[0] && r[i + 1] == q[1];
        } else {
          var j := i - |p| + 1;
          assert r[i] == q[j] && r[i + 1] == q[j + 1];
        }
      }
    }
    assert IsPathBetween(g, r, a, c, within);
  }

  /** A path survives in any graph that still has the edges out of its nodes. */
  lemma ReachesIn(g: Edges, h: Edges, a: Key, b: Key, within: iset<Key>, wider: iset<Key>)
    requires ReachesWithin(g, a, b, within)
    requires within <= wider
    requires forall x | x in within :: Targets(g, x) <= Targets(h, x)
    ensures ReachesWithin(h, a, b, wider)
  {
    var p :| IsPathBetween(g, p, a, b, within);
    assert IsPathBetween(h, p, a, b, wider);
  }

  /** Only `u` itself is outside the key set of `g` and still reaches `u`. */
  lemma DependentsExact(g: Edges, u: Key, v: Key)
    ensures v in Dependents(g, u) <==> v != u && Reaches(g, v, u)
  {
    if v != u && Reaches(g, v, u) {
      var p :| IsPathBetween(g, p, v, u, Everywhere());
      assert HasEdge(g, p[0], p[1]);
    }
  }

  /** Every path to `u` can be cut at its first visit to `u`. */
  lemma {:induction false} CutAtFirstVisit(g: Edges, u: Key, p: seq<Key>, v: Key)
    requires IsPathBetween(g, p, v, u, Everywhere())
    ensures Reaches(WithoutEdgesOf(g, u), v, u)
    decreases |p|
  {
    var h := WithoutEdgesOf(g, u);
    if v == u {
      ReachesSelf(h, u, Everywhere());
    } else {
      CutAtFirstVisit(g, u, p[1..], p[1]);
      assert HasEdge(g, p[0], p[1]);
      ReachesStep(h, v, p[1], u, Everywhere());
    }
  }

  /** Clearing the imports of `u` leaves the dependents of `u` as they were, so a removal may
      clear the edges before or after it computes what to invalidate. */
  lemma ClearKeepsDependents(g: Edges, u: Key)
    ensures Dependents(WithoutEdgesOf(g, u), u) == Dependents(g, u)
  {
    var h := WithoutEdgesOf(g, u);
    forall v
      ensures v in Dependents(h, u) <==> v in Dependents(g, u)
    {
      DependentsExact(g, u, v);
      DependentsExact(h, u, v);
      if Reaches(g, v, u) {
        var p :| IsPathBetween(g, p, v, u, Everywhere());
        CutAtFirstVisit(g, u, p, v);
      }
      if Reaches(h, v, u) {
        ReachesIn(h, g, v, u, Everywhere(), Everywhere());
      }
    }
  }

  /** A node that does not reach `u` keeps all its paths when the imports of `u` are cleared. */
  lemma ClearKeepsPathsOfOthers(g: Edges, u: Key, a: Key, b: Key, within: iset<Key>)
    requires ReachesWithin(g, a, b, within) && !Reaches(g, a, u)
    ensures ReachesWithin(WithoutEdgesOf(g, u), a, b, within)
  {
    var p :| IsPathBetween(g, p, a, b, within);
    forall i | 0 <= i < |p|
      ensures p[i] != u
    {
      assert IsPathBetween(g, p[..i + 1], a, p[i], Everywhere());
    }
    assert IsPathBetween(WithoutEdgesOf(g, u), p, a, b, within);
  }

  /** `r` is the graph `g` with every edge turned round, and mentions no node without edges. */
  ghost predicate IsTranspose(g: Edges, r: Edges) {
    && (forall a, b :: HasEdge(g, a, b) <==> HasEdge(r, b, a))
    && (forall a | a in g :: g[a] != {})
    && (forall b | b in r :: r[b] != {})
  }

  lemma TransposeWithEdge(g: Edges, r: Edges, a: Key, b: Key)
    requires IsTranspose(g, r)
    ensures IsTranspose(WithEdge(g, a, b), WithEdge(r, b, a))
  {
    forall x, y
      ensures HasEdge(WithEdge(g, a, b), x, y) <==> HasEdge(WithEdge(r, b, a), y, x)
    {
      assert HasEdge(WithEdge(g, a, b), x, y) <==> HasEdge(g, x, y) || (x == a && y == b);
      assert HasEdge(WithEdge(r, b, a), y, x) <==> HasEdge(r, y, x) || (x == a && y == b);
    }
  }

  /** A graph has one transpose only: the reverse map is determined by the forward map. */
  lemma TransposeUnique(g: Edges, r: Edges, s: Edges)
    requires IsTranspose(g, r) && IsTranspose(g, s)
    ensures r == s
  {
    forall b
      ensures Targets(r, b) == Targets(s, b)
    {
      assert forall a :: a in Targets(r, b) <==> HasEdge(g, a, b);
      assert forall a :: a in Targets(s, b) <==> HasEdge(g, a, b);
    }
    forall b
      ensures b in r <==> b in s
    {
      assert Targets(r, b) == Targets(s, b);
    }
    forall b | b in r && b in s
      ensures r[b] == s[b]
    {
      assert Targets(r, b) == Targets(s, b);
    }
  }

  /** If a set is closed under incoming edges and holds `u`, it holds all that reaches `u`. */
  lemma {:induction false} ClosedSetHoldsPath(g: Edges, closed: set<Key>, p: seq<Key>, u: Key)
    requires IsPath(g, p, Everywhere()) && p[|p| - 1] == u && u in closed
    requires forall a, b | b in closed && HasEdge(g, a, b) :: a in closed
    ensures p[0] in closed
    decreases |p|
  {
    if |p| > 1 {
      ClosedSetHoldsPath(g, closed, p[1..], u);
      assert HasEdge(g, p[0], p[1]);
    }
  }
}

module DependencyGraphs {
  import opened Prelude
  import opened ImportGraph

  class DependencyGraph {
    var forward: Edges
    var reverse: Edges

    ghost predicate Valid()
      reads this
    {
      IsTranspose(forward, reverse)
    }

    constructor ()
      ensures Valid() && forward == map[]
    {
      forward, reverse := map[], map[];
    }

    method AddEdge(from: Key, to: Key)
      requires Valid()
      modifies this
      ensures Valid()
      ensures forward == WithEdge(old(forward), from, to)
      ensures forall a, b :: HasEdge(forward, a, b) <==> HasEdge(old(forward), a, b) || (a == from && b == to)
    {
      TransposeWithEdge(forward, reverse, from, to);
      var imports := if from in forward then forward[from] else {};
      forward := forward[from := imports + {to}];
      var importers := if to in reverse then reverse[to] else {};
      reverse := reverse[to := importers + {from}];
    }

    /** The imports of `uri`, in some order. */
    method DependenciesOf(uri: Key) returns (result: seq<Key>)
      ensures NoDuplicates(result)
      ensures forall v :: v in result <==> HasEdge(forward, uri, v)
    {
      result := Listing(Targets(forward, uri));
    }

    /** The importers of `uri`, in some order. */
    method DependentsOf(uri: Key) returns (result: seq<Key>)
      requires Valid()
      ensures NoDuplicates(result)
      ensures forall v :: v in result <==> HasEdge(forward, v, uri)
    {
      result := Listing(Targets(reverse, uri));
    }

    /** Breadth-first search over reverse edges. */
    method Invalidate(uri: Key) returns (result: seq<Key>)
      requires Valid()
      ensures NoDuplicates(result)
      ensures forall v :: v in result <==> v != uri && Reaches(forward, v, uri)
    {
      var visited := {uri};
      var queue := [uri];
      ghost var universe := forward.Keys + {uri};
      ReachesSelf(forward, uri, Everywhere());
      while queue != []
        invariant uri in visited && visited <= universe
        invariant forall v | v in queue :: v in visited
        invariant forall v | v in visited :: Reaches(forward, v, uri)
        invariant forall a, b | b in visited && b !in queue && HasEdge(forward, a, b) :: a in visited
        decreases universe - visited, |queue|
      {
        var current := queue[0];
        ghost var before, rest := visited, queue[1..];
        assert forall v | v in queue :: v == current || v in rest;
        queue := queue[1..];
        var todo := Targets(reverse, current);
        while todo != {}
          invariant todo <= Targets(reverse, current)
          invariant before <= visited <= universe
          invariant visited == before ==> queue == rest
          invariant forall v | v in queue :: v in visited
          invariant forall v | v in visited :: Reaches(forward, v, uri)
          invariant forall v | v in visited && v !in queue :: v in before && v !in rest
          invariant Targets(reverse, current) - todo <= visited
          decreases todo
        {
          var dep :| dep in todo;
          todo := todo - {dep};
          if dep !in visited {
            assert HasEdge(reverse, current, dep);
            assert HasEdge(forward, dep, current);
            ReachesStep(forward, dep, current, uri, Everywhere());
            ghost var q := queue;
            visited := visited + {dep};
            queue := queue + [dep];
            assert dep in queue;
            assert forall v | v in q :: v in queue;
          }
        }
        forall a, b | b in visited && b !in queue && HasEdge(forward, a, b)
          ensures a in visited
        {
          if b == current {
            assert HasEdge(reverse, b, a);
          } else {
            assert b in before && b !in rest;
          }
        }
        assert visited != before ==> universe - visited < universe - before;
      }
      forall v | v != uri && Reaches(forward, v, uri)
        ensures v in visited
      {
        var p :| IsPathBetween(forward, p, v, uri, Everywhere());
        ClosedSetHoldsPath(forward, visited, p, uri);
      }
      result := Listing(visited - {uri});
    }

    method ClearDependenciesOf(uri: Key)
      requires Valid()
      modifies this
      ensures Valid()
      ensures forward == WithoutEdgesOf(old(forward), uri)
      ensures forall a, b :: HasEdge(forward, a, b) <==> HasEdge(old(forward), a, b) && a != uri
    {
      var targets := Targets(forward, uri);
      var todo := targets;
      while todo != {}
        invariant todo <= targets && forward == old(forward)
        invariant forall b :: Targets(reverse, b)
                           == if b in targets - todo then old(Targets(reverse, b)) - {uri} else old(Targets(reverse, b))
        invariant forall b | b in reverse :: reverse[b] != {}
        decreases todo
      {
        var to :| to in todo;
        todo := todo - {to};
        if to in reverse {
          reverse := reverse[to := reverse[to] - {uri}];
          if reverse[to] == {} {
            reverse := reverse - {to};
          }
        }
      }
      forward := forward - {uri};
      forall a, b
        ensures HasEdge(forward, a, b) <==> HasEdge(reverse, b, a)
      {
        assert old(HasEdge(forward, a, b)) <==> old(HasEdge(reverse, b, a));
        assert b in targets <==> old(HasEdge(forward, uri, b));
      }
    }
  }

  /** A file without recorded imports is analysed, which records any number of them, and then removed:
      both maps are as they were. */
  method RecordThenClear(graph: DependencyGraph, uri: Key, imports: seq<Key>)
    requires graph.Valid() && uri !in graph.forward
    modifies graph
    ensures graph.Valid()
    ensures graph.forward == old(graph.forward) && graph.reverse == old(graph.reverse)
  {
    for i := 0 to |imports|
      invariant graph.Valid()
      invariant graph.forward - {uri} == old(graph.forward)
    {
      graph.AddEdge(uri, imports[i]);
    }
    graph.ClearDependenciesOf(uri);
    TransposeUnique(graph.forward, old(graph.reverse), graph.reverse);
  }

  /** Collects a set into a slice, as Go's `range` over a map does: each member once, any order. */
  method Listing(s: set<Key>) returns (result: seq<Key>)
    ensures NoDuplicates(result)
    ensures forall v :: v in result <==> v in s
  {
    result := [];
    var todo := s;
    while todo != {}
      invariant todo <= s
      invariant NoDuplicates(result)
      invariant forall i | 0 <= i < |result| :: result[i] in s - todo
      invariant forall v | v in s - todo :: v in result
      decreases todo
    {
      var v :| v in todo;
      todo := todo - {v};
      assert v !in result;
      result := result + [v];
    }
  }
}

/** Directed graphs as the component counter receives them, paths, and mutual reachability. */
module Reachability {
  import opened Keys

  /** `adjacency`: for each key, its neighbours in the order the source iterates them. */
  type Graph = map<Key, seq<Key>>

  function Neighbours(g: Graph, x: Key): seq<Key>
  {
    if x in g then g[x] else []
  }

  predicate Edge(g: Graph, x: Key, y: Key)
  {
    y in Neighbours(g, x)
  }

  /** `p` is a non-empty walk along edges from `x` to `y`. */
  ghost predicate IsWalk(g: Graph, p: seq<Key>, x: Key, y: Key)
  {
    && |p| > 0 && p[0] == x && p[|p| - 1] == y
    && forall i :: 0 <= i < |p| - 1 ==> Edge(g, p[i], p[i + 1])
  }

  ghost predicate Reach(g: Graph, x: Key, y: Key)
  {
    exists p :: IsWalk(g, p, x, y)
  }

  ghost predicate Mutual(g: Graph, x: Key, y: Key)
  {
    Reach(g, x, y) && Reach(g, y, x)
  }

  lemma ReachRefl(g: Graph, x: Key)
    ensures Reach(g, x, x)
  {
    assert IsWalk(g, [x], x, x);
  }

  lemma ReachEdge(g: Graph, x: Key, y: Key)
    requires Edge(g, x, y)
    ensures Reach(g, x, y)
  {
    assert IsWalk(g, [x, y], x, y);
  }

  lemma ReachTrans(g: Graph, x: Key, y: Key, z: Key)
    requires Reach(g, x, y) && Reach(g, y, z)
    ensures Reach(g, x, z)
  {
    var p :| IsWalk(g, p, x, y);
    var q :| IsWalk(g, q, y, z);
    var r := p + q[1..];
    forall i | 0 <= i < |r| - 1
      ensures Edge(g, r[i], r[i + 1])
    {
      if i >= |p| - 1 {
        assert r[i] == q[i - |p| + 1] && r[i + 1] == q[i - |p| + 2];
      }
    }
    assert IsWalk(g, r, x, z);
  }

  /** A walk that leaves `s` does so along some edge. */
  lemma {:induction false} Crossing(g: Graph, s: set<Key>, p: seq<Key>, x: Key, y: Key) returns (u: Key, v: Key)
    requires IsWalk(g, p, x, y)
    requires x in s && y !in s
    ensures u in s && v !in s && Edge(g, u, v)
    ensures Reach(g, x, u) && Reach(g, v, y)
    decreases |p|
  {
    var q := p[1..];
    assert Edge(g, p[0], p[1]);
    forall i | 0 <= i < |q| - 1
      ensures Edge(g, q[i], q[i + 1])
    {
      assert Edge(g, p[i + 1], p[i + 2]);
    }
    assert IsWalk(g, q, p[1], y);
    if p[1] in s {
      u, v := Crossing(g, s, q, p[1], y);
      ReachEdge(g, x, p[1]);
      ReachTrans(g, x, p[1], u);
    } else {
      u, v := x, p[1];
      ReachRefl(g, x);
    }
  }

  /** Everything that can be named: the roots and every key listed as a neighbour. */
  ghost function Universe(g: Graph, roots: seq<Key>): set<Key>
  {
    (set r | r in roots) + (set x, y | x in g && y in g[x] :: y)
  }

  /** The keys reachable from some root. */
  ghost function Reachable(g: Graph, roots: seq<Key>): set<Key>
  {
    set x | x in Universe(g, roots) && exists r :: r in roots && Reach(g, r, x)
  }

  ghost function ClassOf(g: Graph, roots: seq<Key>, x: Key): set<Key>
  {
    set y | y in Reachable(g, roots) && Mutual(g, x, y)
  }

  /** The mutual-reachability classes of the keys reachable from the roots. */
  ghost function Classes(g: Graph, roots: seq<Key>): set<set<Key>>
  {
    set x | x in Reachable(g, roots) :: ClassOf(g, roots, x)
  }

  lemma UniverseClosed(g: Graph, roots: seq<Key>, x: Key, y: Key)
    requires x in Universe(g, roots) && Reach(g, x, y)
    ensures y in Universe(g, roots)
  {
    if y !in Universe(g, roots) {
      var p :| IsWalk(g, p, x, y);
      var u, v := Crossing(g, Universe(g, roots), p, x, y);
    }
  }

  /** Restricting to the finite universe loses nothing. */
  lemma ReachableExact(g: Graph, roots: seq<Key>, x: Key)
    ensures x in Reachable(g, roots) <==> exists r :: r in roots && Reach(g, r, x)
  {
    if r :| r in roots && Reach(g, r, x) {
      UniverseClosed(g, roots, r, x);
    }
  }

  lemma ReachableClosed(g: Graph, roots: seq<Key>, x: Key, y: Key)
    requires x in Reachable(g, roots) && Reach(g, x, y)
    ensures y in Reachable(g, roots)
  {
    var r :| r in roots && Reach(g, r, x);
    ReachTrans(g, r, x, y);
    ReachableExact(g, roots, y);
  }
}

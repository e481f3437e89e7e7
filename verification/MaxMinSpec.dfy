/** What the max-min (widest path) field is, independently of how it is computed. */
module MaxMinSpec {
  import opened Keys

  datatype Transition = Transition(from: Key, to: Key, strength: int)

  /** For each node, its outgoing transitions in the order they were appended. */
  type Edges = map<Key, seq<Transition>>

  function Out(edges: Edges, u: Key): seq<Transition>
  {
    if u in edges then edges[u] else []
  }

  function Min(a: int, b: int): int
  {
    if a <= b then a else b
  }

  /** A path from a start node along transitions, last one outermost. */
  datatype Path = Start(node: Key) | Along(prefix: Path, last: Transition)

  ghost function End(p: Path): Key
  {
    if p.Start? then p.node else p.last.to
  }

  ghost predicate PathOk(start: map<Key, int>, edges: Edges, p: Path)
  {
    if p.Start? then p.node in start
    else PathOk(start, edges, p.prefix) && p.last in Out(edges, End(p.prefix))
  }

  /** The bottleneck of a path: the least of its start grade and its strengths. */
  ghost function Grade(start: map<Key, int>, p: Path): int
  {
    if p.Start? then (if p.node in start then start[p.node] else 0)
    else Min(Grade(start, p.prefix), p.last.strength)
  }

  // ---------- the same, without start grades ----------

  ghost function Origin(p: Path): Key
  {
    if p.Start? then p.node else Origin(p.prefix)
  }

  ghost predicate Walk(edges: Edges, p: Path)
  {
    p.Along? ==> Walk(edges, p.prefix) && p.last in Out(edges, End(p.prefix))
  }

  /** The least of a grade brought along and the strengths on the way. */
  ghost function Bottleneck(g: int, p: Path): int
  {
    if p.Start? then g else Min(Bottleneck(g, p.prefix), p.last.strength)
  }

  lemma {:induction false} PathIsWalk(start: map<Key, int>, edges: Edges, p: Path)
    ensures PathOk(start, edges, p) <==> Walk(edges, p) && Origin(p) in start
    ensures Origin(p) in start ==> Grade(start, p) == Bottleneck(start[Origin(p)], p)
  {
    if p.Along? { PathIsWalk(start, edges, p.prefix); }
  }

  lemma {:induction false} BottleneckGrows(a: int, b: int, p: Path)
    requires a <= b
    ensures Bottleneck(a, p) <= Bottleneck(b, p)
  {
    if p.Along? { BottleneckGrows(a, b, p.prefix); }
  }

  // ---------- the field ----------

  ghost predicate Attains(start: map<Key, int>, edges: Edges, p: Path, n: Key, g: int)
  {
    PathOk(start, edges, p) && End(p) == n && Grade(start, p) == g
  }

  ghost predicate Attained(start: map<Key, int>, edges: Edges, n: Key, g: int)
  {
    exists p :: Attains(start, edges, p, n, g)
  }

  /** `values` holds, at exactly the nodes some path reaches, the largest bottleneck of a path. */
  ghost predicate IsField(start: map<Key, int>, edges: Edges, values: map<Key, int>)
  {
    && (forall p :: PathOk(start, edges, p) ==> End(p) in values && Grade(start, p) <= values[End(p)])
    && (forall n :: n in values ==> Attained(start, edges, n, values[n]))
  }

  ghost predicate SameEdges(a: Edges, b: Edges)
  {
    forall u, e :: e in Out(a, u) <==> e in Out(b, u)
  }

  lemma {:induction false} SameEdgesPath(start: map<Key, int>, a: Edges, b: Edges, p: Path)
    requires SameEdges(a, b) && PathOk(start, a, p)
    ensures PathOk(start, b, p)
  {
    if p.Along? { SameEdgesPath(start, a, b, p.prefix); }
  }

  lemma FieldBelow(start: map<Key, int>, a: Edges, b: Edges, v: map<Key, int>, w: map<Key, int>, n: Key)
    requires SameEdges(a, b) && IsField(start, a, v) && IsField(start, b, w) && n in v
    ensures n in w && v[n] <= w[n]
  {
    hide SameEdges;
    assert Attained(start, a, n, v[n]);
    var p :| Attains(start, a, p, n, v[n]);
    SameEdgesPath(start, a, b, p);
  }

  /** The field is determined by the start grades and the set of transitions. */
  lemma FieldUnique(start: map<Key, int>, a: Edges, b: Edges, v: map<Key, int>, w: map<Key, int>)
    requires SameEdges(a, b) && IsField(start, a, v) && IsField(start, b, w)
    ensures v == w
  {
    SameEdgesSym(a, b);
    hide IsField, SameEdges;
    forall n | n in v ensures n in w && v[n] == w[n] {
      FieldBelow(start, a, b, v, w, n);
      FieldBelow(start, b, a, w, v, n);
    }
    forall n | n in w ensures n in v { FieldBelow(start, b, a, w, v, n); }
  }

  lemma SameEdgesSym(a: Edges, b: Edges)
    requires SameEdges(a, b)
    ensures SameEdges(b, a)
  {
  }

  // ---------- what a finished relaxation must satisfy ----------

  ghost predicate Relaxed(values: map<Key, int>, v: int, e: Transition)
  {
    e.to in values && Min(v, e.strength) <= values[e.to]
  }

  ghost predicate ClosedUnder(edges: Edges, values: map<Key, int>)
  {
    forall u, i :: u in values && 0 <= i < |Out(edges, u)| ==> Relaxed(values, values[u], Out(edges, u)[i])
  }

  ghost predicate Supports(start: map<Key, int>, edges: Edges, p: Path, n: Key, g: int)
  {
    PathOk(start, edges, p) && End(p) == n && g <= Grade(start, p)
  }

  ghost predicate Supported(start: map<Key, int>, edges: Edges, n: Key, g: int)
  {
    exists p :: Supports(start, edges, p, n, g)
  }

  /** Every value is backed by some path, and every start grade is respected. */
  ghost predicate Sound(start: map<Key, int>, edges: Edges, values: map<Key, int>)
  {
    && (forall n :: n in values ==> Supported(start, edges, n, values[n]))
    && (forall s :: s in start ==> s in values && start[s] <= values[s])
  }

  lemma {:induction false} ClosedBoundsPath(start: map<Key, int>, edges: Edges, values: map<Key, int>, p: Path)
    requires Sound(start, edges, values) && ClosedUnder(edges, values) && PathOk(start, edges, p)
    ensures End(p) in values && Grade(start, p) <= values[End(p)]
  {
    hide Supported;
    if p.Along? {
      ClosedBoundsPath(start, edges, values, p.prefix);
      var u := End(p.prefix);
      var i :| 0 <= i < |Out(edges, u)| && Out(edges, u)[i] == p.last;
      assert Relaxed(values, values[u], Out(edges, u)[i]);
    }
  }

  lemma ClosedAttains(start: map<Key, int>, edges: Edges, values: map<Key, int>, n: Key)
    requires Sound(start, edges, values) && ClosedUnder(edges, values) && n in values
    ensures Attained(start, edges, n, values[n])
  {
    hide ClosedUnder, PathOk, Grade;
    assert Supported(start, edges, n, values[n]);
    var p :| Supports(start, edges, p, n, values[n]);
    ClosedBoundsPath(start, edges, values, p);
    assert Attains(start, edges, p, n, values[n]);
  }

  /** Sound and closed values are the field. */
  lemma ClosedIsField(start: map<Key, int>, edges: Edges, values: map<Key, int>)
    requires Sound(start, edges, values) && ClosedUnder(edges, values)
    ensures IsField(start, edges, values)
  {
    hide Supported, ClosedUnder;
    forall p | PathOk(start, edges, p) ensures End(p) in values && Grade(start, p) <= values[End(p)] {
      ClosedBoundsPath(start, edges, values, p);
    }
    forall n | n in values ensures Attained(start, edges, n, values[n]) {
      ClosedAttains(start, edges, values, n);
    }
  }
}

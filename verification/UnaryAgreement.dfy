/** On graphs whose edges are all unary, the per-grade closure and the max-min solver agree. */
module UnaryAgreement {
  import opened Keys
  import opened Numbers
  import opened MaxMinSpec
  import opened MaxMinGraph
  import opened MaxMinField
  import opened MaxMinSolver
  import opened MaxMinTheorems
  import BH = BooleanHypergraph
  import PSM = PersistentStringMap

  /** The same rows, as the hypergraph evaluator takes them. */
  function AsUnary(ts: seq<RawTransition>): seq<BH.RawEdge>
  {
    seq(|ts|, i requires 0 <= i < |ts| => BH.Unary(ts[i].from, ts[i].to, ts[i].strength))
  }

  ghost predicate SameRows(legal: seq<BH.LegalEdge>, edges: Edges)
  {
    && (forall e :: e in legal ==> e.Unary? && Transition(e.from, e.to, e.strength) in Out(edges, e.from))
    && (forall u, t :: t in Out(edges, u) ==> t.from == u && BH.Unary(t.from, t.to, t.strength) in legal)
  }

  ghost predicate Mirror(legal: seq<BH.LegalEdge>, ts: seq<Transition>)
  {
    && |legal| == |ts|
    && forall i :: 0 <= i < |ts| ==> legal[i] == BH.Unary(ts[i].from, ts[i].to, ts[i].strength)
  }

  lemma {:induction false} LegalMirror(nodes: set<Key>, ts: seq<RawTransition>, top: nat)
    ensures Mirror(BH.LegalHyper(nodes, AsUnary(ts), top), Legal(nodes, ts, top))
  {
    hide ClampInteger;
    if ts != [] {
      var rest := ts[..|ts| - 1];
      LegalMirror(nodes, rest, top);
      assert AsUnary(ts)[..|ts| - 1] == AsUnary(rest);
      var last := AsUnary(ts)[|ts| - 1];
      assert BH.PremisesOf(last) == [ts[|ts| - 1].from];
    }
  }

  lemma MirrorRows(legal: seq<BH.LegalEdge>, ts: seq<Transition>)
    requires Mirror(legal, ts)
    ensures SameRows(legal, AppendAll(map[], ts))
  {
    hide AppendAll;
    var edges := AppendAll(map[], ts);
    forall e | e in legal ensures e.Unary? && Transition(e.from, e.to, e.strength) in Out(edges, e.from) {
      var i :| 0 <= i < |ts| && legal[i] == e;
      assert ts[i] in ts;
      AppendAllOut(map[], ts, e.from, ts[i]);
    }
    forall u, t | t in Out(edges, u) ensures t.from == u && BH.Unary(t.from, t.to, t.strength) in legal {
      AppendAllOut(map[], ts, u, t);
      var i :| 0 <= i < |ts| && ts[i] == t;
      assert legal[i] in legal;
    }
  }

  lemma {:induction false} DerivedIsSupported(seeds: map<Key, int>, legal: seq<BH.LegalEdge>, edges: Edges, g: int,
                                              n: Key, k: nat)
    requires SameRows(legal, edges) && BH.Derives(seeds, legal, g, n, k)
    ensures Supported(seeds, edges, n, g)
    decreases k
  {
    if n in seeds && seeds[n] >= g {
      assert Supports(seeds, edges, Start(n), n, g);
    } else {
      var e :| e in legal && e.to == n && BH.StrongEnough(e, g) && BH.PremisesDerive(seeds, legal, g, e, k - 1);
      assert e.from in BH.PremisesOf(e);
      DerivedIsSupported(seeds, legal, edges, g, e.from, k - 1);
      var p :| Supports(seeds, edges, p, e.from, g);
      assert Supports(seeds, edges, Along(p, Transition(e.from, e.to, e.strength)), n, g);
    }
  }

  lemma {:induction false} PathIsDerived(seeds: map<Key, int>, legal: seq<BH.LegalEdge>, edges: Edges, g: int, p: Path)
    requires SameRows(legal, edges) && PathOk(seeds, edges, p) && g <= Grade(seeds, p)
    ensures BH.Derivable(seeds, legal, g, End(p))
  {
    if p.Start? {
      BH.SeedDerivable(seeds, legal, g, p.node);
    } else {
      PathIsDerived(seeds, legal, edges, g, p.prefix);
      var t := p.last;
      var e := BH.Unary(t.from, t.to, t.strength);
      assert t.from == End(p.prefix) && e in legal;
      var k: nat :| BH.Derives(seeds, legal, g, t.from, k);
      assert BH.PremisesDerive(seeds, legal, g, e, k);
      assert BH.Derives(seeds, legal, g, t.to, k + 1);
    }
  }

  /** The graded closure of unary edges is the max-min field. */
  lemma ClosureIsField(seeds: map<Key, int>, legal: seq<BH.LegalEdge>, edges: Edges, values: map<Key, int>)
    requires SameRows(legal, edges) && BH.IsGradedClosure(seeds, legal, values)
    ensures IsField(seeds, edges, values)
  {
    hide SameRows, BH.Derives;
    forall p | PathOk(seeds, edges, p) ensures End(p) in values && Grade(seeds, p) <= values[End(p)] {
      PathIsDerived(seeds, legal, edges, Grade(seeds, p), p);
    }
    forall n | n in values ensures Attained(seeds, edges, n, values[n]) {
      assert BH.Derivable(seeds, legal, values[n], n);
      var k: nat :| BH.Derives(seeds, legal, values[n], n, k);
      DerivedIsSupported(seeds, legal, edges, values[n], n, k);
      var p :| Supports(seeds, edges, p, n, values[n]);
      assert Attains(seeds, edges, p, n, values[n]);
    }
  }

  /** For every input whose edges are all unary, the evaluator and a completed fresh solve return
      the same map: the same keys, the same values, zeros included. */
  lemma UnaryAgrees(nodeIds: seq<Key>, seeds: seq<(Key, Num)>, ts: seq<RawTransition>, top: nat,
                    evaluated: map<Key, int>, input: Input, r: Result)
    requires BH.Evaluates((set id | id in nodeIds), seeds, AsUnary(ts), top, evaluated)
    requires FreshCall(input) && input.graph == Rows(nodeIds, ts) && input.seeds == seeds && input.prior == NoPrior
    requires Solves(input, top, r) && r.complete
    ensures r.Solved? && evaluated == PSM.Contents(r.values)
  {
    var nodes := set id | id in nodeIds;
    var start := RaiseAll(map[], nodes, seeds, top);
    var edges := AppendAll(map[], Legal(nodes, ts, top));
    BH.ClosureEvaluates(nodes, seeds, AsUnary(ts), top, evaluated);
    FreshSolveIsField(input, top, r);
    assert NodesOf(input.graph) == nodes;
    assert StartValues(input, top) == start && EdgesFor(input.graph, top) == edges;
    hide Solves, IsField, BH.IsGradedClosure, BH.Evaluates, RaiseAll, AppendAll, Legal, StartValues, EdgesFor, Mirror,
      SameRows;
    LegalMirror(nodes, ts, top);
    MirrorRows(BH.LegalHyper(nodes, AsUnary(ts), top), Legal(nodes, ts, top));
    ClosureIsField(start, BH.LegalHyper(nodes, AsUnary(ts), top), edges, evaluated);
    assert SameEdges(edges, edges);
    FieldUnique(start, edges, edges, evaluated, PSM.Contents(r.values));
  }
}

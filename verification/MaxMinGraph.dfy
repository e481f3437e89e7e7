/** The prepared graph: outgoing lists kept in AVL maps keyed by the decimal text of the offset,
    so that appending a transition copies no earlier one. */
module MaxMinGraph {
  import opened Options
  import opened Keys
  import opened MaxMinSpec
  import PSM = PersistentStringMap

  // ---------- decimal keys ----------

  function Digit(d: nat): CodeUnit
    requires d < 10
  {
    (48 + d) as CodeUnit
  }

  /** `String(n)` for a natural number. */
  function DecimalUnits(n: nat): seq<CodeUnit>
  {
    if n < 10 then [Digit(n)] else DecimalUnits(n / 10) + [Digit(n % 10)]
  }

  function Decimal(n: nat): Key
  {
    Key(DecimalUnits(n))
  }

  lemma {:induction false} DecimalInjective(a: nat, b: nat)
    requires DecimalUnits(a) == DecimalUnits(b)
    ensures a == b
  {
    var p, q := DecimalUnits(a), DecimalUnits(b);
    assert p[|p| - 1] == Digit(a % 10) && q[|q| - 1] == Digit(b % 10);
    if a >= 10 && b >= 10 {
      assert p[..|p| - 1] == DecimalUnits(a / 10) && q[..|q| - 1] == DecimalUnits(b / 10);
      DecimalInjective(a / 10, b / 10);
    } else {
      DecimalLong(a);
      DecimalLong(b);
    }
  }

  lemma DecimalLong(n: nat)
    ensures |DecimalUnits(n)| >= 1 && (n >= 10 ==> |DecimalUnits(n)| >= 2)
  {
    if n >= 10 { DecimalLong(n / 10); }
  }

  // ---------- one node's outgoing list ----------

  datatype Outgoing = Outgoing(length: nat, items: PSM.Tree<Transition>)

  const NO_EDGES: Outgoing := Outgoing(0, PSM.Leaf)

  ghost predicate OutValid(o: Outgoing)
  {
    PSM.Valid(o.items) && forall i: nat :: i < o.length <==> Decimal(i) in PSM.Contents(o.items)
  }

  /** The list an `Outgoing` stands for. */
  ghost function Listed(o: Outgoing): seq<Transition>
    requires OutValid(o)
  {
    seq(o.length, i requires 0 <= i < o.length => PSM.Contents(o.items)[Decimal(i)])
  }

  function Append(o: Outgoing, e: Transition): Outgoing
    requires PSM.Heights(o.items)
  {
    Outgoing(o.length + 1, PSM.Insert(o.items, Decimal(o.length), e))
  }

  lemma NoEdgesValid()
    ensures OutValid(NO_EDGES) && Listed(NO_EDGES) == []
  {
  }

  /** Appending is appending: no earlier entry is lost or moved. */
  lemma AppendLists(o: Outgoing, e: Transition)
    requires OutValid(o) && PSM.Heights(o.items)
    ensures OutValid(Append(o, e)) && Listed(Append(o, e)) == Listed(o) + [e]
  {
    hide PSM.Insert, PSM.Valid, PSM.Contents, DecimalUnits;
    PSM.InsertRefines(o.items, Decimal(o.length), e);
    forall i: nat | Decimal(i) == Decimal(o.length) ensures i == o.length {
      DecimalInjective(i, o.length);
    }
  }

  method At(o: Outgoing, offset: nat) returns (r: Option<Transition>)
    requires OutValid(o)
    ensures r == if offset < o.length then Some(Listed(o)[offset]) else None
  {
    hide PSM.Valid, PSM.Contents, DecimalUnits;
    r := PSM.Get(o.items, Decimal(offset));
  }

  // ---------- the prepared graph ----------

  datatype PreparedGraph = PreparedGraph(nodeIds: PSM.Tree<bool>, edges: PSM.Tree<Outgoing>)

  ghost predicate AllOutValid(m: map<Key, Outgoing>)
  {
    forall k :: k in m ==> OutValid(m[k])
  }

  ghost function EdgeLists(m: map<Key, Outgoing>): Edges
    requires AllOutValid(m)
  {
    map k | k in m :: Listed(m[k])
  }

  ghost predicate GraphValid(g: PreparedGraph)
  {
    PSM.Valid(g.nodeIds) && PSM.Valid(g.edges) && AllOutValid(PSM.Contents(g.edges))
  }

  ghost function NodeSet(g: PreparedGraph): set<Key>
  {
    PSM.Contents(g.nodeIds).Keys
  }

  ghost function EdgesOf(g: PreparedGraph): Edges
    requires GraphValid(g)
  {
    EdgeLists(PSM.Contents(g.edges))
  }

  /** Appends transitions one by one, each to the list of its source. */
  ghost function AppendAll(edges: Edges, ts: seq<Transition>): Edges
  {
    if ts == [] then edges
    else
      var e := ts[|ts| - 1];
      var prior := AppendAll(edges, ts[..|ts| - 1]);
      prior[e.from := Out(prior, e.from) + [e]]
  }

  /** The transitions whose two ends are known nodes, in order. */
  ghost function Within(nodes: set<Key>, ts: seq<Transition>): seq<Transition>
  {
    if ts == [] then []
    else
      var e := ts[|ts| - 1];
      Within(nodes, ts[..|ts| - 1]) + if e.from in nodes && e.to in nodes then [e] else []
  }

  /** What a node's list contains after appending. */
  lemma {:induction false} AppendAllOut(edges: Edges, ts: seq<Transition>, u: Key, e: Transition)
    ensures e in Out(AppendAll(edges, ts), u) <==> e in Out(edges, u) || (e in ts && e.from == u)
    ensures Out(edges, u) <= Out(AppendAll(edges, ts), u)
  {
    if ts != [] {
      AppendAllOut(edges, ts[..|ts| - 1], u, e);
      assert ts == ts[..|ts| - 1] + [ts[|ts| - 1]];
    }
  }

  lemma {:induction false} WithinMembers(nodes: set<Key>, ts: seq<Transition>, e: Transition)
    ensures e in Within(nodes, ts) <==> e in ts && e.from in nodes && e.to in nodes
  {
    if ts != [] {
      WithinMembers(nodes, ts[..|ts| - 1], e);
      assert ts == ts[..|ts| - 1] + [ts[|ts| - 1]];
    }
  }

  /** Appending one transition to the list of its source in a table of outgoing lists. */
  lemma TableAppend(m: map<Key, Outgoing>, e: Transition, o: Outgoing)
    requires AllOutValid(m) && OutValid(o) && Listed(o) == Out(EdgeLists(m), e.from) + [e]
    ensures AllOutValid(m[e.from := o])
    ensures EdgeLists(m[e.from := o]) == EdgeLists(m)[e.from := Out(EdgeLists(m), e.from) + [e]]
  {
    hide OutValid, Listed;
    var n := m[e.from := o];
    assert AllOutValid(n);
    assert EdgeLists(n).Keys == EdgeLists(m).Keys + {e.from};
  }

  /** `g` is `prior`, or nothing, grown by nodes and by the transitions between its nodes. */
  ghost predicate Grown(prior: Option<PreparedGraph>, nodeIds: seq<Key>, transitions: seq<Transition>, g: PreparedGraph)
    requires prior.Some? ==> GraphValid(prior.value)
  {
    && GraphValid(g)
    && NodeSet(g) == (if prior.Some? then NodeSet(prior.value) else {}) + (set id | id in nodeIds)
    && EdgesOf(g) == AppendAll(if prior.Some? then EdgesOf(prior.value) else map[], Within(NodeSet(g), transitions))
  }

  method ExtendMaxMinGraph(prior: Option<PreparedGraph>, nodeIds: seq<Key>, transitions: seq<Transition>)
    returns (g: PreparedGraph)
    requires prior.Some? ==> GraphValid(prior.value)
    ensures Grown(prior, nodeIds, transitions, g)
  {
    hide OutValid, Listed, PSM.Valid, PSM.Contents, PSM.Insert, AllOutValid, EdgeLists, PSM.Heights;
    var nodes, edges := PSM.Leaf, PSM.Leaf;
    EmptyGraph();
    if prior.Some? { nodes, edges := prior.value.nodeIds, prior.value.edges; }
    ghost var before := if prior.Some? then NodeSet(prior.value) else {};
    for i := 0 to |nodeIds|
      invariant PSM.Valid(nodes) && PSM.Contents(nodes).Keys == before + (set id | id in nodeIds[..i])
    {
      PSM.InsertRefines(nodes, nodeIds[i], true);
      PSM.ValidHeights(nodes);
      assert nodeIds[..i + 1] == nodeIds[..i] + [nodeIds[i]];
      nodes := PSM.Insert(nodes, nodeIds[i], true);
    }
    assert nodeIds[..|nodeIds|] == nodeIds;
    ghost var known := PSM.Contents(nodes).Keys;
    ghost var given := if prior.Some? then EdgesOf(prior.value) else map[];
    for i := 0 to |transitions|
      invariant PSM.Valid(edges) && AllOutValid(PSM.Contents(edges))
      invariant EdgeLists(PSM.Contents(edges)) == AppendAll(given, Within(known, transitions[..i]))
    {
      var e := transitions[i];
      WithinNext(known, transitions, i);
      var from := PSM.Has(nodes, e.from);
      var to := PSM.Has(nodes, e.to);
      if from && to {
        edges := AppendEdge(edges, e);
        AppendNext(given, Within(known, transitions[..i]), e);
      }
    }
    assert transitions[..|transitions|] == transitions;
    g := PreparedGraph(nodes, edges);
  }

  lemma EmptyGraph()
    ensures PSM.Valid<bool>(PSM.Leaf) && PSM.Valid<Outgoing>(PSM.Leaf) && AllOutValid(PSM.Contents(PSM.Leaf))
    ensures PSM.Contents<bool>(PSM.Leaf) == map[] && PSM.Contents<Outgoing>(PSM.Leaf) == map[]
    ensures EdgeLists(PSM.Contents(PSM.Leaf)) == map[]
  {
  }

  lemma WithinNext(nodes: set<Key>, ts: seq<Transition>, i: nat)
    requires i < |ts|
    ensures Within(nodes, ts[..i + 1]) ==
      if ts[i].from in nodes && ts[i].to in nodes then Within(nodes, ts[..i]) + [ts[i]] else Within(nodes, ts[..i])
  {
    assert ts[..i + 1][..i] == ts[..i];
  }

  lemma AppendNext(edges: Edges, ts: seq<Transition>, e: Transition)
    ensures AppendAll(edges, ts + [e]) == AppendAll(edges, ts)[e.from := Out(AppendAll(edges, ts), e.from) + [e]]
  {
    assert (ts + [e])[..|ts|] == ts;
  }

  method AppendEdge(edges: PSM.Tree<Outgoing>, e: Transition) returns (r: PSM.Tree<Outgoing>)
    requires PSM.Valid(edges) && AllOutValid(PSM.Contents(edges))
    ensures PSM.Valid(r) && AllOutValid(PSM.Contents(r))
    ensures var lists := EdgeLists(PSM.Contents(edges));
      EdgeLists(PSM.Contents(r)) == lists[e.from := Out(lists, e.from) + [e]]
  {
    hide OutValid, Listed, PSM.Valid, PSM.Contents, PSM.Insert, PSM.Heights;
    var found := PSM.Get(edges, e.from);
    NoEdgesValid();
    var outgoing := if found.Some? then found.value else NO_EDGES;
    OutHeights(outgoing);
    AppendLists(outgoing, e);
    PSM.ValidHeights(edges);
    PSM.InsertRefines(edges, e.from, Append(outgoing, e));
    TableAppend(PSM.Contents(edges), e, Append(outgoing, e));
    r := PSM.Insert(edges, e.from, Append(outgoing, e));
  }

  lemma OutHeights(o: Outgoing)
    requires OutValid(o)
    ensures PSM.Heights(o.items)
  {
  }
}

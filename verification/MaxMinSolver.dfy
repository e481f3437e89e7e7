/** `solveMaxMinField` as a whole, and what its callers may rely on. */
module MaxMinSolver {
  import opened Options
  import opened Keys
  import opened Numbers
  import opened MaxMinSpec
  import opened WorkQueue
  import opened MaxMinMachine
  import opened MaxMinGraph
  import opened MaxMinField
  import PSM = PersistentStringMap

  datatype GraphInput =
    | Rows(nodeIds: seq<Key>, transitions: seq<RawTransition>)
    | Prepared(graph: PreparedGraph)

  datatype Input = Input(
    graph: GraphInput,
    seeds: seq<(Key, Num)>,
    top: Num,
    prior: Prior,
    worklist: Option<seq<WorkItem>>,
    workLimit: Option<int>,
    workQueue: Option<Heap>)

  datatype Result =
    | Rejected
    | Solved(
        values: PSM.Tree<int>, changed: map<Key, int>, retained: seq<Transition>, queue: Heap, steps: nat,
          complete: bool)

  /** A top is accepted exactly when it is a natural number, and then taken as it is. */
  lemma TopExact(top: Num, n: nat)
    ensures TopOf(top) == Some(n) <==> top == Finite(n as real)
  {
  }

  /** `requireIntegerTop`: a finite non-negative integer, or the call is refused. */
  function TopOf(top: Num): Option<nat>
  {
    if top.Finite? && top.value >= 0.0 && top.value.Floor as real == top.value then Some(top.value.Floor) else None
  }

  ghost predicate InputValid(input: Input)
  {
    && (input.graph.Prepared? ==> GraphValid(input.graph.graph))
    && PriorValid(input.prior)
    && (input.workQueue.Some? ==> Valid(input.workQueue.value))
  }

  ghost function NodesOf(graph: GraphInput): set<Key>
  {
    match graph
    case Rows(nodeIds, _) => set id | id in nodeIds
    case Prepared(g) => NodeSet(g)
  }

  /** A prepared graph's strengths are used as they are; listed rows are filtered and clamped. */
  ghost function EdgesFor(graph: GraphInput, top: nat): Edges
    requires graph.Prepared? ==> GraphValid(graph.graph)
  {
    match graph
    case Rows(nodeIds, transitions) => AppendAll(map[], Legal(NodesOf(graph), transitions, top))
    case Prepared(g) => EdgesOf(g)
  }

  ghost function BaseValues(input: Input, top: nat): map<Key, int>
  {
    Base(input.prior, NodesOf(input.graph), top)
  }

  /** The values before relaxation: prior values raised by the seeds. */
  ghost function StartValues(input: Input, top: nat): map<Key, int>
  {
    RaiseAll(BaseValues(input, top), NodesOf(input.graph), input.seeds, top)
  }

  ghost function ChangeMap(before: map<Key, int>, after: map<Key, int>): map<Key, int>
  {
    map k | k in after && (k !in before || before[k] < after[k]) :: after[k]
  }

  /** The machine state a call starts from; `t` is any valid tree holding the start values. */
  ghost function StartState(input: Input, top: nat, t: PSM.Tree<int>): State
  {
    State(StartValues(input, top), StartQueue(t, input.worklist, input.workQueue),
          ChangeMap(BaseValues(input, top), StartValues(input, top)))
  }

  ghost predicate Holds(t: PSM.Tree<int>, m: map<Key, int>)
  {
    PSM.Valid(t) && PSM.Contents(t) == m
  }

  ghost function AsState(r: Result): State
    requires r.Solved?
  {
    State(PSM.Contents(r.values), r.queue, r.changed)
  }

  /** The retained transitions are the rows between known nodes, clamped and in order; with a prepared
      graph there are none. */
  ghost predicate Retains(graph: GraphInput, top: nat, retained: seq<Transition>)
  {
    match graph
    case Rows(nodeIds, transitions) => KeepsKnown(NodesOf(graph), transitions, top, retained)
    case Prepared(_) => retained == []
  }

  /** The whole behaviour of a call as a run of the relaxation machine. */
  ghost predicate Solves(input: Input, top: nat, r: Result)
    requires input.graph.Prepared? ==> GraphValid(input.graph.graph)
  {
    && r.Solved? && PSM.Valid(r.values) && Valid(r.queue) && Retains(input.graph, top, r.retained)
    && (forall t :: Holds(t, StartValues(input, top)) ==>
          RanTo(EdgesFor(input.graph, top), StartState(input, top, t), r))
    && (exists t :: Holds(t, StartValues(input, top)))
    && (r.complete <==> r.queue.Empty?)
    && (input.workLimit.None? ==> r.complete)
    && (input.workLimit.Some? ==> r.steps <= Limit(input) && (r.complete || r.steps == Limit(input)))
  }

  ghost predicate RanTo(edges: Edges, st: State, r: Result)
    requires r.Solved?
  {
    Run(edges, st, r.steps) == AsState(r) && Taken(edges, st, r.steps) == r.steps
  }

  ghost function Limit(input: Input): nat
    requires input.workLimit.Some?
  {
    if input.workLimit.value < 0 then 0 else input.workLimit.value
  }

  // ---------- the tree behind a map does not matter ----------

  lemma {:induction false} SortedDetermined(a: seq<(Key, int)>, b: seq<(Key, int)>)
    requires PSM.Sorted(a) && PSM.Sorted(b) && PSM.MapOf(a) == PSM.MapOf(b)
    ensures a == b
  {
    if a == [] {
      if b != [] { PSM.MapOfAt(b, 0); }
    } else if b == [] {
      PSM.MapOfAt(a, 0);
    } else {
      PSM.MapOfAt(a, 0);
      PSM.MapOfAt(b, 0);
      FirstKeySame(a, b);
      PSM.SortedTail(a);
      PSM.SortedTail(b);
      TailMap(a);
      TailMap(b);
      SortedDetermined(a[1..], b[1..]);
      assert a == [a[0]] + a[1..] && b == [b[0]] + b[1..];
    }
  }

  lemma FirstKeySame(a: seq<(Key, int)>, b: seq<(Key, int)>)
    requires PSM.Sorted(a) && PSM.Sorted(b) && PSM.MapOf(a) == PSM.MapOf(b) && a != [] && b != []
    ensures a[0].0 == b[0].0
  {
    PSM.MapOfAt(a, 0);
    PSM.MapOfAt(b, 0);
    PSM.MapOfKeys(b, a[0].0);
    PSM.MapOfKeys(a, b[0].0);
    var i :| 0 <= i < |b| && b[i].0 == a[0].0;
    var j :| 0 <= j < |a| && a[j].0 == b[0].0;
    Trichotomy(a[0].0, b[0].0);
  }

  lemma TailMap(a: seq<(Key, int)>)
    requires PSM.Sorted(a) && a != []
    ensures PSM.MapOf(a[1..]) == PSM.MapOf(a) - {a[0].0}
  {
    PSM.MapOfKeys(a[1..], a[0].0);
    forall i | 0 <= i < |a[1..]| ensures a[1..][i].0 != a[0].0 {
      assert Less(a[0].0, a[i + 1].0);
      Trichotomy(a[0].0, a[i + 1].0);
    }
  }

  lemma StartQueueDetermined(s: PSM.Tree<int>, t: PSM.Tree<int>, worklist: Option<seq<WorkItem>>,
                             retained: Option<Heap>)
    requires PSM.Valid(s) && PSM.Valid(t) && PSM.Contents(s) == PSM.Contents(t)
    ensures StartQueue(s, worklist, retained) == StartQueue(t, worklist, retained)
  {
    SortedDetermined(PSM.Entries(s), PSM.Entries(t));
  }

  // ---------- the call ----------

  lemma ChangesDetermined(before: map<Key, int>, after: map<Key, int>, changed: map<Key, int>)
    requires Changes(before, after, changed)
    ensures changed == ChangeMap(before, after)
  {
  }

  method SolveMaxMinField(input: Input) returns (r: Result)
    requires InputValid(input)
    ensures r.Rejected? <==> TopOf(input.top).None?
    ensures r.Solved? ==> Solves(input, TopOf(input.top).value, r)
  {
    hide PSM.Valid, PSM.Contents, StartQueue, Changes, AllOutValid, EdgeLists, AppendAll, Legal, Valid, Run, Taken,
      RaiseAll, Base, ChangeMap;
    var checked := TopOf(input.top);
    if checked.None? { return Rejected; }
    var top := checked.value;
    var edges, retained, nodes;
    match input.graph {
      case Rows(nodeIds, transitions) =>
        nodes := set id | id in nodeIds;
        retained := LegalTransitions(nodes, transitions, top);
        edges := Adjacency(retained);
      case Prepared(g) =>
        nodes := PreparedNodes(g);
        retained := [];
        edges := PreparedEdges(g);
    }
    var start, first := InitialValues(nodes, input.seeds, top, input.prior);
    ChangesDetermined(BaseValues(input, top), PSM.Contents(start), first);
    var values, queue, steps, complete, changed :=
      RelaxMaxMin(start, edges, input.worklist, input.workLimit, input.workQueue, first);
    r := Solved(values, changed, retained, queue, steps, complete);
    forall t | Holds(t, StartValues(input, top))
      ensures RanTo(EdgesFor(input.graph, top), StartState(input, top, t), r)
    {
      StartQueueDetermined(t, start, input.worklist, input.workQueue);
    }
    assert Holds(start, StartValues(input, top));
  }

  /** A prepared graph's maps are read through the read-only map interface. */
  method PreparedNodes(g: PreparedGraph) returns (nodes: set<Key>)
    ensures nodes == NodeSet(g)
  {
    var entries := PSM.Entries(g.nodeIds);
    nodes := {};
    for i := 0 to |entries|
      invariant nodes == set j | 0 <= j < i :: entries[j].0
    {
      nodes := nodes + {entries[i].0};
    }
    forall k ensures k in nodes <==> k in NodeSet(g) { PSM.MapOfKeys(entries, k); }
  }

  method PreparedEdges(g: PreparedGraph) returns (edges: map<Key, Outgoing>)
    requires GraphValid(g)
    ensures edges == PSM.Contents(g.edges)
  {
    var entries := PSM.Entries(g.edges);
    edges := map[];
    var i := |entries|;
    assert entries[|entries|..] == [];
    while i > 0
      invariant 0 <= i <= |entries| && edges == PSM.MapOf(entries[i..])
    {
      i := i - 1;
      assert entries[i..][1..] == entries[i + 1..];
      edges := edges[entries[i].0 := entries[i].1];
    }
    assert entries[0..] == entries;
  }
}

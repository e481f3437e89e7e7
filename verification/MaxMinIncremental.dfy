/** Growing a solved graph: what a caller must queue so that continuing equals solving afresh,
    and the caller that does so one row at a time. */
module MaxMinIncremental {
  import opened Options
  import opened Keys
  import opened Numbers
  import opened MaxMinSpec
  import opened WorkQueue
  import opened MaxMinMachine
  import opened MaxMinTermination
  import opened MaxMinGraph
  import opened MaxMinField
  import opened MaxMinSolver
  import opened MaxMinTheorems
  import PSM = PersistentStringMap

  /** Every outgoing list is kept and possibly extended at its end. */
  ghost predicate Extends(a: Edges, b: Edges)
  {
    forall u :: Out(a, u) <= Out(b, u)
  }

  lemma {:induction false} PathSurvives(s: map<Key, int>, t: map<Key, int>, a: Edges, b: Edges, p: Path)
    requires AtLeast(t, s) && Extends(a, b) && PathOk(s, a, p)
    ensures PathOk(t, b, p) && Grade(s, p) <= Grade(t, p)
  {
    if p.Along? {
      PathSurvives(s, t, a, b, p.prefix);
      assert Out(a, End(p.prefix)) <= Out(b, End(p.prefix));
    }
  }

  lemma SupportSurvives(s: map<Key, int>, t: map<Key, int>, a: Edges, b: Edges, n: Key, g: int)
    requires AtLeast(t, s) && Extends(a, b) && Supported(s, a, n, g)
    ensures Supported(t, b, n, g)
  {
    hide AtLeast, Extends, PathOk, Grade;
    var p :| Supports(s, a, p, n, g);
    PathSurvives(s, t, a, b, p);
    assert Supports(t, b, p, n, g);
  }

  /** New values: old ones, some raised to the grade of a (new or raised) seed. */
  ghost predicate Reseeded(before: map<Key, int>, seeds: map<Key, int>, values: map<Key, int>)
  {
    && AtLeast(values, before) && AtLeast(values, seeds)
    && (forall k :: k in values ==> (k in before && values[k] == before[k]) || (k in seeds && values[k] == seeds[k]))
  }

  lemma SeedSupported(seeds: map<Key, int>, edges: Edges, k: Key)
    requires k in seeds
    ensures Supported(seeds, edges, k, seeds[k])
  {
    assert Supports(seeds, edges, Start(k), k, seeds[k]);
  }

  lemma ReseededSound(s: map<Key, int>, t: map<Key, int>, a: Edges, b: Edges, v: map<Key, int>, w: map<Key, int>)
    requires AtLeast(t, s) && Extends(a, b) && Sound(s, a, v) && Reseeded(v, t, w)
    ensures Sound(t, b, w)
  {
    hide Supported, Extends;
    forall n | n in w ensures Supported(t, b, n, w[n]) {
      if n in v && w[n] == v[n] {
        SupportSurvives(s, t, a, b, n, v[n]);
      } else {
        SeedSupported(t, b, n);
      }
    }
  }

  ghost predicate QueuedAt(q: multiset<WorkItem>, u: Key, v: int, off: nat)
  {
    WorkItem(u, v, off) in q
  }

  /** What the caller queues: the node with appended edges from its old length on, and every new
      or raised node from its first edge. Everything queued before stays. */
  ghost predicate Requeued(a: Edges, b: Edges, v: map<Key, int>, w: map<Key, int>, q: multiset<WorkItem>,
                           r: multiset<WorkItem>)
  {
    && q <= r
    && (forall u :: u in w && |Out(a, u)| < |Out(b, u)| && u in v && v[u] == w[u] ==> QueuedAt(r, u, w[u], |Out(a, u)|))
    && (forall u :: u in w && (u !in v || v[u] != w[u]) ==> QueuedAt(r, u, w[u], 0))
  }

  lemma RequeuedCovered(a: Edges, b: Edges, v: map<Key, int>, w: map<Key, int>, q: multiset<WorkItem>,
                        r: multiset<WorkItem>)
    requires Extends(a, b) && AtLeast(w, v) && Covered(a, v, q) && Requeued(a, b, v, w, q, r)
    ensures Covered(b, w, r)
  {
    hide Out;
    forall u, i | u in w && 0 <= i < |Out(b, u)|
      ensures Relaxed(w, w[u], Out(b, u)[i]) || CoveredBy(r, u, w[u], i)
    {
      if u !in v || v[u] != w[u] {
        assert QueuedAt(r, u, w[u], 0);
      } else if i >= |Out(a, u)| {
        assert QueuedAt(r, u, w[u], |Out(a, u)|);
      } else {
        assert Out(a, u) <= Out(b, u);
        assert Out(a, u)[i] == Out(b, u)[i];
        if !Relaxed(v, v[u], Out(a, u)[i]) {
          var off: nat :| off <= i && WorkItem(u, v[u], off) in q;
          assert WorkItem(u, w[u], off) in r;
        }
      }
    }
  }

  /** The key step: requeueing after growth restores the solver's invariant for the grown graph. */
  lemma GrowthKeepsInv(s: map<Key, int>, t: map<Key, int>, a: Edges, b: Edges, st: State, grown: State)
    requires Inv(s, a, st) && AtLeast(t, s) && Extends(a, b) && Reseeded(st.values, t, grown.values) &&
      Valid(grown.queue)
    requires Requeued(a, b, st.values, grown.values, Items(st.queue), Items(grown.queue))
    ensures Inv(t, b, grown)
  {
    ReseededSound(s, t, a, b, st.values, grown.values);
    hide Valid, Items, Covered, Sound, Extends, Requeued;
    RequeuedCovered(a, b, st.values, grown.values, Items(st.queue), Items(grown.queue));
  }

  /** Incremental equals from scratch: continuing the retained queue on the grown graph until it
      is empty gives the values of a fresh solve of the whole grown graph. */
  lemma IncrementalEqualsFresh(s: map<Key, int>, t: map<Key, int>, a: Edges, b: Edges, st: State, grown: State, n: nat,
                               input: Input, top: nat, scratch: Result)
    requires Inv(s, a, st) && AtLeast(t, s) && Extends(a, b) && Reseeded(st.values, t, grown.values) &&
      Valid(grown.queue)
    requires Requeued(a, b, st.values, grown.values, Items(st.queue), Items(grown.queue))
    requires Run(b, grown, n).queue.Empty?
    requires FreshCall(input) && Solves(input, top, scratch) && scratch.complete
    requires StartValues(input, top) == t && SameEdges(EdgesFor(input.graph, top), b)
    ensures Run(b, grown, n).values == PSM.Contents(scratch.values)
  {
    hide Valid, Items, Run, Inv, Requeued, Reseeded, Extends, IsField, SameEdges, EdgesFor, StartValues, Solves;
    GrowthKeepsInv(s, t, a, b, st, grown);
    RunInv(t, b, grown, n);
    EmptyQueueIsField(t, b, Run(b, grown, n));
    FreshSolveIsField(input, top, scratch);
    FieldUnique(t, EdgesFor(input.graph, top), b, PSM.Contents(scratch.values), Run(b, grown, n).values);
  }

  // ---------- incremental calls ----------

  /** The worklist a caller must give: nodes with appended edges from their old length on, and new
      or raised nodes from their first edge. Anything else in it does no harm. */
  ghost predicate Queues(a: Edges, b: Edges, v: map<Key, int>, w: map<Key, int>, items: seq<WorkItem>)
  {
    && (forall u :: u in w && |Out(a, u)| < |Out(b, u)| && u in v && v[u] == w[u] ==>
          WorkItem(u, w[u], |Out(a, u)|) in items)
    && (forall u :: u in w && (u !in v || v[u] != w[u]) ==> WorkItem(u, w[u], 0) in items)
  }

  /** A call on the grown graph that continues a retained result, with new seeds. */
  ghost predicate GrownCall(was: PreparedGraph, g: PreparedGraph, top: nat, r: Result, next: Input)
    requires GraphValid(was) && GraphValid(g)
  {
    && r.Solved? && next.graph == Prepared(g) && next.prior == Persistent(r.values) && next.workQueue == Some(r.queue)
    && next.worklist.Some?
    && Queues(EdgesOf(was), EdgesOf(g), PSM.Contents(r.values), StartValues(next, top), next.worklist.value)
  }

  lemma AppendAllExtends(a: Edges, ts: seq<Transition>)
    ensures Extends(a, AppendAll(a, ts))
  {
    forall u
      ensures Out(a, u) <= Out(AppendAll(a, ts), u)
    {
      AppendAllOut(a, ts, u, Transition(u, u, 0));
    }
  }

  /** Seeds offered to larger values and to the start values behind them. */
  lemma OffersReseed(v: map<Key, int>, s: map<Key, int>, nodes: set<Key>, seeds: seq<(Key, Num)>, top: nat)
    requires AtLeast(v, s)
    ensures Reseeded(v, RaiseAll(s, nodes, seeds, top), RaiseAll(v, nodes, seeds, top))
    ensures AtLeast(RaiseAll(s, nodes, seeds, top), s)
  {
    hide RaiseAll, Offered;
    RaiseAllIsMaximum(v, nodes, seeds, top);
    RaiseAllIsMaximum(s, nodes, seeds, top);
  }

  lemma WorklistRequeues(a: Edges, b: Edges, v: map<Key, int>, w: map<Key, int>, q: Heap, items: seq<WorkItem>)
    requires Valid(q) && Queues(a, b, v, w, items)
    ensures var r := PushAll(q, items); Valid(r) && Requeued(a, b, v, w, Items(q), Items(r))
  {
    hide Valid, Items, PushAll, Out;
    PushAllItems(q, items);
    forall it | it in items
      ensures it in multiset(items)
    {
    }
  }

  /** A call on a grown graph with the described worklist keeps the result retained, for the start
      values raised by the new seeds. */
  lemma GrownRetains(s: map<Key, int>, was: PreparedGraph, nodeIds: seq<Key>, ts: seq<Transition>, g: PreparedGraph,
                     top: nat, r: Result, next: Input, r2: Result)
    requires GraphValid(was) && Retained(s, Prepared(was), top, r) && Grown(Some(was), nodeIds, ts, g)
    requires GrownCall(was, g, top, r, next) && Solves(next, top, r2)
    ensures Retained(RaiseAll(s, NodeSet(g), next.seeds, top), Prepared(g), top, r2)
  {
    var a, b := EdgesOf(was), EdgesOf(g);
    assert EdgesFor(Prepared(was), top) == a && EdgesFor(Prepared(g), top) == b;
    RetainedAtLeast(s, Prepared(was), top, r);
    hide Run, Taken, RaiseAll, ChangeMap, Inv, PSM.Contents, PSM.Valid, Valid, Items, GraphValid, EdgesOf, PushAll,
      AppendAll, Within, EdgesFor, Requeued, Reseeded, Extends, Queues, Retained, IsMaximum;
    var v := PSM.Contents(r.values);
    var t := RaiseAll(s, NodeSet(g), next.seeds, top);
    AppendAllExtends(a, Within(NodeSet(g), ts));
    OffersReseed(v, s, NodeSet(g), next.seeds, top);
    var tree :| Holds(tree, StartValues(next, top));
    var st := StartState(next, top, tree);
    WorklistRequeues(a, b, v, st.values, r.queue, next.worklist.value);
    RetainedInv(s, Prepared(was), top, r);
    GrowthKeepsInv(s, t, a, b, AsState(r), st);
    GrownInputValid(g, r, next, s, was, top);
    SolveRetains(next, top, r2, t, tree);
  }

  lemma RetainedInv(s: map<Key, int>, graph: GraphInput, top: nat, r: Result)
    requires (graph.Prepared? ==> GraphValid(graph.graph)) && Retained(s, graph, top, r)
    ensures PSM.Valid(r.values) && Inv(s, EdgesFor(graph, top), AsState(r))
  {
  }

  lemma GrownInputValid(g: PreparedGraph, r: Result, next: Input, s: map<Key, int>, was: PreparedGraph, top: nat)
    requires GraphValid(was) && GraphValid(g) && Retained(s, Prepared(was), top, r) && GrownCall(was, g, top, r, next)
    ensures InputValid(next)
  {
    RetainedAtLeast(s, Prepared(was), top, r);
    hide Valid, PSM.Valid, GraphValid, Queues, EdgesOf;
  }

  /** Incremental equals from scratch, call for call: growing a prepared graph and continuing the
      retained values and queue with the described worklist completes with the values of a fresh
      solve of the whole grown graph from all the seeds. */
  lemma IncrementalSolveEqualsFresh(s: map<Key, int>, was: PreparedGraph, nodeIds: seq<Key>, ts: seq<Transition>,
                                    g: PreparedGraph, top: nat, r: Result, next: Input, r2: Result,
                                    anew: Input, scratch: Result)
    requires GraphValid(was) && Retained(s, Prepared(was), top, r) && Grown(Some(was), nodeIds, ts, g)
    requires GrownCall(was, g, top, r, next) && Solves(next, top, r2) && r2.complete
    requires FreshCall(anew) && Solves(anew, top, scratch) && scratch.complete
    requires StartValues(anew, top) == RaiseAll(s, NodeSet(g), next.seeds, top)
    requires SameEdges(EdgesFor(anew.graph, top), EdgesOf(g))
    ensures PSM.Contents(r2.values) == PSM.Contents(scratch.values)
  {
    CompleteEmpty(next, top, r2);
    GrownRetains(s, was, nodeIds, ts, g, top, r, next, r2);
    assert EdgesFor(Prepared(g), top) == EdgesOf(g);
    hide Solves, Retained, Grown, GrownCall, RaiseAll, StartValues, SameEdges, EdgesOf, EdgesFor, PSM.Contents,
      FreshCall;
    RetainedMatchesFresh(RaiseAll(s, NodeSet(g), next.seeds, top), Prepared(g), top, r2, anew, scratch);
  }

  lemma {:induction false} RaiseAllConcat(m: map<Key, int>, nodes: set<Key>, a: seq<(Key, Num)>, b: seq<(Key, Num)>,
                                          top: nat)
    ensures RaiseAll(m, nodes, a + b, top) == RaiseAll(RaiseAll(m, nodes, a, top), nodes, b, top)
    decreases |b|
  {
    hide ClampInteger;
    if b == [] {
      assert a + b == a;
    } else {
      assert (a + b)[..|a + b| - 1] == a + b[..|b| - 1];
      RaiseAllConcat(m, nodes, a, b[..|b| - 1], top);
    }
  }

  lemma {:induction false} RaiseAllKnown(m: map<Key, int>, p: set<Key>, q: set<Key>, entries: seq<(Key, Num)>, top: nat)
    requires forall i :: 0 <= i < |entries| ==> (entries[i].0 in p <==> entries[i].0 in q)
    ensures RaiseAll(m, p, entries, top) == RaiseAll(m, q, entries, top)
    decreases |entries|
  {
    hide ClampInteger;
    if entries != [] { RaiseAllKnown(m, p, q, entries[..|entries| - 1], top); }
  }

  /** Three calls: a solve of the old graph, stopped anywhere; its continuation on the grown graph
      with more seeds; and one fresh solve of the grown graph with all the seeds. The new nodes are
      no seeds of the first call. */
  lemma GrownEqualsOneSolve(first: Input, was: PreparedGraph, nodeIds: seq<Key>, ts: seq<Transition>, g: PreparedGraph,
                            top: nat, r: Result, next: Input, r2: Result, anew: Input, scratch: Result)
    requires GraphValid(was) && FreshCall(first) && first.graph == Prepared(was) && first.prior == NoPrior
    requires Solves(first, top, r) && Grown(Some(was), nodeIds, ts, g)
    requires forall i :: 0 <= i < |first.seeds| && first.seeds[i].0 in NodeSet(g) ==> first.seeds[i].0 in NodeSet(was)
    requires GrownCall(was, g, top, r, next) && Solves(next, top, r2) && r2.complete
    requires FreshCall(anew) && anew.graph == Prepared(g) && anew.prior == NoPrior &&
      anew.seeds == first.seeds + next.seeds
    requires Solves(anew, top, scratch) && scratch.complete
    ensures PSM.Contents(r2.values) == PSM.Contents(scratch.values)
  {
    var s := StartValues(first, top);
    assert s == RaiseAll(map[], NodeSet(was), first.seeds, top);
    assert StartValues(anew, top) == RaiseAll(map[], NodeSet(g), anew.seeds, top);
    assert EdgesFor(anew.graph, top) == EdgesOf(g);
    assert NodeSet(was) <= NodeSet(g);
    hide Solves, Retained, GrownCall, RaiseAll, StartValues, EdgesOf, EdgesFor, PSM.Contents, NodeSet, AppendAll,
      Within, GraphValid;
    FreshRetains(first, top, r);
    RaiseAllKnown(map[], NodeSet(was), NodeSet(g), first.seeds, top);
    RaiseAllConcat(map[], NodeSet(g), first.seeds, next.seeds, top);
    assert SameEdges(EdgesOf(g), EdgesOf(g));
    IncrementalSolveEqualsFresh(s, was, nodeIds, ts, g, top, r, next, r2, anew, scratch);
  }

  // ---------- the caller: one admitted row or one relaxation at a time ----------

  const FIELD_TOP: nat := 1000

  datatype Field = Field(nodes: set<Key>, edges: Edges, values: map<Key, int>, queue: Heap)

  datatype Event =
    | AdmitSeed(id: Key, grade: int)
    | AdmitTransition(from: Key, to: Key, strength: int, applicable: bool)
    | RelaxStep

  function Clamp(v: int): int
  {
    if v < 0 then 0 else if v > FIELD_TOP then FIELD_TOP else v
  }

  function Seed(f: Field, id: Key, grade: int): Field
  {
    var prior := if id in f.values then f.values[id] else -1;
    var offered := if prior >= grade then prior else grade;
    var values := Raise(f.values, id, Clamp(offered));
    f.(nodes := f.nodes + {id}, values := values,
       queue := if id in f.values && f.values[id] == values[id] then f.queue
                else Push(f.queue, WorkItem(id, values[id], 0)))
  }

  function Connect(f: Field, from: Key, to: Key, strength: int, applicable: bool): Field
  {
    var g := f.(nodes := f.nodes + {from, to});
    if !applicable then g
    else
      var out := Out(f.edges, from);
      g.(edges := f.edges[from := out + [Transition(from, to, strength)]],
         queue := if from in f.values then Push(f.queue, WorkItem(from, f.values[from], |out|)) else f.queue)
  }

  function Relax(f: Field): Field
  {
    if f.queue.Empty? then f
    else
      var st := Step(f.edges, State(f.values, f.queue, map[]));
      f.(values := st.values, queue := st.queue)
  }

  function Apply(f: Field, event: Event): Field
  {
    match event
    case AdmitSeed(id, grade) => Seed(f, id, grade)
    case AdmitTransition(from, to, strength, applicable) => Connect(f, from, to, strength, applicable)
    case RelaxStep => Relax(f)
  }

  const EMPTY_FIELD: Field := Field({}, map[], map[], Empty)

  function ApplyAll(events: seq<Event>): Field
  {
    if events == [] then EMPTY_FIELD else Apply(ApplyAll(events[..|events| - 1]), events[|events| - 1])
  }

  /** The seeds of all admitted rows: per node the largest clamped grade. */
  ghost function SeedsOf(events: seq<Event>): map<Key, int>
  {
    if events == [] then map[]
    else
      var prior := SeedsOf(events[..|events| - 1]);
      var last := events[|events| - 1];
      if last.AdmitSeed? then Raise(prior, last.id, Clamp(last.grade)) else prior
  }

  /** The applicable transitions of all admitted rows, in order. */
  ghost function RowsOf(events: seq<Event>): seq<Transition>
  {
    if events == [] then []
    else
      var prior := RowsOf(events[..|events| - 1]);
      var last := events[|events| - 1];
      if last.AdmitTransition? && last.applicable
      then prior + [Transition(last.from, last.to, last.strength)] else prior
  }

  ghost function FieldState(f: Field): State
  {
    State(f.values, f.queue, map[])
  }

  lemma SeedKeeps(seeds: map<Key, int>, f: Field, id: Key, grade: int)
    requires Inv(seeds, f.edges, FieldState(f))
    ensures Inv(Raise(seeds, id, Clamp(grade)), f.edges, FieldState(Seed(f, id, grade)))
  {
    hide Valid, Items, Covered, Push;
    var g := Seed(f, id, grade);
    var t := Raise(seeds, id, Clamp(grade));
    PushRefines(f.queue, WorkItem(id, g.values[id], 0));
    assert AtLeast(t, seeds);
    SeedReseeds(seeds, f, id, grade);
    assert Extends(f.edges, f.edges);
    assert Requeued(f.edges, f.edges, f.values, g.values, Items(f.queue), Items(g.queue)) by {
      SeedRequeues(f, id, grade);
    }
    hide Inv, Reseeded, Requeued, Extends, Seed;
    GrowthKeepsInv(seeds, t, f.edges, f.edges, FieldState(f), FieldState(g));
  }

  lemma SeedReseeds(seeds: map<Key, int>, f: Field, id: Key, grade: int)
    requires Sound(seeds, f.edges, f.values)
    ensures Reseeded(f.values, Raise(seeds, id, Clamp(grade)), Seed(f, id, grade).values)
  {
    hide Supported, Push;
  }

  lemma SeedRequeues(f: Field, id: Key, grade: int)
    requires Valid(f.queue)
    ensures var g := Seed(f, id, grade);
      Valid(g.queue) && Requeued(f.edges, f.edges, f.values, g.values, Items(f.queue), Items(g.queue))
  {
    hide Valid, Items, Push, Out;
    var g := Seed(f, id, grade);
    PushRefines(f.queue, WorkItem(id, g.values[id], 0));
    forall u | u in g.values && (u !in f.values || f.values[u] != g.values[u])
      ensures QueuedAt(Items(g.queue), u, g.values[u], 0)
    {
      assert u == id;
    }
  }

  lemma ConnectKeeps(seeds: map<Key, int>, f: Field, from: Key, to: Key, strength: int, applicable: bool)
    requires Inv(seeds, f.edges, FieldState(f))
    ensures var g := Connect(f, from, to, strength, applicable); Inv(seeds, g.edges, FieldState(g))
  {
    hide Items, Covered, Push, Sound;
    if applicable {
      var g := Connect(f, from, to, strength, true);
      ConnectGrows(f, from, to, strength);
      SelfReseeded(seeds, f.edges, f.values);
      hide Inv, Reseeded, Requeued, Extends, Connect, Valid;
      GrowthKeepsInv(seeds, seeds, f.edges, g.edges, FieldState(f), FieldState(g));
    }
  }

  lemma SelfReseeded(seeds: map<Key, int>, edges: Edges, values: map<Key, int>)
    requires Sound(seeds, edges, values)
    ensures Reseeded(values, seeds, values) && AtLeast(seeds, seeds)
  {
    hide Supported;
  }

  lemma ConnectGrows(f: Field, from: Key, to: Key, strength: int)
    requires Valid(f.queue)
    ensures var g := Connect(f, from, to, strength, true);
      g.values == f.values && Extends(f.edges, g.edges) && Valid(g.queue) &&
      Requeued(f.edges, g.edges, f.values, g.values, Items(f.queue), Items(g.queue))
  {
    hide Valid, Items, Push;
    if from in f.values { PushRefines(f.queue, WorkItem(from, f.values[from], |Out(f.edges, from)|)); }
  }

  lemma RelaxKeeps(seeds: map<Key, int>, f: Field)
    requires Inv(seeds, f.edges, FieldState(f))
    ensures Inv(seeds, Relax(f).edges, FieldState(Relax(f)))
  {
    if f.queue.Node? {
      hide Valid, Items, Covered, Sound, Step;
      StepInv(seeds, f.edges, FieldState(f));
    }
  }

  /** Whatever the order of admissions and relaxations, the invariant holds for all rows admitted
      so far. */
  lemma {:induction false} EventsKeepInv(events: seq<Event>)
    ensures Inv(SeedsOf(events), ApplyAll(events).edges, FieldState(ApplyAll(events)))
    ensures ApplyAll(events).edges == AppendAll(map[], RowsOf(events))
  {
    hide Inv, Seed, Relax, Raise;
    if events == [] {
      EmptyFieldInv();
    } else {
      var rest, last := events[..|events| - 1], events[|events| - 1];
      EventsKeepInv(rest);
      var f := ApplyAll(rest);
      match last {
        case AdmitSeed(id, grade) => SeedKeeps(SeedsOf(rest), f, id, grade); SeedEdges(f, id, grade);
        case AdmitTransition(from, to, strength, applicable) =>
          ConnectKeeps(SeedsOf(rest), f, from, to, strength, applicable);
          AppendNext(map[], RowsOf(rest), Transition(from, to, strength));
        case RelaxStep => RelaxKeeps(SeedsOf(rest), f); RelaxEdges(f);
      }
    }
  }

  lemma SeedEdges(f: Field, id: Key, grade: int)
    ensures Seed(f, id, grade).edges == f.edges
  {
  }

  lemma RelaxEdges(f: Field)
    ensures Relax(f).edges == f.edges
  {
  }

  lemma EmptyFieldInv()
    ensures Inv(map[], map[], FieldState(EMPTY_FIELD))
  {
  }

  /** Whenever the queue is empty, the retained values are those of a fresh solve of all rows
      admitted so far. */
  lemma FieldMatchesFreshSolve(events: seq<Event>, input: Input, top: nat, r: Result)
    requires ApplyAll(events).queue.Empty?
    requires FreshCall(input) && Solves(input, top, r) && r.complete
    requires StartValues(input, top) == SeedsOf(events)
    requires SameEdges(EdgesFor(input.graph, top), AppendAll(map[], RowsOf(events)))
    ensures ApplyAll(events).values == PSM.Contents(r.values)
  {
    hide Inv, IsField, SameEdges, EdgesFor, StartValues, Solves, ApplyAll, SeedsOf, RowsOf, AppendAll;
    EventsKeepInv(events);
    var f := ApplyAll(events);
    EmptyQueueIsField(SeedsOf(events), f.edges, FieldState(f));
    FreshSolveIsField(input, top, r);
    FieldUnique(SeedsOf(events), EdgesFor(input.graph, top), f.edges, PSM.Contents(r.values), f.values);
  }

  /** The admitted seeds, as a call would list them. */
  ghost function SeedList(events: seq<Event>): seq<(Key, Num)>
  {
    if events == [] then []
    else
      var rest, last := SeedList(events[..|events| - 1]), events[|events| - 1];
      if last.AdmitSeed? then rest + [(last.id, Finite(last.grade as real))] else rest
  }

  lemma ClampAgrees(grade: int)
    ensures ClampInteger(Finite(grade as real), 1000) == Clamp(grade)
  {
  }

  lemma {:induction false} SeedsAreOffered(events: seq<Event>, nodes: set<Key>)
    requires forall i :: 0 <= i < |events| && events[i].AdmitSeed? ==> events[i].id in nodes
    ensures SeedsOf(events) == RaiseAll(map[], nodes, SeedList(events), 1000)
    decreases |events|
  {
    if events != [] {
      hide ClampInteger, Clamp;
      var rest, last := events[..|events| - 1], events[|events| - 1];
      SeedsAreOffered(rest, nodes);
      if last.AdmitSeed? {
        ClampAgrees(last.grade);
        var list := SeedList(events);
        assert list[..|list| - 1] == SeedList(rest);
      }
    }
  }

  /** With the admitted seeds as its seeds and 1000 as its top, that fresh solve is one on the same
      edges, whenever its graph knows the seeded nodes. */
  lemma FieldMatchesSeededSolve(events: seq<Event>, input: Input, r: Result)
    requires ApplyAll(events).queue.Empty?
    requires FreshCall(input) && input.prior == NoPrior && input.seeds == SeedList(events)
    requires forall i :: 0 <= i < |events| && events[i].AdmitSeed? ==> events[i].id in NodesOf(input.graph)
    requires Solves(input, 1000, r) && r.complete
    requires SameEdges(EdgesFor(input.graph, 1000), AppendAll(map[], RowsOf(events)))
    ensures ApplyAll(events).values == PSM.Contents(r.values)
  {
    hide ApplyAll, Solves, SameEdges, EdgesFor, AppendAll, RowsOf, SeedsOf, RaiseAll, SeedList;
    SeedsAreOffered(events, NodesOf(input.graph));
    FieldMatchesFreshSolve(events, input, 1000, r);
  }

  /** From any state, enough relaxation steps empty the queue. */
  lemma FieldSettles(events: seq<Event>) returns (n: nat)
    ensures ApplyAll(events + seq(n, _ => RelaxStep)).queue.Empty?
  {
    var f := ApplyAll(events);
    n := Completes(f.edges, FieldState(f));
    RelaxMany(events, n);
  }

  lemma {:induction false} RelaxMany(events: seq<Event>, n: nat)
    ensures var f := ApplyAll(events); var g := ApplyAll(events + seq(n, _ => RelaxStep));
      g.edges == f.edges && g.values == Run(f.edges, FieldState(f), n).values &&
        g.queue == Run(f.edges, FieldState(f), n).queue
    decreases n
  {
    hide Step;
    var f := ApplyAll(events);
    if n == 0 {
      assert events + seq(0, _ => RelaxStep) == events;
    } else {
      var more := events + [RelaxStep];
      assert events + seq(n, _ => RelaxStep) == more + seq(n - 1, _ => RelaxStep);
      assert more[..|more| - 1] == events && ApplyAll(more) == Relax(f);
      RelaxMany(more, n - 1);
      if f.queue.Node? {
        ChangesAccumulate(f.edges, Step(f.edges, FieldState(f)), n - 1);
      }
    }
  }
}

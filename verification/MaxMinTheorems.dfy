/** The promises of the solver: the field, its cost, exact resumption. */
module MaxMinTheorems {
  import opened Options
  import opened Keys
  import opened Numbers
  import opened MaxMinSpec
  import opened WorkQueue
  import opened MaxMinMachine
  import opened MaxMinGraph
  import opened MaxMinField
  import opened MaxMinOrder
  import opened MaxMinSolver
  import PSM = PersistentStringMap

  // ---------- the fresh queue ----------

  lemma {:induction false} DistinctCount(s: seq<WorkItem>, i: nat)
    requires forall a, b :: 0 <= a < b < |s| ==> s[a] != s[b]
    requires i < |s|
    ensures multiset(s)[s[i]] == 1
  {
    assert s == [s[0]] + s[1..];
    if i == 0 {
      assert s[0] !in s[1..];
    } else {
      DistinctCount(s[1..], i - 1);
      assert s[1..][i - 1] == s[i];
    }
  }

  lemma {:induction false} SortedMapSize(s: seq<(Key, int)>)
    requires PSM.Sorted(s)
    ensures |PSM.MapOf(s)| == |s|
  {
    if s != [] {
      PSM.SortedTail(s);
      SortedMapSize(s[1..]);
      TailMap(s);
      PSM.MapOfAt(s, 0);
      assert PSM.MapOf(s).Keys == PSM.MapOf(s[1..]).Keys + {s[0].0};
    }
  }

  lemma FreshItemsDistinct(s: seq<(Key, int)>)
    requires PSM.Sorted(s)
    ensures var q := FreshItems(s); forall a, b :: 0 <= a < b < |q| ==> q[a] != q[b]
  {
    forall a, b | 0 <= a < b < |s| ensures s[a].0 != s[b].0 { Trichotomy(s[a].0, s[b].0); }
  }

  /** The fresh items of sorted entries: one per node, at its value. */
  lemma FreshMultiset(s: seq<(Key, int)>)
    requires PSM.Sorted(s)
    ensures var m := PSM.MapOf(s); var q := multiset(FreshItems(s));
      (forall n :: n in m ==> q[WorkItem(n, m[n], 0)] == 1) &&
      (forall it :: it in q ==> Live(m, it) && it.edgeOffset == 0) &&
      |q| == |m|
  {
    hide PSM.MapOf, PSM.Sorted;
    var m, items := PSM.MapOf(s), FreshItems(s);
    FreshItemsDistinct(s);
    SortedMapSize(s);
    forall n | n in m ensures multiset(items)[WorkItem(n, m[n], 0)] == 1 {
      PSM.MapOfKeys(s, n);
      var i :| 0 <= i < |s| && s[i].0 == n;
      PSM.MapOfAt(s, i);
      DistinctCount(items, i);
      assert items[i] == WorkItem(n, m[n], 0);
    }
    forall it | it in multiset(items) ensures Live(m, it) && it.edgeOffset == 0 {
      var i :| 0 <= i < |items| && items[i] == it;
      PSM.MapOfAt(s, i);
    }
  }

  lemma EmptyHeap()
    ensures Valid(Empty) && Items(Empty) == multiset{}
  {
  }

  lemma FreshStart(t: PSM.Tree<int>, m: map<Key, int>, changed: map<Key, int>)
    requires Holds(t, m)
    ensures Fresh(State(m, StartQueue(t, None, None), changed))
  {
    hide PSM.Entries, PSM.Heights, PSM.Balanced, PSM.Sizes, PSM.Sorted, PSM.MapOf, PushAll, FreshItems, Valid, Items,
      Live;
    EmptyHeap();
    PushAllItems(Empty, FreshItems(PSM.Entries(t)));
    FreshMultiset(PSM.Entries(t));
  }

  lemma FreshInv(edges: Edges, st: State)
    requires Fresh(st)
    ensures Inv(st.values, edges, st)
  {
    hide Valid, Items, Out;
    forall u, i | u in st.values && 0 <= i < |Out(edges, u)|
      ensures CoveredBy(Items(st.queue), u, st.values[u], i)
    {
      assert WorkItem(u, st.values[u], 0) in Items(st.queue);
    }
    forall n | n in st.values ensures Supported(st.values, edges, n, st.values[n]) {
      assert Supports(st.values, edges, Start(n), n, st.values[n]);
    }
  }

  // ---------- the field ----------

  ghost predicate FreshCall(input: Input)
  {
    InputValid(input) && input.worklist.None? && input.workQueue.None?
  }

  /** A completed fresh solve returns the max-min field of its start values, on every graph. */
  lemma FreshSolveIsField(input: Input, top: nat, r: Result)
    requires FreshCall(input) && Solves(input, top, r) && r.complete
    ensures r.Solved? && IsField(StartValues(input, top), EdgesFor(input.graph, top), PSM.Contents(r.values))
  {
    hide Run, Taken, StartValues, EdgesFor, BaseValues, ChangeMap, StartQueue, IsField, Fresh, Inv;
    var t :| Holds(t, StartValues(input, top));
    var edges := EdgesFor(input.graph, top);
    var st := StartState(input, top, t);
    FreshStart(t, st.values, st.changed);
    FreshInv(edges, st);
    RunInv(st.values, edges, st, r.steps);
    EmptyQueueIsField(st.values, edges, AsState(r));
  }

  /** A call's prior values or seeds give `k` the grade `g`. */
  ghost predicate Given(input: Input, top: nat, k: Key, g: int)
  {
    || Offered(NodesOf(input.graph), input.seeds, top, k, g)
    || match input.prior
       case NoPrior => false
       case Persistent(values) => k in PSM.Contents(values) && PSM.Contents(values)[k] == g
       case Plain(entries) => Offered(NodesOf(input.graph), entries, top, k, g)
  }

  lemma StartIsLargestGiven(input: Input, top: nat)
    ensures var start := StartValues(input, top);
      && (forall k, g :: Given(input, top, k, g) ==> k in start && g <= start[k])
      && (forall k :: k in start ==> Given(input, top, k, start[k]))
  {
    hide Offered, RaiseAll, PSM.Contents;
    var nodes := NodesOf(input.graph);
    RaiseAllIsMaximum(BaseValues(input, top), nodes, input.seeds, top);
    if input.prior.Plain? { RaiseAllIsMaximum(map[], nodes, input.prior.entries, top); }
  }

  /** A given grade carried along a walk arrives at `n` as `v`. */
  ghost predicate Arrives(input: Input, top: nat, edges: Edges, p: Path, g: int, n: Key, v: int)
  {
    Given(input, top, Origin(p), g) && Walk(edges, p) && End(p) == n && Bottleneck(g, p) == v
  }

  /** A completed fresh solve holds, at exactly the nodes some given grade arrives at, the largest
      value that arrives there: the maximum over seeds, prior values and paths. */
  lemma FreshSolveIsMaximum(input: Input, top: nat, r: Result)
    requires FreshCall(input) && Solves(input, top, r) && r.complete
    ensures var edges := EdgesFor(input.graph, top); var values := PSM.Contents(r.values);
      && (forall p, g, n, v :: Arrives(input, top, edges, p, g, n, v) ==> n in values && v <= values[n])
      && (forall n :: n in values ==> exists p, g :: Arrives(input, top, edges, p, g, n, values[n]))
  {
    hide Solves, StartValues, EdgesFor, Given, PathOk, Grade, Walk, Bottleneck, Origin, PSM.Contents;
    FreshSolveIsField(input, top, r);
    StartIsLargestGiven(input, top);
    var start, edges, values := StartValues(input, top), EdgesFor(input.graph, top), PSM.Contents(r.values);
    forall p, g, n, v | Arrives(input, top, edges, p, g, n, v)
      ensures n in values && v <= values[n]
    {
      PathIsWalk(start, edges, p);
      BottleneckGrows(g, start[Origin(p)], p);
    }
    forall n | n in values
      ensures exists p, g :: Arrives(input, top, edges, p, g, n, values[n])
    {
      var p :| Attains(start, edges, p, n, values[n]);
      PathIsWalk(start, edges, p);
      assert Arrives(input, top, edges, p, start[Origin(p)], n, values[n]);
    }
  }

  /** The step bound of a fresh solve, whatever its work limit. */
  lemma FreshSolveSteps(input: Input, top: nat, r: Result)
    requires FreshCall(input) && Solves(input, top, r)
    ensures r.steps <= |StartValues(input, top)| + 2 * |Slots(EdgesFor(input.graph, top))|
  {
    hide Run, Taken, StartValues, EdgesFor, BaseValues, ChangeMap, StartQueue, Slots, Fresh;
    var t :| Holds(t, StartValues(input, top));
    var st := StartState(input, top, t);
    FreshStart(t, st.values, st.changed);
    StepsBounded(EdgesFor(input.graph, top), st, r.steps);
  }

  // ---------- changed values ----------

  lemma StepKeepsChanges(before: map<Key, int>, edges: Edges, st: State)
    requires st.queue.Node? && Changes(before, st.values, st.changed)
    ensures Changes(before, Step(edges, st).values, Step(edges, st).changed)
  {
    hide Push, PopRest, Continued, Out, Changes;
    var item := st.queue.item;
    if Live(st.values, item) && item.edgeOffset < |Out(edges, item.nodeId)| {
      var e := Out(edges, item.nodeId)[item.edgeOffset];
      ChangesRaise(before, st.values, st.changed, e.to, Min(item.strength, e.strength));
    }
  }

  lemma {:induction false} RunKeepsChanges(before: map<Key, int>, edges: Edges, st: State, n: nat)
    requires Changes(before, st.values, st.changed)
    ensures Changes(before, Run(edges, st, n).values, Run(edges, st, n).changed)
    decreases n
  {
    hide Step, Changes;
    if n > 0 && st.queue.Node? {
      StepKeepsChanges(before, edges, st);
      RunKeepsChanges(before, edges, Step(edges, st), n - 1);
    }
  }

  lemma {:induction false} RaiseAllGrows(m: map<Key, int>, nodes: set<Key>, entries: seq<(Key, Num)>, top: nat, k: Key)
    requires k in m
    ensures k in RaiseAll(m, nodes, entries, top) && m[k] <= RaiseAll(m, nodes, entries, top)[k]
  {
    hide ClampInteger;
    if entries != [] { RaiseAllGrows(m, nodes, entries[..|entries| - 1], top, k); }
  }

  lemma StartChanges(input: Input, top: nat)
    ensures Changes(BaseValues(input, top), StartValues(input, top),
      ChangeMap(BaseValues(input, top), StartValues(input, top)))
  {
    hide RaiseAll, Base;
    forall k | k in BaseValues(input, top)
      ensures k in StartValues(input, top) && BaseValues(input, top)[k] <= StartValues(input, top)[k]
    {
      RaiseAllGrows(BaseValues(input, top), NodesOf(input.graph), input.seeds, top, k);
    }
  }

  /** `changedValues` lists exactly the coordinates this call created or raised, at their final
      value; no value is ever lowered. */
  lemma ChangedValuesExact(input: Input, top: nat, r: Result)
    requires InputValid(input) && Solves(input, top, r)
    ensures Changes(BaseValues(input, top), PSM.Contents(r.values), r.changed)
  {
    hide Run, Taken, StartValues, EdgesFor, BaseValues, ChangeMap, StartQueue, Changes;
    var t :| Holds(t, StartValues(input, top));
    StartChanges(input, top);
    RunKeepsChanges(BaseValues(input, top), EdgesFor(input.graph, top), StartState(input, top, t), r.steps);
  }

  // ---------- stopping and resuming ----------

  ghost predicate AtLeast(w: map<Key, int>, m: map<Key, int>)
  {
    forall k :: k in m ==> k in w && m[k] <= w[k]
  }

  /** Offering the same seeds again changes nothing once the values have absorbed them. */
  lemma {:induction false} SeedsAbsorbed(w: map<Key, int>, m: map<Key, int>, nodes: set<Key>,
                                         entries: seq<(Key, Num)>, top: nat)
    requires AtLeast(w, RaiseAll(m, nodes, entries, top))
    ensures RaiseAll(w, nodes, entries, top) == w
  {
    hide ClampInteger;
    if entries != [] {
      var prior := RaiseAll(m, nodes, entries[..|entries| - 1], top);
      assert AtLeast(w, prior);
      SeedsAbsorbed(w, m, nodes, entries[..|entries| - 1], top);
    }
  }

  /** With a limit, the result is the machine's state after that many allowed steps. */
  lemma LimitedRun(edges: Edges, st: State, n: nat, limit: nat)
    requires n <= limit && Taken(edges, st, n) == n
    requires Run(edges, st, n).queue.Empty? || n == limit
    ensures Run(edges, st, limit) == Run(edges, st, n) && Taken(edges, st, limit) == n
  {
    hide Step;
    RunSplit(edges, st, n, limit - n);
  }

  /** Offering these seeds changes none of the start values. */
  ghost predicate Absorbed(start: map<Key, int>, graph: GraphInput, seeds: seq<(Key, Num)>, top: nat)
  {
    RaiseAll(start, NodesOf(graph), seeds, top) == start
  }

  /** A call that continues `input` from the result `r` through `values`, offering either the same
      seeds or none. */
  ghost predicate Resumes(input: Input, r: Result, next: Input)
  {
    && r.Solved? && next.graph == input.graph && next.prior == Persistent(r.values)
    && (next.seeds == input.seeds || next.seeds == [])
  }

  /** It continues the queue as well. */
  ghost predicate Continues(input: Input, r: Result, next: Input)
  {
    Resumes(input, r, next) && next.worklist.None? && next.workQueue == Some(r.queue)
  }

  /** What a call returns is fit to be continued. */
  lemma ContinuesValid(input: Input, top: nat, r: Result, next: Input)
    requires InputValid(input) && Solves(input, top, r) && Continues(input, r, next)
    ensures InputValid(next)
  {
  }

  lemma OwnSeedsAbsorbed(input: Input, top: nat)
    ensures Absorbed(StartValues(input, top), input.graph, input.seeds, top)
    ensures Absorbed(StartValues(input, top), input.graph, [], top)
  {
    hide RaiseAll;
    SeedsAbsorbed(StartValues(input, top), BaseValues(input, top), NodesOf(input.graph), input.seeds, top);
    NoSeeds(StartValues(input, top), NodesOf(input.graph), top);
  }

  lemma RunAtLeast(edges: Edges, st: State, n: nat)
    ensures AtLeast(Run(edges, st, n).values, st.values)
  {
    hide Run, Taken, Changes;
    NoChanges(st.values);
    RunKeepsChanges(st.values, edges, st.(changed := map[]), n);
    ChangesAccumulate(edges, st, n);
    var after := Run(edges, st.(changed := map[]), n);
    AtLeastFromChanges(st.values, after.values, after.changed);
  }

  /** A resumed call starts from the values it is given, whatever absorbed seeds it offers. */
  lemma ResumedStart(start: map<Key, int>, r: Result, next: Input, top: nat)
    requires r.Solved? && next.prior == Persistent(r.values) && AtLeast(PSM.Contents(r.values), start)
    requires Absorbed(start, next.graph, next.seeds, top)
    ensures StartValues(next, top) == BaseValues(next, top) == PSM.Contents(r.values)
    ensures ChangeMap(BaseValues(next, top), StartValues(next, top)) == map[]
  {
    hide RaiseAll, ChangeMap, PSM.Contents;
    var values := PSM.Contents(r.values);
    SeedsAbsorbed(values, start, NodesOf(next.graph), next.seeds, top);
    NoChangeMap(values);
  }

  lemma AtLeastFromChanges(m: map<Key, int>, w: map<Key, int>, changed: map<Key, int>)
    requires Changes(m, w, changed)
    ensures AtLeast(w, m)
  {
  }

  lemma NoSeeds(m: map<Key, int>, nodes: set<Key>, top: nat)
    ensures RaiseAll(m, nodes, [], top) == m
  {
  }

  lemma NoChangeMap(m: map<Key, int>)
    ensures ChangeMap(m, m) == map[]
  {
  }

  lemma LimitIrrelevant(input: Input, top: nat, t: PSM.Tree<int>, limit: Option<int>)
    ensures var limited := input.(workLimit := limit);
      StartValues(limited, top) == StartValues(input, top) && StartState(limited, top, t) == StartState(input, top, t)
  {
  }

  // ---------- chains of calls ----------

  /** Calls one after the other, each with its own work limit: the first is `input`, and each later
      one continues it from what the one before returned. */
  ghost predicate Chained(input: Input, top: nat, inputs: seq<Input>, results: seq<Result>)
    requires input.graph.Prepared? ==> GraphValid(input.graph.graph)
  {
    && |inputs| == |results| > 0
    && inputs[0] == input.(workLimit := inputs[0].workLimit)
    && (forall i :: 0 <= i < |inputs| ==> Called(input, top, inputs[i], results[i]))
    && (forall i :: 0 < i < |inputs| ==> Continues(input, results[i - 1], inputs[i]))
  }

  ghost predicate Called(input: Input, top: nat, call: Input, r: Result)
    requires input.graph.Prepared? ==> GraphValid(input.graph.graph)
  {
    call.graph == input.graph && call.workLimit.Some? && Solves(call, top, r)
  }

  ghost function LimitOf(input: Input): nat
  {
    if input.workLimit.Some? then Limit(input) else 0
  }

  ghost function TotalLimit(inputs: seq<Input>): nat
  {
    if inputs == [] then 0 else TotalLimit(inputs[..|inputs| - 1]) + LimitOf(inputs[|inputs| - 1])
  }

  ghost function TotalSteps(results: seq<Result>): nat
  {
    if results == [] then 0
    else
      var last := results[|results| - 1];
      TotalSteps(results[..|results| - 1]) + if last.Solved? then last.steps else 0
  }

  /** The changed values of all calls, later ones over earlier ones. */
  ghost function AllChanges(results: seq<Result>): map<Key, int>
  {
    if results == [] then map[]
    else
      var last := results[|results| - 1];
      AllChanges(results[..|results| - 1]) + if last.Solved? then last.changed else map[]
  }

  lemma ChainedPrefix(input: Input, top: nat, inputs: seq<Input>, results: seq<Result>)
    requires InputValid(input) && Chained(input, top, inputs, results) && |inputs| > 1
    ensures Chained(input, top, inputs[..|inputs| - 1], results[..|results| - 1])
  {
    hide Called, Continues;
  }

  /** One call of the chain from the state the calls before it left. */
  lemma ChainStep(edges: Edges, st: State, n: nat, taken: nat, mid: State, r: Result, limit: nat)
    requires Run(edges, st, n) == mid && Taken(edges, st, n) == taken
    requires r.Solved? && RanTo(edges, mid.(changed := map[]), r)
    requires r.steps <= limit && (r.queue.Empty? || r.steps == limit)
    ensures Run(edges, st, n + limit) == State(PSM.Contents(r.values), r.queue, mid.changed + r.changed)
    ensures Taken(edges, st, n + limit) == taken + r.steps
  {
    hide Run, Taken, PSM.Contents;
    LimitedRun(edges, mid.(changed := map[]), r.steps, limit);
    RunSplit(edges, st, n, limit);
    ChangesAccumulate(edges, mid, limit);
  }

  lemma FirstCall(input: Input, top: nat, call: Input, r: Result, t: PSM.Tree<int>)
    requires InputValid(input) && call == input.(workLimit := call.workLimit) && Called(input, top, call, r)
    requires Holds(t, StartValues(input, top))
    ensures var st := StartState(input, top, t); var edges := EdgesFor(input.graph, top);
      Run(edges, st, LimitOf(call)) == AsState(r) && Taken(edges, st, LimitOf(call)) == r.steps
  {
    hide Run, Taken, EdgesFor, StartValues, PSM.Contents, StartQueue, ChangeMap, Holds;
    LimitIrrelevant(input, top, t, call.workLimit);
    assert RanTo(EdgesFor(input.graph, top), StartState(call, top, t), r);
    LimitedRun(EdgesFor(input.graph, top), StartState(input, top, t), r.steps, LimitOf(call));
  }

  lemma LaterCall(input: Input, top: nat, before: Result, call: Input, r: Result)
    requires InputValid(input) && Called(input, top, call, r) && Continues(input, before, call)
    requires PSM.Valid(before.values) && AtLeast(PSM.Contents(before.values), StartValues(input, top))
    ensures RanTo(EdgesFor(input.graph, top), AsState(before).(changed := map[]), r)
  {
    hide Run, Taken, EdgesFor, RaiseAll, Base, PSM.Contents, PSM.Valid, ChangeMap, PushAll;
    OwnSeedsAbsorbed(input, top);
    ResumedStart(StartValues(input, top), before, call, top);
    assert Holds(before.values, StartValues(call, top));
  }

  lemma {:induction false} ChainRuns(input: Input, top: nat, inputs: seq<Input>, results: seq<Result>, t: PSM.Tree<int>)
    requires InputValid(input) && Chained(input, top, inputs, results) && Holds(t, StartValues(input, top))
    ensures var st := StartState(input, top,
      t); var last := results[|results| - 1]; var edges := EdgesFor(input.graph, top);
      && last.Solved? && PSM.Valid(last.values)
      && Run(edges, st, TotalLimit(inputs)) == State(PSM.Contents(last.values), last.queue, AllChanges(results))
      && Taken(edges, st, TotalLimit(inputs)) == TotalSteps(results)
    decreases |inputs|
  {
    hide Run, Taken, EdgesFor, StartValues, PSM.Contents, PSM.Valid, StartState, Holds, Solves, Continues, LimitOf;
    var k := |inputs| - 1;
    var call, r := inputs[k], results[k];
    assert Called(input, top, call, r);
    SolvedWithin(call, top, r);
    if k == 0 {
      FirstCall(input, top, call, r, t);
      ChainOfOne(inputs, results);
    } else {
      var st, edges := StartState(input, top, t), EdgesFor(input.graph, top);
      ChainedPrefix(input, top, inputs, results);
      ChainRuns(input, top, inputs[..k], results[..k], t);
      var before := results[k - 1];
      RunAtLeast(edges, st, TotalLimit(inputs[..k]));
      StartOf(input, top, t);
      LaterCall(input, top, before, call, r);
      ChainStep(edges, st, TotalLimit(inputs[..k]), TotalSteps(results[..k]),
                State(PSM.Contents(before.values), before.queue, AllChanges(results[..k])), r, LimitOf(call));
    }
  }

  lemma StartOf(input: Input, top: nat, t: PSM.Tree<int>)
    ensures StartState(input, top, t).values == StartValues(input, top)
  {
  }

  lemma SolvedWithin(call: Input, top: nat, r: Result)
    requires call.graph.Prepared? ==> GraphValid(call.graph.graph)
    requires Solves(call, top, r) && call.workLimit.Some?
    ensures r.Solved? && PSM.Valid(r.values) && r.steps <= LimitOf(call) && (r.queue.Empty? || r.steps == LimitOf(call))
  {
  }

  lemma ChainOfOne(inputs: seq<Input>, results: seq<Result>)
    requires |inputs| == |results| == 1 && results[0].Solved?
    ensures TotalLimit(inputs) == LimitOf(inputs[0]) && TotalSteps(results) == results[0].steps
    ensures AllChanges(results) == results[0].changed
  {
    assert inputs[..0] == [] && results[..0] == [];
  }

  /** Stopping and resuming is exact: for every sequence of work limits, calls chained through
      `values` and `workQueue` end with the values, queue and completion of one call with the summed
      limit, take as many steps in all, and report the same changed values overall. */
  lemma ChainExact(input: Input, top: nat, inputs: seq<Input>, results: seq<Result>, whole: Result)
    requires InputValid(input) && Chained(input, top, inputs, results)
    requires Solves(input.(workLimit := Some(TotalLimit(inputs) as int)), top, whole)
    ensures var last := results[|results| - 1];
      && last.Solved? && PSM.Contents(last.values) == PSM.Contents(whole.values) && last.queue == whole.queue
      && last.complete == whole.complete
      && TotalSteps(results) == whole.steps && AllChanges(results) == whole.changed
  {
    var once := input.(workLimit := Some(TotalLimit(inputs) as int));
    var t :| Holds(t, StartValues(once, top));
    LimitIrrelevant(input, top, t, once.workLimit);
    hide Run, Taken, EdgesFor, StartValues, PSM.Contents, PSM.Valid, StartState, Holds, Continues;
    ChainRuns(input, top, inputs, results, t);
    FirstCall(input, top, once, whole, t);
    assert Called(input, top, inputs[|inputs| - 1], results[|results| - 1]);
  }

  /** Two calls are the shortest such chain. */
  lemma ResumeExact(input: Input, top: nat, a: nat, b: nat, r1: Result, next: Input, r2: Result, whole: Result)
    requires InputValid(input) && Solves(input.(workLimit := Some(a as int)), top, r1)
    requires Continues(input, r1, next) && next.workLimit == Some(b as int)
    requires Solves(next, top, r2) && Solves(input.(workLimit := Some((a + b) as int)), top, whole)
    ensures PSM.Contents(r2.values) == PSM.Contents(whole.values) && r2.queue == whole.queue &&
      r2.complete == whole.complete
    ensures r1.steps + r2.steps == whole.steps
    ensures r1.changed + r2.changed == whole.changed
  {
    hide Solves, PSM.Contents;
    var inputs, results := [input.(workLimit := Some(a as int)), next], [r1, r2];
    assert Called(input, top, inputs[0], results[0]) && Called(input, top, inputs[1], results[1]);
    assert inputs[..1] == [inputs[0]] && results[..1] == [r1];
    SolvedIs(inputs[0], top, r1);
    SolvedIs(next, top, r2);
    ChainOfOne(inputs[..1], results[..1]);
    ChainExact(input, top, inputs, results, whole);
  }

  lemma SolvedIs(input: Input, top: nat, r: Result)
    requires input.graph.Prepared? ==> GraphValid(input.graph.graph)
    requires Solves(input, top, r)
    ensures r.Solved?
  {
  }

  // ---------- retained states ----------

  /** A result that still covers the graph: continuing it leads to the field of `start`. */
  ghost predicate Retained(start: map<Key, int>, graph: GraphInput, top: nat, r: Result)
    requires graph.Prepared? ==> GraphValid(graph.graph)
  {
    r.Solved? && PSM.Valid(r.values) && Inv(start, EdgesFor(graph, top), AsState(r))
  }

  lemma SolveRetains(input: Input, top: nat, r: Result, start: map<Key, int>, t: PSM.Tree<int>)
    requires InputValid(input) && Solves(input, top, r) && Holds(t, StartValues(input, top))
    requires Inv(start, EdgesFor(input.graph, top), StartState(input, top, t))
    ensures Retained(start, input.graph, top, r)
  {
    hide Run, Taken, StartValues, EdgesFor, BaseValues, ChangeMap, StartQueue, Inv, PSM.Contents;
    RunInv(start, EdgesFor(input.graph, top), StartState(input, top, t), r.steps);
  }

  /** A fresh call's result is retained, wherever its work limit stopped it. */
  lemma FreshRetains(input: Input, top: nat, r: Result)
    requires FreshCall(input) && Solves(input, top, r)
    ensures Retained(StartValues(input, top), input.graph, top, r)
  {
    hide Run, Taken, StartValues, EdgesFor, BaseValues, ChangeMap, StartQueue, Inv, PSM.Contents, Fresh, Retained;
    var t :| Holds(t, StartValues(input, top));
    var st := StartState(input, top, t);
    FreshStart(t, st.values, st.changed);
    FreshInv(EdgesFor(input.graph, top), st);
    SolveRetains(input, top, r, StartValues(input, top), t);
  }

  lemma RetainedAtLeast(start: map<Key, int>, graph: GraphInput, top: nat, r: Result)
    requires (graph.Prepared? ==> GraphValid(graph.graph)) && Retained(start, graph, top, r)
    ensures AtLeast(PSM.Contents(r.values), start) && Valid(r.queue)
  {
    hide Valid, Items, Covered, Supported, EdgesFor, PSM.Contents, PSM.Valid;
  }

  /** The invariant does not depend on the shape of the queue nor on the recorded changes. */
  lemma InvByItems(start: map<Key, int>, edges: Edges, s: State, t: State)
    requires Inv(start, edges, s) && s.values == t.values && Valid(t.queue) && Items(s.queue) == Items(t.queue)
    ensures Inv(start, edges, t)
  {
    hide Valid, Items, Covered, Sound;
  }

  /** A retained result without work left holds the values of any completed fresh solve of the same
      start values and the same edges. */
  lemma RetainedMatchesFresh(start: map<Key, int>, graph: GraphInput, top: nat, r: Result, anew: Input, scratch: Result)
    requires (graph.Prepared? ==> GraphValid(graph.graph)) && Retained(start, graph, top, r) && r.queue.Empty?
    requires FreshCall(anew) && Solves(anew, top, scratch) && scratch.complete
    requires StartValues(anew, top) == start && SameEdges(EdgesFor(anew.graph, top), EdgesFor(graph, top))
    ensures PSM.Contents(r.values) == PSM.Contents(scratch.values)
  {
    hide Inv, IsField, SameEdges, EdgesFor, StartValues, Solves, PSM.Contents, PSM.Valid;
    EmptyQueueIsField(start, EdgesFor(graph, top), AsState(r));
    FreshSolveIsField(anew, top, scratch);
    FieldUnique(start, EdgesFor(anew.graph, top), EdgesFor(graph, top), PSM.Contents(scratch.values),
      PSM.Contents(r.values));
  }

  // ---------- resuming from the flat worklist ----------

  /** A call that resumes from the queue's items in any order, without the queue. */
  ghost predicate FlatCall(input: Input, r: Result, next: Input)
  {
    && Resumes(input, r, next) && next.workQueue.None?
    && next.worklist.Some? && multiset(next.worklist.value) == Items(r.queue)
  }

  lemma FlatQueue(t: PSM.Tree<int>, items: seq<WorkItem>)
    ensures var h := StartQueue(t, Some(items), None); Valid(h) && Items(h) == multiset(items)
  {
    EmptyHeap();
    PushAllItems(Empty, items);
    hide Valid, Items, PushAll;
    assert multiset{} + multiset(items) == multiset(items);
  }

  lemma FlatRetains(input: Input, top: nat, r: Result, next: Input, r2: Result)
    requires InputValid(input) && Retained(StartValues(input, top), input.graph, top, r)
    requires FlatCall(input, r, next) && Solves(next, top, r2)
    ensures Retained(StartValues(input, top), input.graph, top, r2)
  {
    hide Run, Taken, StartValues, EdgesFor, BaseValues, ChangeMap, StartQueue, Inv, PSM.Contents, PSM.Valid, Solves,
      Valid, Items, GraphValid;
    var start, edges := StartValues(input, top), EdgesFor(input.graph, top);
    RetainedAtLeast(start, input.graph, top, r);
    OwnSeedsAbsorbed(input, top);
    ResumedStart(start, r, next, top);
    assert Holds(r.values, StartValues(next, top));
    FlatQueue(r.values, next.worklist.value);
    InvByItems(start, edges, AsState(r), StartState(next, top, r.values));
    SolveRetains(next, top, r2, start, r.values);
  }

  /** A fresh call stopped anywhere and resumed from the flat worklist, in any order, reaches the
      values of the uninterrupted call. */
  lemma FlatResume(input: Input, top: nat, r: Result, next: Input, r2: Result, whole: Result)
    requires FreshCall(input) && Solves(input, top, r)
    requires FlatCall(input, r, next) && Solves(next, top, r2) && r2.complete
    requires Solves(input.(workLimit := None), top, whole)
    ensures PSM.Contents(r2.values) == PSM.Contents(whole.values)
  {
    var once := input.(workLimit := None);
    CompleteEmpty(next, top, r2);
    assert whole.complete;
    hide EdgesFor, StartQueue, Inv, PSM.Contents, PSM.Valid, Solves, Valid, Items, Retained, FlatCall;
    FreshRetains(input, top, r);
    FlatRetains(input, top, r, next, r2);
    LimitIrrelevant(input, top, r.values, None);
    assert SameEdges(EdgesFor(input.graph, top), EdgesFor(input.graph, top));
    RetainedMatchesFresh(StartValues(input, top), input.graph, top, r2, once, whole);
  }

  lemma CompleteEmpty(input: Input, top: nat, r: Result)
    requires input.graph.Prepared? ==> GraphValid(input.graph.graph)
    requires Solves(input, top, r) && r.complete
    ensures r.queue.Empty?
  {
  }
}

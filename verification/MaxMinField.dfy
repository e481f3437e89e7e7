/** `solveMaxMinField`: initial values, graph preparation, and the relaxation loop over the
    persistent map and the leftist heap. */
module MaxMinField {
  import opened Options
  import opened Keys
  import opened Numbers
  import opened MaxMinSpec
  import opened WorkQueue
  import opened MaxMinMachine
  import opened MaxMinTermination
  import opened MaxMinGraph
  import PSM = PersistentStringMap

  // ---------- initial values ----------

  /** A node's value after being offered `v`: it is never lowered. */
  function Raise(m: map<Key, int>, k: Key, v: int): map<Key, int>
  {
    if k in m && v <= m[k] then m else m[k := v]
  }

  /** Offers every listed number, clamped, to its node if the node is known. */
  ghost function RaiseAll(m: map<Key, int>, nodes: set<Key>, entries: seq<(Key, Num)>, top: nat): map<Key, int>
  {
    if entries == [] then m
    else
      var last := entries[|entries| - 1];
      var prior := RaiseAll(m, nodes, entries[..|entries| - 1], top);
      if last.0 in nodes then Raise(prior, last.0, ClampInteger(last.1, top)) else prior
  }

  /** Some entry offers `v`, clamped, to the known node `k`. */
  ghost predicate Offered(nodes: set<Key>, entries: seq<(Key, Num)>, top: nat, k: Key, v: int)
  {
    k in nodes && exists i :: 0 <= i < |entries| && entries[i].0 == k && ClampInteger(entries[i].1, top) == v
  }

  /** `r` holds, at every node that had a value or was offered one, the largest of them. */
  ghost predicate IsMaximum(m: map<Key, int>, nodes: set<Key>, entries: seq<(Key, Num)>, top: nat, r: map<Key, int>)
  {
    && (forall k :: k in m ==> k in r && m[k] <= r[k])
    && (forall k, v :: Offered(nodes, entries, top, k, v) ==> k in r && v <= r[k])
    && (forall k :: k in r ==> (k in m && m[k] == r[k]) || Offered(nodes, entries, top, k, r[k]))
  }

  lemma OfferedNext(nodes: set<Key>, entries: seq<(Key, Num)>, top: nat, k: Key, v: int)
    requires entries != []
    ensures var last := entries[|entries| - 1];
      Offered(nodes, entries, top, k, v) <==>
        Offered(nodes, entries[..|entries| - 1], top, k, v) ||
          (k in nodes && last.0 == k && ClampInteger(last.1, top) == v)
  {
    hide ClampInteger;
    var rest := entries[..|entries| - 1];
    if Offered(nodes, rest, top, k, v) {
      var i :| 0 <= i < |rest| && rest[i].0 == k && ClampInteger(rest[i].1, top) == v;
      assert entries[i] == rest[i];
    }
    if Offered(nodes, entries, top, k, v) {
      var i :| 0 <= i < |entries| && entries[i].0 == k && ClampInteger(entries[i].1, top) == v;
      assert i < |rest| ==> rest[i] == entries[i];
    }
  }

  lemma {:induction false} RaiseAllIsMaximum(m: map<Key, int>, nodes: set<Key>, entries: seq<(Key, Num)>, top: nat)
    ensures IsMaximum(m, nodes, entries, top, RaiseAll(m, nodes, entries, top))
    decreases |entries|
  {
    if entries != [] {
      hide ClampInteger, Offered;
      RaiseAllIsMaximum(m, nodes, entries[..|entries| - 1], top);
      forall k, v
        ensures var last := entries[|entries| - 1];
          Offered(nodes, entries, top, k, v) <==>
            Offered(nodes, entries[..|entries| - 1], top, k, v) ||
              (k in nodes && last.0 == k && ClampInteger(last.1, top) == v)
      {
        OfferedNext(nodes, entries, top, k, v);
      }
    }
  }

  /** The raised values are the maxima of what was there and what was offered, and nothing else is. */
  lemma RaiseAllExact(m: map<Key, int>, nodes: set<Key>, entries: seq<(Key, Num)>, top: nat, r: map<Key, int>)
    ensures r == RaiseAll(m, nodes, entries, top) <==> IsMaximum(m, nodes, entries, top, r)
  {
    hide Offered, RaiseAll;
    RaiseAllIsMaximum(m, nodes, entries, top);
    var s := RaiseAll(m, nodes, entries, top);
    if IsMaximum(m, nodes, entries, top, r) {
      assert forall k :: k in r <==> k in s;
      assert forall k :: k in r ==> r[k] == s[k];
    }
  }

  lemma RaiseAllNext(m: map<Key, int>, nodes: set<Key>, entries: seq<(Key, Num)>, top: nat, i: nat)
    requires i < |entries|
    ensures var prior := RaiseAll(m, nodes, entries[..i], top);
      RaiseAll(m, nodes, entries[..i + 1], top) ==
        if entries[i].0 in nodes then Raise(prior, entries[i].0, ClampInteger(entries[i].1, top)) else prior
  {
    assert entries[..i + 1][..i] == entries[..i];
  }

  /** `changed` lists exactly the nodes whose value is new or larger, with that value. */
  ghost predicate Changes(before: map<Key, int>, after: map<Key, int>, changed: map<Key, int>)
  {
    && (forall k :: k in changed <==> k in after && (k !in before || before[k] < after[k]))
    && (forall k :: k in changed ==> changed[k] == after[k])
    && (forall k :: k in before ==> k in after && before[k] <= after[k])
  }

  lemma ChangesRaise(before: map<Key, int>, m: map<Key, int>, changed: map<Key, int>, k: Key, v: int)
    requires Changes(before, m, changed)
    ensures Changes(before, Raise(m, k, v), if k in m && v <= m[k] then changed else changed[k := v])
  {
  }

  datatype Prior = NoPrior | Persistent(values: PSM.Tree<int>) | Plain(entries: seq<(Key, Num)>)

  ghost predicate PriorValid(prior: Prior)
  {
    prior.Persistent? ==> PSM.Valid(prior.values)
  }

  /** A persistent map is taken as it is; a plain map is filtered and clamped. */
  ghost function Base(prior: Prior, nodes: set<Key>, top: nat): map<Key, int>
  {
    match prior
    case NoPrior => map[]
    case Persistent(values) => PSM.Contents(values)
    case Plain(entries) => RaiseAll(map[], nodes, entries, top)
  }

  method InitialValues(nodes: set<Key>, seeds: seq<(Key, Num)>, top: nat, prior: Prior)
    returns (values: PSM.Tree<int>, changed: map<Key, int>)
    requires PriorValid(prior)
    ensures PSM.Valid(values) && PSM.Contents(values) == RaiseAll(Base(prior, nodes, top), nodes, seeds, top)
    ensures IsMaximum(Base(prior, nodes, top), nodes, seeds, top, PSM.Contents(values))
    ensures Changes(Base(prior, nodes, top), PSM.Contents(values), changed)
  {
    hide PSM.Valid, PSM.Contents, PSM.Insert, PSM.Heights, Changes, IsMaximum;
    RaiseAllIsMaximum(Base(prior, nodes, top), nodes, seeds, top);
    values, changed := PSM.Leaf, map[];
    EmptyValues();
    if prior.Persistent? { values := prior.values; }
    if prior.Plain? { values := OfferAll(nodes, prior.entries, top); }
    ghost var base := PSM.Contents(values);
    assert base == Base(prior, nodes, top);
    NoChanges(base);
    for i := 0 to |seeds|
      invariant PSM.Valid(values) && PSM.Contents(values) == RaiseAll(base, nodes, seeds[..i], top)
      invariant Changes(base, PSM.Contents(values), changed)
    {
      var (nodeId, value) := seeds[i];
      RaiseAllNext(base, nodes, seeds, top, i);
      if nodeId in nodes {
        var grade := ClampInteger(value, top);
        ChangesRaise(base, PSM.Contents(values), changed, nodeId, grade);
        var current := PSM.Get(values, nodeId);
        if current.None? || grade > current.value {
          PSM.InsertRefines(values, nodeId, grade as int);
          PSM.ValidHeights(values);
          values := PSM.Insert(values, nodeId, grade as int);
          changed := changed[nodeId := grade];
        }
      }
    }
    assert seeds[..|seeds|] == seeds;
  }

  method OfferAll(nodes: set<Key>, entries: seq<(Key, Num)>, top: nat) returns (values: PSM.Tree<int>)
    ensures PSM.Valid(values) && PSM.Contents(values) == RaiseAll(map[], nodes, entries, top)
  {
    hide PSM.Valid, PSM.Contents, PSM.Insert, PSM.Heights;
    values := PSM.Leaf;
    EmptyValues();
    for i := 0 to |entries|
      invariant PSM.Valid(values) && PSM.Contents(values) == RaiseAll(map[], nodes, entries[..i], top)
    {
      var (nodeId, value) := entries[i];
      RaiseAllNext(map[], nodes, entries, top, i);
      if nodeId in nodes {
        var clamped := ClampInteger(value, top);
        var current := PSM.Get(values, nodeId);
        if current.None? || clamped > current.value {
          PSM.InsertRefines(values, nodeId, clamped as int);
          PSM.ValidHeights(values);
          values := PSM.Insert(values, nodeId, clamped as int);
        }
      }
    }
    assert entries[..|entries|] == entries;
  }

  lemma EmptyValues()
    ensures PSM.Valid<int>(PSM.Leaf) && PSM.Contents<int>(PSM.Leaf) == map[]
  {
  }

  lemma NoChanges(m: map<Key, int>)
    ensures Changes(m, m, map[])
  {
  }

  // ---------- legal transitions and adjacency ----------

  datatype RawTransition = RawTransition(from: Key, to: Key, strength: Num)

  ghost function Legal(nodes: set<Key>, ts: seq<RawTransition>, top: nat): seq<Transition>
  {
    if ts == [] then []
    else
      var e := ts[|ts| - 1];
      var prior := Legal(nodes, ts[..|ts| - 1], top);
      if e.from in nodes && e.to in nodes
      then prior + [Transition(e.from, e.to, ClampInteger(e.strength, top))] else prior
  }

  ghost predicate IsKept(nodes: set<Key>, ts: seq<RawTransition>, k: int)
    requires 0 <= k < |ts|
  {
    ts[k].from in nodes && ts[k].to in nodes
  }

  /** `kept` takes from `ts`, in order, exactly the transitions between known nodes, with their
      strengths clamped; `places` are their indices. */
  ghost predicate KeptAt(nodes: set<Key>, ts: seq<RawTransition>, top: nat, kept: seq<Transition>, places: seq<int>)
  {
    && |places| == |kept|
    && (forall i, j :: 0 <= i < j < |places| ==> places[i] < places[j])
    && (forall j :: 0 <= j < |places| ==> 0 <= places[j] < |ts|)
    && (forall k :: 0 <= k < |ts| ==> (k in places <==> IsKept(nodes, ts, k)))
    && (forall j :: 0 <= j < |places| ==>
          kept[j] == Transition(ts[places[j]].from, ts[places[j]].to, ClampInteger(ts[places[j]].strength, top)))
  }

  ghost predicate KeepsKnown(nodes: set<Key>, ts: seq<RawTransition>, top: nat, kept: seq<Transition>)
  {
    exists places :: KeptAt(nodes, ts, top, kept, places)
  }

  lemma {:induction false} LegalKeptAt(nodes: set<Key>, ts: seq<RawTransition>, top: nat) returns (places: seq<int>)
    ensures KeptAt(nodes, ts, top, Legal(nodes, ts, top), places)
    decreases |ts|
  {
    places := [];
    if ts != [] {
      hide ClampInteger;
      var n := |ts| - 1;
      var rest := ts[..n];
      places := LegalKeptAt(nodes, rest, top);
      forall k | 0 <= k < n
        ensures IsKept(nodes, ts, k) <==> IsKept(nodes, rest, k)
      {
        assert ts[k] == rest[k];
      }
      assert forall j :: 0 <= j < |places| ==> places[j] in places;
      if IsKept(nodes, ts, n) {
        assert n !in places;
        places := places + [n];
      }
    }
  }

  lemma LegalKeepsKnown(nodes: set<Key>, ts: seq<RawTransition>, top: nat)
    ensures KeepsKnown(nodes, ts, top, Legal(nodes, ts, top))
  {
    hide KeptAt;
    var places := LegalKeptAt(nodes, ts, top);
  }

  method LegalTransitions(nodes: set<Key>, ts: seq<RawTransition>, top: nat) returns (legal: seq<Transition>)
    ensures legal == Legal(nodes, ts, top) && KeepsKnown(nodes, ts, top, legal)
  {
    hide KeepsKnown, ClampInteger;
    LegalKeepsKnown(nodes, ts, top);
    legal := [];
    for i := 0 to |ts|
      invariant legal == Legal(nodes, ts[..i], top)
    {
      var e := ts[i];
      assert ts[..i + 1][..i] == ts[..i];
      if e.from in nodes && e.to in nodes {
        legal := legal + [Transition(e.from, e.to, ClampInteger(e.strength, top))];
      }
    }
    assert ts[..|ts|] == ts;
  }

  method Adjacency(ts: seq<Transition>) returns (edges: map<Key, Outgoing>)
    ensures AllOutValid(edges) && EdgeLists(edges) == AppendAll(map[], ts)
  {
    hide OutValid, Listed, PSM.Heights;
    edges := map[];
    for i := 0 to |ts|
      invariant AllOutValid(edges) && EdgeLists(edges) == AppendAll(map[], ts[..i])
    {
      var e := ts[i];
      NoEdgesValid();
      var outgoing := if e.from in edges then edges[e.from] else NO_EDGES;
      OutHeights(outgoing);
      AppendLists(outgoing, e);
      TableAppend(edges, e, Append(outgoing, e));
      AppendNext(map[], ts[..i], e);
      assert ts[..i + 1] == ts[..i] + [e];
      edges := edges[e.from := Append(outgoing, e)];
    }
    assert ts[..|ts|] == ts;
  }

  // ---------- the starting queue ----------

  function PushAll(h: Heap, items: seq<WorkItem>): Heap
  {
    if items == [] then h else Push(PushAll(h, items[..|items| - 1]), items[|items| - 1])
  }

  lemma {:induction false} PushAllItems(h: Heap, items: seq<WorkItem>)
    requires Valid(h)
    ensures Valid(PushAll(h, items)) && Items(PushAll(h, items)) == Items(h) + multiset(items)
  {
    hide Push, Valid, Items;
    if items != [] {
      var rest, last := items[..|items| - 1], items[|items| - 1];
      PushAllItems(h, rest);
      PushRefines(PushAll(h, rest), last);
      assert items == rest + [last];
    }
  }

  function FreshItems(entries: seq<(Key, int)>): seq<WorkItem>
  {
    seq(|entries|, i requires 0 <= i < |entries| => WorkItem(entries[i].0, entries[i].1, 0))
  }

  /** Where the loop starts: the retained queue plus a worklist, or every value afresh. */
  function StartQueue(values: PSM.Tree<int>, worklist: Option<seq<WorkItem>>, retained: Option<Heap>): Heap
  {
    var h := if retained.Some? then retained.value else Empty;
    if worklist.Some? then PushAll(h, worklist.value)
    else if retained.None? then PushAll(h, FreshItems(PSM.Entries(values)))
    else h
  }

  lemma StartQueueValid(values: PSM.Tree<int>, worklist: Option<seq<WorkItem>>, retained: Option<Heap>)
    requires retained.Some? ==> Valid(retained.value)
    ensures Valid(StartQueue(values, worklist, retained))
  {
    var h := if retained.Some? then retained.value else Empty;
    assert Valid(Empty);
    hide Valid;
    if worklist.Some? {
      PushAllItems(h, worklist.value);
    } else if retained.None? {
      PushAllItems(h, FreshItems(PSM.Entries(values)));
    }
  }

  // ---------- the relaxation loop ----------

  method RelaxMaxMin(prior: PSM.Tree<int>, edges: map<Key, Outgoing>, worklist: Option<seq<WorkItem>>,
                     workLimit: Option<int>, retained: Option<Heap>, changed0: map<Key, int>)
    returns (values: PSM.Tree<int>, queue: Heap, steps: nat, complete: bool, changed: map<Key, int>)
    requires PSM.Valid(prior) && AllOutValid(edges) && (retained.Some? ==> Valid(retained.value))
    ensures PSM.Valid(values) && Valid(queue)
    ensures var st := State(PSM.Contents(prior), StartQueue(prior, worklist, retained), changed0);
      Run(EdgeLists(edges), st, steps) == State(PSM.Contents(values), queue, changed) &&
      Taken(EdgeLists(edges), st, steps) == steps
    ensures complete <==> queue.Empty?
    ensures workLimit.Some? ==> steps <= (if workLimit.value < 0 then 0 else workLimit.value)
    ensures !complete ==> workLimit.Some? && steps >= workLimit.value
  {
    hide Valid, PSM.Valid, PSM.Contents, PSM.Insert, PSM.Heights, Push, PopRest, PushAll, OutValid, Listed, Step,
      Unreached, Weight, InRange, EdgeLists, AllOutValid;
    ghost var lists := EdgeLists(edges);
    values, changed := prior, changed0;
    StartQueueValid(prior, worklist, retained);
    queue := StartQueue(prior, worklist, retained);
    steps := 0;
    ghost var first := State(PSM.Contents(prior), queue, changed0);
    RangeOfWorks(lists, first.values);
    ghost var range := RangeOf(lists, first.values);
    while queue.Node?
      invariant PSM.Valid(values) && Valid(queue)
      invariant Run(lists, first, steps) == State(PSM.Contents(values), queue, changed)
      invariant Taken(lists, first, steps) == steps
      invariant workLimit.Some? ==> steps <= (if workLimit.value < 0 then 0 else workLimit.value)
      invariant InRange(range, lists, PSM.Contents(values))
      decreases Unreached(range, PSM.Contents(values)), Weight(lists, queue)
    {
      if workLimit.Some? && steps >= workLimit.value { return values, queue, steps, false, changed; }
      ghost var st := State(PSM.Contents(values), queue, changed);
      RunOne(lists, first, steps);
      StepDecreases(range, lists, st);
      values, queue, changed := RelaxOne(values, queue, changed, edges);
      steps := steps + 1;
    }
    complete := true;
  }

  lemma RunOne(edges: Edges, st: State, n: nat)
    requires Run(edges, st, n).queue.Node? && Taken(edges, st, n) == n
    ensures Run(edges, st, n + 1) == Step(edges, Run(edges, st, n)) && Taken(edges, st, n + 1) == n + 1
  {
    hide Step;
    RunSplit(edges, st, n, 1);
    assert Run(edges, Run(edges, st, n), 1) == Run(edges, Step(edges, Run(edges, st, n)), 0);
    assert Taken(edges, Run(edges, st, n), 1) == 1 + Taken(edges, Step(edges, Run(edges, st, n)), 0);
  }

  lemma TableOut(edges: map<Key, Outgoing>, u: Key)
    requires AllOutValid(edges)
    ensures var o := if u in edges then edges[u] else NO_EDGES;
      OutValid(o) && Listed(o) == Out(EdgeLists(edges), u) && |Listed(o)| == o.length
  {
    NoEdgesValid();
    hide OutValid;
  }

  lemma IdleStep(edges: Edges, st: State)
    requires st.queue.Node?
    requires !Live(st.values, st.queue.item) || st.queue.item.edgeOffset >= |Out(edges, st.queue.item.nodeId)|
    ensures Step(edges, st) == st.(queue := PopRest(st.queue))
  {
    hide PopRest, Out;
  }

  lemma BusyStep(edges: Edges, st: State, e: Transition, rest: Heap, next: int)
    requires st.queue.Node? && Live(st.values, st.queue.item)
    requires var out := Out(edges, st.queue.item.nodeId);
      st.queue.item.edgeOffset < |out| && e == out[st.queue.item.edgeOffset]
    requires rest == Continued(edges, st.queue.item, PopRest(st.queue))
    requires next == Min(st.queue.item.strength, e.strength)
    ensures Step(edges, st) ==
      if e.to in st.values && next <= st.values[e.to] then st.(queue := rest)
      else State(st.values[e.to := next], Push(rest, WorkItem(e.to, next, 0)), st.changed[e.to := next])
  {
    hide PopRest, Out, Push, Continued, Min;
  }

  /** The loop body after the limit check. */
  method RelaxOne(values0: PSM.Tree<int>, queue0: Heap, changed0: map<Key, int>, edges: map<Key, Outgoing>)
    returns (values: PSM.Tree<int>, queue: Heap, changed: map<Key, int>)
    requires PSM.Valid(values0) && Valid(queue0) && queue0.Node? && AllOutValid(edges)
    ensures PSM.Valid(values) && Valid(queue)
    ensures State(PSM.Contents(values), queue, changed) ==
      Step(EdgeLists(edges), State(PSM.Contents(values0), queue0, changed0))
  {
    hide Valid, PSM.Valid, PSM.Contents, Push, PopRest, EdgeLists, Out, AllOutValid, Step, Min;
    ghost var st, lists := State(PSM.Contents(values0), queue0, changed0), EdgeLists(edges);
    var current := queue0.item;
    values, queue, changed := values0, PopRest(queue0), changed0;
    PopRefines(queue0);
    var held := PSM.Get(values, current.nodeId);
    if held != Some(current.strength) {
      IdleStep(lists, st);
      return;
    }
    var offset := current.edgeOffset;
    var transition, more := EdgeAt(edges, current.nodeId, offset);
    if transition.None? {
      IdleStep(lists, st);
      return;
    }
    if more {
      PushRefines(queue, current.(edgeOffset := offset + 1));
      queue := Push(queue, current.(edgeOffset := offset + 1));
    }
    var next := Min(current.strength, transition.value.strength);
    BusyStep(lists, st, transition.value, queue, next);
    values, queue, changed := Improve(values, queue, changed, transition.value.to, next);
  }

  /** The edge of a node at an offset, and whether another one follows. */
  method EdgeAt(edges: map<Key, Outgoing>, nodeId: Key, offset: nat)
    returns (transition: Option<Transition>, more: bool)
    requires AllOutValid(edges)
    ensures var out := Out(EdgeLists(edges), nodeId);
      transition == (if offset < |out| then Some(out[offset]) else None) && (more <==> offset + 1 < |out|)
  {
    hide OutValid, Listed, EdgeLists, Out, AllOutValid;
    TableOut(edges, nodeId);
    var outgoing := if nodeId in edges then edges[nodeId] else NO_EDGES;
    transition := At(outgoing, offset);
    more := offset + 1 < outgoing.length;
  }

  /** Raises a node's value and queues it, unless it has one at least as large. */
  method Improve(values0: PSM.Tree<int>, queue0: Heap, changed0: map<Key, int>, to: Key, next: int)
    returns (values: PSM.Tree<int>, queue: Heap, changed: map<Key, int>)
    requires PSM.Valid(values0) && Valid(queue0)
    ensures PSM.Valid(values) && Valid(queue)
    ensures var held := PSM.Contents(values0);
      State(PSM.Contents(values), queue, changed) ==
        if to in held && next <= held[to] then State(held, queue0, changed0)
        else State(held[to := next], Push(queue0, WorkItem(to, next, 0)), changed0[to := next])
  {
    hide Valid, PSM.Valid, PSM.Contents, PSM.Insert, PSM.Heights, Push;
    values, queue, changed := values0, queue0, changed0;
    var prior := PSM.Get(values, to);
    if prior.Some? && next <= prior.value { return; }
    PSM.InsertRefines(values, to, next);
    PSM.ValidHeights(values);
    values := PSM.Insert(values, to, next);
    changed := changed[to := next];
    PushRefines(queue, WorkItem(to, next, 0));
    queue := Push(queue, WorkItem(to, next, 0));
  }
}

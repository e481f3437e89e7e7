/** The relaxation loop as a machine: one step pops one work item. */
module MaxMinMachine {
  import opened Keys
  import opened MaxMinSpec
  import opened WorkQueue

  datatype State = State(values: map<Key, int>, queue: Heap, changed: map<Key, int>)

  /** A popped item counts only if it carries its node's current value. */
  predicate Live(values: map<Key, int>, item: WorkItem)
  {
    item.nodeId in values && values[item.nodeId] == item.strength
  }

  function Continued(edges: Edges, item: WorkItem, rest: Heap): Heap
  {
    if item.edgeOffset + 1 < |Out(edges, item.nodeId)| then Push(rest, item.(edgeOffset := item.edgeOffset + 1))
    else rest
  }

  function Step(edges: Edges, st: State): State
    requires st.queue.Node?
  {
    var item, rest := st.queue.item, PopRest(st.queue);
    if !Live(st.values, item) || item.edgeOffset >= |Out(edges, item.nodeId)| then st.(queue := rest)
    else
      var e := Out(edges, item.nodeId)[item.edgeOffset];
      var queue := Continued(edges, item, rest);
      var next := Min(item.strength, e.strength);
      if e.to in st.values && next <= st.values[e.to] then st.(queue := queue)
      else State(st.values[e.to := next], Push(queue, WorkItem(e.to, next, 0)), st.changed[e.to := next])
  }

  /** At most `n` steps, fewer if the queue runs empty. */
  function Run(edges: Edges, st: State, n: nat): State
    decreases n
  {
    if n == 0 || st.queue.Empty? then st else Run(edges, Step(edges, st), n - 1)
  }

  /** How many of `n` allowed steps are actually taken. */
  function Taken(edges: Edges, st: State, n: nat): nat
    decreases n
  {
    if n == 0 || st.queue.Empty? then 0 else 1 + Taken(edges, Step(edges, st), n - 1)
  }

  // ---------- the covering invariant ----------

  ghost predicate CoveredBy(q: multiset<WorkItem>, u: Key, v: int, i: int)
  {
    exists off: nat :: off <= i && WorkItem(u, v, off) in q
  }

  /** Each edge is relaxed, or a live queue item for its source starts at or before it. */
  ghost predicate Covered(edges: Edges, values: map<Key, int>, q: multiset<WorkItem>)
  {
    forall u, i :: u in values && 0 <= i < |Out(edges, u)| ==>
      Relaxed(values, values[u], Out(edges, u)[i]) || CoveredBy(q, u, values[u], i)
  }

  ghost predicate Inv(start: map<Key, int>, edges: Edges, st: State)
  {
    Valid(st.queue) && Covered(edges, st.values, Items(st.queue)) && Sound(start, edges, st.values)
  }

  /** `Covered` with the edge of `u` at position `at` exempt. */
  ghost predicate CoveredBut(edges: Edges, values: map<Key, int>, q: multiset<WorkItem>, u: Key, at: int)
  {
    forall v, i :: v in values && 0 <= i < |Out(edges, v)| && !(v == u && i == at) ==>
      Relaxed(values, values[v], Out(edges, v)[i]) || CoveredBy(q, v, values[v], i)
  }

  /** Dropping an item is harmless when every edge it could cover is covered without it. */
  lemma CoveredDrop(edges: Edges, values: map<Key, int>, q: multiset<WorkItem>, r: multiset<WorkItem>, item: WorkItem)
    requires Covered(edges, values, q) && q == r + multiset{item}
    requires !Live(values, item) || item.edgeOffset >= |Out(edges, item.nodeId)|
    ensures Covered(edges, values, r)
  {
    hide Out, Relaxed;
    forall u, i | u in values && 0 <= i < |Out(edges, u)|
      ensures Relaxed(values, values[u], Out(edges, u)[i]) || CoveredBy(r, u, values[u], i)
    {
      if CoveredBy(q, u, values[u], i) {
        var off: nat :| off <= i && WorkItem(u, values[u], off) in q;
        assert WorkItem(u, values[u], off) in r;
      }
    }
  }

  /** Advancing an item past an edge leaves only that edge to be relaxed. */
  lemma CoveredAdvance(edges: Edges, values: map<Key, int>, q: multiset<WorkItem>, r: multiset<WorkItem>,
                       item: WorkItem)
    requires Covered(edges, values, q) && q == r + multiset{item} && Live(values, item)
    requires item.edgeOffset < |Out(edges, item.nodeId)|
    ensures var s := if item.edgeOffset + 1 < |Out(edges, item.nodeId)|
                     then r + multiset{item.(edgeOffset := item.edgeOffset + 1)} else r;
      CoveredBut(edges, values, s, item.nodeId, item.edgeOffset)
  {
    hide Out, Relaxed;
    var next := item.(edgeOffset := item.edgeOffset + 1);
    var s := if item.edgeOffset + 1 < |Out(edges, item.nodeId)| then r + multiset{next} else r;
    forall u, i | u in values && 0 <= i < |Out(edges, u)| && !(u == item.nodeId && i == item.edgeOffset)
      ensures Relaxed(values, values[u], Out(edges, u)[i]) || CoveredBy(s, u, values[u], i)
    {
      if CoveredBy(q, u, values[u], i) {
        var off: nat :| off <= i && WorkItem(u, values[u], off) in q;
        if WorkItem(u, values[u], off) in r {
          assert WorkItem(u, values[u], off) in s;
        } else {
          assert next in s && next == WorkItem(u, values[u], off + 1);
        }
      }
    }
  }

  /** Raising one node keeps every other edge covered once the node itself is queued. */
  lemma CoveredRaise(edges: Edges, values: map<Key, int>, q: multiset<WorkItem>, to: Key, next: int, skip: Key, at: int)
    requires to !in values || values[to] < next
    requires CoveredBut(edges, values, q, skip, at)
    requires skip in values && 0 <= at < |Out(edges, skip)| && skip != to
    requires Out(edges, skip)[at].to == to && Min(values[skip], Out(edges, skip)[at].strength) <= next
    ensures Covered(edges, values[to := next], q + multiset{WorkItem(to, next, 0)})
  {
    hide Out;
    var w := values[to := next];
    var r := q + multiset{WorkItem(to, next, 0)};
    forall u, i | u in w && 0 <= i < |Out(edges, u)|
      ensures Relaxed(w, w[u], Out(edges, u)[i]) || CoveredBy(r, u, w[u], i)
    {
      if u == to {
        assert WorkItem(to, next, 0) in r;
      } else if !(u == skip && i == at) {
        if CoveredBy(q, u, values[u], i) {
          var off: nat :| off <= i && WorkItem(u, values[u], off) in q;
          assert WorkItem(u, values[u], off) in r;
        }
      }
    }
  }

  lemma SupportedAlong(start: map<Key, int>, edges: Edges, u: Key, v: int, e: Transition)
    requires Supported(start, edges, u, v) && e in Out(edges, u)
    ensures Supported(start, edges, e.to, Min(v, e.strength))
  {
    var p :| Supports(start, edges, p, u, v);
    assert Supports(start, edges, Along(p, e), e.to, Min(v, e.strength));
  }

  lemma SoundRaise(start: map<Key, int>, edges: Edges, values: map<Key, int>, u: Key, e: Transition)
    requires Sound(start, edges, values) && u in values && e in Out(edges, u)
    requires e.to !in values || values[e.to] < Min(values[u], e.strength)
    ensures Sound(start, edges, values[e.to := Min(values[u], e.strength)])
  {
    hide Supported;
    SupportedAlong(start, edges, u, values[u], e);
  }

  lemma ContinuedItems(edges: Edges, item: WorkItem, rest: Heap)
    requires Valid(rest)
    ensures Valid(Continued(edges, item, rest))
    ensures Items(Continued(edges, item, rest)) ==
      if item.edgeOffset + 1 < |Out(edges, item.nodeId)|
      then Items(rest) + multiset{item.(edgeOffset := item.edgeOffset + 1)} else Items(rest)
  {
    hide Push, Items, Valid;
    if item.edgeOffset + 1 < |Out(edges, item.nodeId)| {
      PushRefines(rest, item.(edgeOffset := item.edgeOffset + 1));
    }
  }

  /** One step on a live item with an edge: the two possible outcomes keep the invariant. */
  lemma StepLive(start: map<Key, int>, edges: Edges, st: State)
    requires st.queue.Node? && Inv(start, edges, st)
    requires Live(st.values, st.queue.item) && st.queue.item.edgeOffset < |Out(edges, st.queue.item.nodeId)|
    ensures Inv(start, edges, Step(edges, st))
  {
    hide Valid, Items, Covered, CoveredBut, Sound, Continued, PopRest, Push, Out;
    var item, rest := st.queue.item, PopRest(st.queue);
    var u, at := item.nodeId, item.edgeOffset;
    var e := Out(edges, u)[at];
    var queue := Continued(edges, item, rest);
    var next := Min(item.strength, e.strength);
    PopRefines(st.queue);
    ContinuedItems(edges, item, rest);
    CoveredAdvance(edges, st.values, Items(st.queue), Items(rest), item);
    if e.to in st.values && next <= st.values[e.to] {
      AdvanceDone(edges, st.values, Items(queue), u, at);
    } else {
      PushRefines(queue, WorkItem(e.to, next, 0));
      CoveredRaise(edges, st.values, Items(queue), e.to, next, u, at);
      SoundRaise(start, edges, st.values, u, e);
    }
  }

  lemma AdvanceDone(edges: Edges, values: map<Key, int>, q: multiset<WorkItem>, u: Key, at: int)
    requires CoveredBut(edges, values, q, u, at)
    requires u in values && 0 <= at < |Out(edges, u)| && Relaxed(values, values[u], Out(edges, u)[at])
    ensures Covered(edges, values, q)
  {
    hide Out, Relaxed, CoveredBy;
  }

  /** Every step keeps the covering invariant and soundness. */
  lemma StepInv(start: map<Key, int>, edges: Edges, st: State)
    requires st.queue.Node? && Inv(start, edges, st)
    ensures Inv(start, edges, Step(edges, st))
  {
    hide Valid, Items, Covered, Sound, Continued, PopRest, Push, Out;
    var item, rest := st.queue.item, PopRest(st.queue);
    if !Live(st.values, item) || item.edgeOffset >= |Out(edges, item.nodeId)| {
      PopRefines(st.queue);
      CoveredDrop(edges, st.values, Items(st.queue), Items(rest), item);
    } else {
      StepLive(start, edges, st);
    }
  }

  lemma {:induction false} RunInv(start: map<Key, int>, edges: Edges, st: State, n: nat)
    requires Inv(start, edges, st)
    ensures Inv(start, edges, Run(edges, st, n))
    decreases n
  {
    hide Inv, Step;
    if n > 0 && st.queue.Node? {
      StepInv(start, edges, st);
      RunInv(start, edges, Step(edges, st), n - 1);
    }
  }

  /** With an empty queue the covering invariant says that the values are the field. */
  lemma EmptyQueueIsField(start: map<Key, int>, edges: Edges, st: State)
    requires Inv(start, edges, st) && st.queue.Empty?
    ensures IsField(start, edges, st.values)
  {
    hide IsField, Relaxed, Sound, Out;
    forall u, i | u in st.values && 0 <= i < |Out(edges, u)|
      ensures Relaxed(st.values, st.values[u], Out(edges, u)[i])
    {
      assert Items(st.queue) == multiset{};
      assert !CoveredBy(Items(st.queue), u, st.values[u], i);
    }
    ClosedIsField(start, edges, st.values);
  }

  // ---------- stopping and resuming ----------

  /** Running `m` steps and then `n` more is running `m + n`: same values, queue, changes, steps. */
  lemma {:induction false} RunSplit(edges: Edges, st: State, m: nat, n: nat)
    ensures Run(edges, Run(edges, st, m), n) == Run(edges, st, m + n)
    ensures Taken(edges, st, m) + Taken(edges, Run(edges, st, m), n) == Taken(edges, st, m + n)
    decreases m
  {
    hide Step;
    if m > 0 && st.queue.Node? {
      RunSplit(edges, Step(edges, st), m - 1, n);
    }
  }

  /** Recorded changes only add up: they never influence values or queue. */
  lemma {:induction false} ChangesAccumulate(edges: Edges, st: State, n: nat)
    ensures var a := Run(edges, st, n); var b := Run(edges, st.(changed := map[]), n);
      a.values == b.values && a.queue == b.queue && a.changed == st.changed + b.changed
    ensures Taken(edges, st, n) == Taken(edges, st.(changed := map[]), n)
    decreases n
  {
    if n > 0 && st.queue.Node? {
      StepChanges(edges, st);
      var bare := st.(changed := map[]);
      var s, t := Step(edges, st), Step(edges, bare);
      RunUnfold(edges, st, n);
      RunUnfold(edges, bare, n);
      hide Step, Run, Taken;
      ChangesAccumulate(edges, s, n - 1);
      ChangesAccumulate(edges, t, n - 1);
      assert s.(changed := map[]) == t.(changed := map[]);
      ChangesAssociate(st.changed, t.changed, Run(edges, t.(changed := map[]), n - 1).changed);
    }
  }

  lemma RunUnfold(edges: Edges, st: State, n: nat)
    requires n > 0 && st.queue.Node?
    ensures Run(edges, st, n) == Run(edges, Step(edges, st), n - 1)
    ensures Taken(edges, st, n) == 1 + Taken(edges, Step(edges, st), n - 1)
  {
    hide Step;
  }

  lemma ChangesAssociate(a: map<Key, int>, b: map<Key, int>, c: map<Key, int>)
    ensures a + b + c == a + (b + c)
  {
  }

  lemma StepChanges(edges: Edges, st: State)
    requires st.queue.Node?
    ensures var s := Step(edges, st); var t := Step(edges, st.(changed := map[]));
      s.values == t.values && s.queue == t.queue && s.changed == st.changed + t.changed
  {
    hide Push, PopRest, Continued;
  }
}

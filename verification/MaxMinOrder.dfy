/** The order of an uninterrupted run from a fresh queue: popped strengths never increase, a
    node is expanded only at its final value, each edge at most once, and the steps are bounded. */
module MaxMinOrder {
  import opened SetSizes
  import opened Keys
  import opened MaxMinSpec
  import opened WorkQueue
  import opened MaxMinMachine

  /** One edge of the graph: its source and its position in the source's list. */
  type Slot = (Key, nat)

  ghost function Slots(edges: Edges): set<Slot>
  {
    set u, i: nat | u in edges && 0 <= i < |edges[u]| :: (u, i)
  }

  predicate Expands(edges: Edges, st: State)
  {
    && st.queue.Node? && Live(st.values, st.queue.item)
    && st.queue.item.edgeOffset < |Out(edges, st.queue.item.nodeId)|
  }

  ghost predicate BelowBound(values: map<Key, int>, q: multiset<WorkItem>, b: int)
  {
    forall it :: it in q ==> it.strength <= b && it.nodeId in values && it.strength <= values[it.nodeId]
  }

  /** A node has at most one live item, stored once. */
  ghost predicate OneLive(values: map<Key, int>, q: multiset<WorkItem>)
  {
    && (forall it :: it in q && Live(values, it) ==> q[it] == 1)
    && (forall x, y :: x in q && y in q && Live(values, x) && Live(values, y) && x.nodeId == y.nodeId ==> x == y)
  }

  ghost predicate DoneBefore(done: set<Slot>, it: WorkItem)
  {
    forall i :: (it.nodeId, i) in done ==> i < it.edgeOffset
  }

  ghost predicate Ahead(values: map<Key, int>, q: multiset<WorkItem>, done: set<Slot>)
  {
    forall it :: it in q && Live(values, it) ==> DoneBefore(done, it)
  }

  ghost predicate DoneFinal(edges: Edges, values: map<Key, int>, b: int, done: set<Slot>)
  {
    forall u, i :: (u, i) in done ==> u in values && b <= values[u] && i < |Out(edges, u)|
  }

  /** `b` is the last popped strength and `done` the edges relaxed so far. */
  ghost predicate Ordered(edges: Edges, st: State, b: int, done: set<Slot>)
  {
    && Valid(st.queue)
    && BelowBound(st.values, Items(st.queue), b)
    && OneLive(st.values, Items(st.queue))
    && Ahead(st.values, Items(st.queue), done)
    && DoneFinal(edges, st.values, b, done)
  }

  ghost function Mark(edges: Edges, st: State, done: set<Slot>): set<Slot>
    requires st.queue.Node?
  {
    if Expands(edges, st) then done + {(st.queue.item.nodeId, st.queue.item.edgeOffset)} else done
  }

  // ---------- one step ----------

  lemma DropOrdered(values: map<Key, int>, q: multiset<WorkItem>, r: multiset<WorkItem>, item: WorkItem, b: int,
                    done: set<Slot>)
    requires q == r + multiset{item} && BelowBound(values, q, b) && OneLive(values, q) && Ahead(values, q, done)
    requires forall it :: it in q ==> it.strength <= item.strength
    ensures BelowBound(values, r, item.strength) && OneLive(values, r) && Ahead(values, r, done) && item.strength <= b
    ensures Live(values, item) ==> forall it :: it in r && Live(values, it) ==> it.nodeId != item.nodeId
  {
    hide DoneBefore;
    assert item in q;
    forall it | it in r ensures it in q && r[it] <= q[it] { }
  }

  /** Re-queueing a popped live item one edge further. */
  lemma AdvanceOrdered(values: map<Key, int>, r: multiset<WorkItem>, item: WorkItem, done: set<Slot>)
    requires Live(values, item) && BelowBound(values, r, item.strength) && OneLive(values, r) && Ahead(values, r, done)
    requires forall it :: it in r && Live(values, it) ==> it.nodeId != item.nodeId
    requires DoneBefore(done, item)
    ensures var c := item.(edgeOffset := item.edgeOffset + 1);
      var d := done + {(item.nodeId, item.edgeOffset)};
      BelowBound(values, r + multiset{c}, item.strength) && OneLive(values, r + multiset{c}) &&
        Ahead(values, r + multiset{c}, d)
      && Ahead(values, r, d)
  {
    var c := item.(edgeOffset := item.edgeOffset + 1);
    var d := done + {(item.nodeId, item.edgeOffset)};
    var s := r + multiset{c};
    forall it | it in s && Live(values, it)
      ensures s[it] == 1 && DoneBefore(d, it)
    {
      if it == c { assert c !in r; } else { assert it in r; assert DoneBefore(done, it); }
    }
  }

  /** Raising a node and queueing it afresh. */
  lemma RaiseOrdered(values: map<Key, int>, q: multiset<WorkItem>, b: int, done: set<Slot>, to: Key, next: int)
    requires BelowBound(values, q, b) && OneLive(values, q) && Ahead(values, q, done)
    requires next <= b && (to in values ==> values[to] < next)
    requires forall i :: (to, i) !in done
    ensures var w := values[to := next]; var s := q + multiset{WorkItem(to, next, 0)};
      BelowBound(w, s, b) && OneLive(w, s) && Ahead(w, s, done)
  {
    hide DoneBefore;
    var w := values[to := next];
    var c := WorkItem(to, next, 0);
    var s := q + multiset{c};
    assert DoneBefore(done, c) by { NothingDone(done, c); }
    forall it | it in s && Live(w, it)
      ensures it.nodeId == to ==> it == c && c !in q
      ensures it.nodeId != to ==> it in q && Live(values, it)
    {
    }
  }

  lemma NothingDone(done: set<Slot>, c: WorkItem)
    requires forall i :: (c.nodeId, i) !in done
    ensures DoneBefore(done, c)
  {
  }

  /** The edge being relaxed was not relaxed before, and no finished node is raised. */
  lemma StepFacts(edges: Edges, st: State, b: int, done: set<Slot>)
    requires Expands(edges, st) && Ordered(edges, st, b, done)
    ensures var item := st.queue.item;
      (item.nodeId, item.edgeOffset) !in done && item.strength <= b &&
      forall u :: (u !in st.values || st.values[u] < item.strength) ==> forall i :: (u, i) !in done
  {
    hide Valid, Items;
    var item := st.queue.item;
    assert item in Items(st.queue) by { TopIn(st.queue); }
    assert DoneBefore(done, item);
  }

  lemma TopIn(h: Heap)
    requires h.Node?
    ensures h.item in Items(h)
  {
  }

  lemma FinalKept(edges: Edges, values: map<Key, int>, b: int, c: int, done: set<Slot>)
    requires DoneFinal(edges, values, b, done) && c <= b
    ensures DoneFinal(edges, values, c, done)
  {
  }

  lemma FinalExpanded(edges: Edges, values: map<Key, int>, b: int, done: set<Slot>, item: WorkItem)
    requires DoneFinal(edges, values, b, done) && item.strength <= b && Live(values, item)
    requires item.edgeOffset < |Out(edges, item.nodeId)|
    ensures DoneFinal(edges, values, item.strength, done + {(item.nodeId, item.edgeOffset)})
  {
    hide Out;
  }

  lemma FinalRaised(edges: Edges, values: map<Key, int>, b: int, done: set<Slot>, to: Key, next: int)
    requires DoneFinal(edges, values, b, done) && forall i :: (to, i) !in done
    ensures DoneFinal(edges, values[to := next], b, done)
  {
    hide Out;
  }

  /** A step that relaxes an edge keeps the order. */
  lemma ExpandOrdered(edges: Edges, st: State, b: int, done: set<Slot>)
    requires Expands(edges, st) && Ordered(edges, st, b, done)
    ensures Ordered(edges, Step(edges, st), st.queue.item.strength, Mark(edges, st, done))
    ensures |Items(Step(edges, st).queue)| <= |Items(st.queue)| + 1
  {
    hide Valid, Items, BelowBound, OneLive, Ahead, DoneFinal, DoneBefore, Out, Push, PopRest, Continued;
    var item, rest := st.queue.item, PopRest(st.queue);
    var e := Out(edges, item.nodeId)[item.edgeOffset];
    var queue := Continued(edges, item, rest);
    var next := Min(item.strength, e.strength);
    var d := Mark(edges, st, done);
    PopRefines(st.queue);
    DropOrdered(st.values, Items(st.queue), Items(rest), item, b, done);
    TopAhead(st, done);
    AdvanceOrdered(st.values, Items(rest), item, done);
    ContinuedItems(edges, item, rest);
    StepFacts(edges, st, b, done);
    FinalExpanded(edges, st.values, b, done, item);
    if !(e.to in st.values && next <= st.values[e.to]) {
      assert forall i :: (e.to, i) !in d;
      PushRefines(queue, WorkItem(e.to, next, 0));
      RaiseOrdered(st.values, Items(queue), item.strength, d, e.to, next);
      FinalRaised(edges, st.values, item.strength, d, e.to, next);
    }
  }

  lemma TopAhead(st: State, done: set<Slot>)
    requires st.queue.Node? && Live(st.values, st.queue.item) && Ahead(st.values, Items(st.queue), done)
    ensures DoneBefore(done, st.queue.item)
  {
    hide DoneBefore;
    TopIn(st.queue);
  }

  /** Every step keeps the order; it adds one item at most, and only when it relaxes an edge. */
  lemma StepOrdered(edges: Edges, st: State, b: int, done: set<Slot>)
    requires st.queue.Node? && Ordered(edges, st, b, done)
    ensures Ordered(edges, Step(edges, st), st.queue.item.strength, Mark(edges, st, done)) &&
      st.queue.item.strength <= b
    ensures Expands(edges, st) ==> |Items(Step(edges, st).queue)| <= |Items(st.queue)| + 1
    ensures !Expands(edges, st) ==> |Items(Step(edges, st).queue)| == |Items(st.queue)| - 1
  {
    hide Valid, Items, BelowBound, OneLive, Ahead, DoneFinal, DoneBefore, Out, Push, PopRest, Continued;
    var item, rest := st.queue.item, PopRest(st.queue);
    PopRefines(st.queue);
    DropOrdered(st.values, Items(st.queue), Items(rest), item, b, done);
    if Expands(edges, st) {
      ExpandOrdered(edges, st, b, done);
    } else {
      FinalKept(edges, st.values, b, item.strength, done);
    }
  }

  /** Nodes already expanded keep their value. */
  lemma StepKeepsDone(edges: Edges, st: State, b: int, done: set<Slot>, u: Key, i: nat)
    requires st.queue.Node? && Ordered(edges, st, b, done) && (u, i) in done
    ensures u in st.values && u in Step(edges, st).values && Step(edges, st).values[u] == st.values[u]
  {
    hide Valid, Items, BelowBound, OneLive, Ahead, Push, PopRest, Continued;
    if Expands(edges, st) { StepFacts(edges, st, b, done); }
  }

  // ---------- whole runs ----------

  ghost function DoneAfter(edges: Edges, st: State, done: set<Slot>, n: nat): set<Slot>
    decreases n
  {
    if n == 0 || st.queue.Empty? then done else DoneAfter(edges, Step(edges, st), Mark(edges, st, done), n - 1)
  }

  ghost function BoundAfter(edges: Edges, st: State, b: int, n: nat): int
    decreases n
  {
    if n == 0 || st.queue.Empty? then b else BoundAfter(edges, Step(edges, st), st.queue.item.strength, n - 1)
  }

  lemma {:induction false} RunOrdered(edges: Edges, st: State, b: int, done: set<Slot>, n: nat)
    requires Ordered(edges, st, b, done)
    ensures Ordered(edges, Run(edges, st, n), BoundAfter(edges, st, b, n), DoneAfter(edges, st, done, n))
    ensures BoundAfter(edges, st, b, n) <= b && done <= DoneAfter(edges, st, done, n)
    ensures Taken(edges, st, n) + |Items(Run(edges, st, n).queue)| + 2 * |done|
      <= |Items(st.queue)| + 2 * |DoneAfter(edges, st, done, n)|
    decreases n
  {
    hide Ordered, Step, Items, Expands;
    if n > 0 && st.queue.Node? {
      StepOrdered(edges, st, b, done);
      var d := Mark(edges, st, done);
      if Expands(edges, st) { StepFacts(edges, st, b, done); }
      assert |d| == if Expands(edges, st) then |done| + 1 else |done|;
      RunOrdered(edges, Step(edges, st), st.queue.item.strength, d, n - 1);
    }
  }

  lemma DoneHasValue(edges: Edges, st: State, b: int, done: set<Slot>, u: Key, i: nat)
    requires Ordered(edges, st, b, done) && (u, i) in done
    ensures u in st.values
  {
    hide Valid, Items, BelowBound, OneLive, Ahead;
  }

  lemma {:induction false} RunKeepsDone(edges: Edges, st: State, b: int, done: set<Slot>, n: nat, u: Key, i: nat)
    requires Ordered(edges, st, b, done) && (u, i) in done
    ensures u in st.values && u in Run(edges, st, n).values && Run(edges, st, n).values[u] == st.values[u]
    decreases n
  {
    hide Ordered, Step;
    DoneHasValue(edges, st, b, done, u, i);
    if n > 0 && st.queue.Node? {
      StepKeepsDone(edges, st, b, done, u, i);
      StepOrdered(edges, st, b, done);
      RunKeepsDone(edges, Step(edges, st), st.queue.item.strength, Mark(edges, st, done), n - 1, u, i);
    }
  }

  // ---------- a fresh queue ----------

  /** One item per valued node, at its value and from its first edge. */
  ghost predicate Fresh(st: State)
  {
    && Valid(st.queue)
    && (forall n :: n in st.values ==> Items(st.queue)[WorkItem(n, st.values[n], 0)] == 1)
    && (forall it :: it in Items(st.queue) ==> Live(st.values, it) && it.edgeOffset == 0)
    && |Items(st.queue)| == |st.values|
  }

  lemma FreshOrdered(edges: Edges, st: State) returns (b: int)
    requires Fresh(st)
    ensures Ordered(edges, st, b, {})
  {
    hide Valid, Items;
    if st.queue.Node? {
      PopRefines(st.queue);
      b := st.queue.item.strength;
    } else {
      b := 0;
      assert Items(st.queue) == multiset{} by { EmptyItems(st.queue); }
    }
    var q := Items(st.queue);
    forall it | it in q ensures q[it] == 1 && it == WorkItem(it.nodeId, st.values[it.nodeId], 0) { }
  }

  lemma EmptyItems(h: Heap)
    requires h.Empty?
    ensures Items(h) == multiset{}
  {
  }

  lemma RunNext(edges: Edges, st: State, i: nat, n: nat)
    requires Run(edges, st, i).queue.Node? && i < n
    ensures Run(edges, Step(edges, Run(edges, st, i)), n - i - 1) == Run(edges, st, n)
  {
    hide Step;
    RunSplit(edges, st, i, n - i);
  }

  /** Popped strengths never increase along the run. */
  lemma PopsNeverIncrease(edges: Edges, st: State, i: nat, j: nat)
    requires Fresh(st) && i < j
    requires Run(edges, st, i).queue.Node? && Run(edges, st, j).queue.Node?
    ensures Run(edges, st, j).queue.item.strength <= Run(edges, st, i).queue.item.strength
  {
    hide Fresh, Valid, Items, OneLive, Ahead, DoneFinal, Step, Expands;
    var b := FreshOrdered(edges, st);
    RunOrdered(edges, st, b, {}, i);
    var s := Run(edges, st, i);
    RunSplit(edges, st, i, j - i);
    var bi, di := BoundAfter(edges, st, b, i), DoneAfter(edges, st, {}, i);
    StepOrdered(edges, s, bi, di);
    RunOrdered(edges, Step(edges, s), s.queue.item.strength, Mark(edges, s, di), j - i - 1);
    assert Run(edges, Step(edges, s), j - i - 1) == Run(edges, st, j);
    TopIn(Run(edges, st, j).queue);
  }

  /** A node is expanded only at its final value: no later step changes it. */
  lemma ExpandedOnlyAtFinalValue(edges: Edges, st: State, i: nat, n: nat)
    requires Fresh(st) && i <= n && Expands(edges, Run(edges, st, i))
    ensures var item := Run(edges, st, i).queue.item;
      item.nodeId in Run(edges, st, n).values && Run(edges, st, n).values[item.nodeId] == item.strength
  {
    hide Fresh, Ordered, Step, Run, DoneAfter, BoundAfter;
    var b := FreshOrdered(edges, st);
    RunOrdered(edges, st, b, {}, i);
    var s := Run(edges, st, i);
    var item := s.queue.item;
    var bi, di := BoundAfter(edges, st, b, i), DoneAfter(edges, st, {}, i);
    if i < n {
      RunNext(edges, st, i, n);
      StepOrdered(edges, s, bi, di);
      ExpandKeepsSelf(edges, s);
      RunKeepsDone(edges, Step(edges, s), item.strength, Mark(edges, s, di), n - i - 1, item.nodeId, item.edgeOffset);
    }
  }

  lemma ExpandKeepsSelf(edges: Edges, st: State)
    requires Expands(edges, st)
    ensures st.queue.item.nodeId in Step(edges, st).values
    ensures Step(edges, st).values[st.queue.item.nodeId] == st.queue.item.strength
  {
    hide Push, PopRest, Continued;
  }

  /** No edge is relaxed twice. */
  lemma EachEdgeOnce(edges: Edges, st: State, i: nat, j: nat)
    requires Fresh(st) && i < j && Expands(edges, Run(edges, st, i)) && Expands(edges, Run(edges, st, j))
    ensures var x := Run(edges, st, i).queue.item; var y := Run(edges, st, j).queue.item;
      (x.nodeId, x.edgeOffset) != (y.nodeId, y.edgeOffset)
  {
    hide Fresh, Ordered, Step, Run, DoneAfter, BoundAfter;
    var b := FreshOrdered(edges, st);
    RunOrdered(edges, st, b, {}, i);
    var s := Run(edges, st, i);
    RunNext(edges, st, i, j);
    var bi, di := BoundAfter(edges, st, b, i), DoneAfter(edges, st, {}, i);
    StepOrdered(edges, s, bi, di);
    var dj := Mark(edges, s, di);
    RunOrdered(edges, Step(edges, s), s.queue.item.strength, dj, j - i - 1);
    StepFacts(edges, Run(edges, st, j), BoundAfter(edges, Step(edges, s), s.queue.item.strength, j - i - 1),
      DoneAfter(edges, Step(edges, s), dj, j - i - 1));
  }

  lemma DoneWithinSlots(edges: Edges, st: State, b: int, done: set<Slot>)
    requires Ordered(edges, st, b, done)
    ensures |done| <= |Slots(edges)|
  {
    hide Valid, Items, BelowBound, OneLive, Ahead;
    forall p | p in done ensures p in Slots(edges) {
      assert p == (p.0, p.1);
      assert p.0 in edges && p.1 < |edges[p.0]|;
    }
    SubsetSize(done, Slots(edges));
  }

  /** The step bound: one per initial value plus two per edge, for every work limit. */
  lemma StepsBounded(edges: Edges, st: State, n: nat)
    requires Fresh(st)
    ensures Taken(edges, st, n) <= |st.values| + 2 * |Slots(edges)|
  {
    hide Ordered, Slots, Step, Items, Valid;
    var b := FreshOrdered(edges, st);
    RunOrdered(edges, st, b, {}, n);
    DoneWithinSlots(edges, Run(edges, st, n), BoundAfter(edges, st, b, n), DoneAfter(edges, st, {}, n));
  }
}

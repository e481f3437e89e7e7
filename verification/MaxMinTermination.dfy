/** Every relaxation run stops, on every finite graph, cyclic or not. */
module MaxMinTermination {
  import opened Keys
  import opened MaxMinSpec
  import opened WorkQueue
  import opened MaxMinMachine

  /** An item may still be popped once per remaining edge of its node, and once to be dropped. */
  ghost function ItemWeight(edges: Edges, item: WorkItem): nat
  {
    var n := |Out(edges, item.nodeId)|;
    1 + if item.edgeOffset < n then n - item.edgeOffset else 0
  }

  ghost function Weight(edges: Edges, h: Heap): nat
  {
    if h.Empty? then 0 else ItemWeight(edges, h.item) + Weight(edges, h.left) + Weight(edges, h.right)
  }

  lemma {:induction false} MergeWeight(edges: Edges, a: Heap, b: Heap)
    ensures Weight(edges, Merge(a, b)) == Weight(edges, a) + Weight(edges, b)
    decreases Nodes(a) + Nodes(b)
  {
    hide ItemWeight;
    if a.Node? && b.Node? {
      if a.item.strength < b.item.strength {
        MergeWeight(edges, b.right, a);
      } else {
        MergeWeight(edges, a.right, b);
      }
    }
  }

  lemma PushWeight(edges: Edges, h: Heap, item: WorkItem)
    ensures Weight(edges, Push(h, item)) == Weight(edges, h) + ItemWeight(edges, item)
  {
    hide ItemWeight;
    MergeWeight(edges, h, Node(item, Empty, Empty, 1, 1));
  }

  lemma PopWeight(edges: Edges, h: Heap)
    requires h.Node?
    ensures Weight(edges, h) == Weight(edges, PopRest(h)) + ItemWeight(edges, h.item)
  {
    hide ItemWeight;
    MergeWeight(edges, h.left, h.right);
  }

  /** All nodes that can ever carry a value, and all values they can ever carry. */
  datatype Range = Range(nodes: set<Key>, grades: set<int>)

  ghost predicate InRange(r: Range, edges: Edges, values: map<Key, int>)
  {
    && (forall n :: n in values ==> n in r.nodes && values[n] in r.grades)
    && (forall u, i :: 0 <= i < |Out(edges, u)| ==>
          Out(edges, u)[i].to in r.nodes && Out(edges, u)[i].strength in r.grades)
  }

  ghost predicate Reached(values: map<Key, int>, n: Key, g: int)
  {
    n in values && g <= values[n]
  }

  ghost function Unreached(r: Range, values: map<Key, int>): set<(Key, int)>
  {
    set n, g | n in r.nodes && g in r.grades && !Reached(values, n, g) :: (n, g)
  }

  lemma RaiseShrinks(r: Range, values: map<Key, int>, n: Key, g: int)
    requires n in r.nodes && g in r.grades && !Reached(values, n, g)
    ensures Unreached(r, values[n := g]) < Unreached(r, values)
  {
    var w := values[n := g];
    forall p | p in Unreached(r, w) ensures p in Unreached(r, values) {
      assert !Reached(w, p.0, p.1);
      assert !Reached(values, p.0, p.1);
    }
    assert (n, g) in Unreached(r, values) && (n, g) !in Unreached(r, w);
  }

  /** A step either raises a value for good or consumes queued work. */
  lemma StepDecreases(r: Range, edges: Edges, st: State)
    requires st.queue.Node? && InRange(r, edges, st.values)
    ensures var t := Step(edges, st);
      InRange(r, edges, t.values) &&
      (Unreached(r, t.values) < Unreached(r, st.values)
       || (t.values == st.values && Weight(edges, t.queue) < Weight(edges, st.queue)))
  {
    hide Weight, Push, PopRest, Out, Unreached;
    PopWeight(edges, st.queue);
    var item, rest := st.queue.item, PopRest(st.queue);
    if Live(st.values, item) && item.edgeOffset < |Out(edges, item.nodeId)| {
      var e := Out(edges, item.nodeId)[item.edgeOffset];
      var next := Min(item.strength, e.strength);
      PushWeight(edges, rest, item.(edgeOffset := item.edgeOffset + 1));
      if !(e.to in st.values && next <= st.values[e.to]) {
        RaiseShrinks(r, st.values, e.to, next);
      }
    }
  }

  ghost function RangeOf(edges: Edges, values: map<Key, int>): Range
  {
    Range(values.Keys + (set u, i | u in edges && 0 <= i < |edges[u]| :: edges[u][i].to),
          values.Values + (set u, i | u in edges && 0 <= i < |edges[u]| :: edges[u][i].strength))
  }

  lemma RangeOfWorks(edges: Edges, values: map<Key, int>)
    ensures InRange(RangeOf(edges, values), edges, values)
  {
    var r := RangeOf(edges, values);
    forall u, i | 0 <= i < |Out(edges, u)|
      ensures Out(edges, u)[i].to in r.nodes && Out(edges, u)[i].strength in r.grades
    {
      assert u in edges && edges[u][i] == Out(edges, u)[i];
    }
    forall n | n in values ensures n in r.nodes && values[n] in r.grades {
      assert n in values.Keys && values[n] in values.Values;
    }
  }

  lemma {:induction false} CompletesWithin(r: Range, edges: Edges, st: State) returns (n: nat)
    requires InRange(r, edges, st.values)
    ensures Run(edges, st, n).queue.Empty?
    decreases Unreached(r, st.values), Weight(edges, st.queue)
  {
    hide Step, InRange, Unreached, Weight;
    if st.queue.Empty? {
      n := 0;
    } else {
      StepDecreases(r, edges, st);
      var m := CompletesWithin(r, edges, Step(edges, st));
      n := m + 1;
    }
  }

  /** Some number of steps empties the queue, whatever the graph, values and queue. */
  lemma Completes(edges: Edges, st: State) returns (n: nat)
    ensures Run(edges, st, n).queue.Empty?
  {
    RangeOfWorks(edges, st.values);
    n := CompletesWithin(RangeOf(edges, st.values), edges, st);
  }
}

/** The persistent leftist heap that holds the solver's frontier, largest strength first. */
module WorkQueue {
  import opened Keys

  /** `edgeOffset` is optional in the source and read as 0 when missing. */
  datatype WorkItem = WorkItem(nodeId: Key, strength: int, edgeOffset: nat)

  datatype Heap = Empty | Node(item: WorkItem, left: Heap, right: Heap, rank: nat, size: nat)

  function Rank(h: Heap): nat
  {
    if h.Empty? then 0 else h.rank
  }

  function Size(h: Heap): nat
  {
    if h.Empty? then 0 else h.size
  }

  /** Joins two parts under an item, the part of larger rank on the left. */
  function Join(item: WorkItem, a: Heap, b: Heap): Heap
  {
    var (left, right) := if Rank(a) < Rank(b) then (b, a) else (a, b);
    Node(item, left, right, 1 + Rank(right), 1 + Size(left) + Size(right))
  }

  function Merge(first: Heap, second: Heap): Heap
    decreases Nodes(first) + Nodes(second)
  {
    if first.Empty? then second
    else if second.Empty? then first
    else if first.item.strength < second.item.strength then
      Join(second.item, second.left, Merge(second.right, first))
    else
      Join(first.item, first.left, Merge(first.right, second))
  }

  function Push(h: Heap, item: WorkItem): Heap
  {
    Merge(h, Node(item, Empty, Empty, 1, 1))
  }

  function PopRest(h: Heap): Heap
    requires h.Node?
  {
    Merge(h.left, h.right)
  }

  // ---------- meaning and invariant ----------

  function Nodes(h: Heap): nat
  {
    if h.Empty? then 0 else 1 + Nodes(h.left) + Nodes(h.right)
  }

  ghost function Items(h: Heap): multiset<WorkItem>
  {
    if h.Empty? then multiset{} else multiset{h.item} + Items(h.left) + Items(h.right)
  }

  /** No stored item is stronger than `bound`. */
  ghost predicate AtMost(h: Heap, bound: int)
  {
    h.Node? ==> h.item.strength <= bound && AtMost(h.left, bound) && AtMost(h.right, bound)
  }

  /** Heap order, the leftist rank rule, and the cached rank and size. */
  ghost predicate Valid(h: Heap)
  {
    h.Node? ==>
      && Valid(h.left) && Valid(h.right)
      && AtMost(h.left, h.item.strength) && AtMost(h.right, h.item.strength)
      && Rank(h.right) <= Rank(h.left)
      && h.rank == 1 + Rank(h.right)
      && h.size == 1 + Size(h.left) + Size(h.right)
  }

  lemma {:induction false} AtMostWeaken(h: Heap, a: int, b: int)
    requires AtMost(h, a) && a <= b
    ensures AtMost(h, b)
  {
    if h.Node? {
      AtMostWeaken(h.left, a, b);
      AtMostWeaken(h.right, a, b);
    }
  }

  lemma {:induction false} AtMostItems(h: Heap, bound: int, item: WorkItem)
    requires AtMost(h, bound) && item in Items(h)
    ensures item.strength <= bound
  {
    if item in Items(h.left) {
      AtMostItems(h.left, bound, item);
    } else if item in Items(h.right) {
      AtMostItems(h.right, bound, item);
    }
  }

  lemma {:induction false} MergeAtMost(a: Heap, b: Heap, bound: int)
    requires AtMost(a, bound) && AtMost(b, bound)
    ensures AtMost(Merge(a, b), bound)
    decreases Nodes(a) + Nodes(b)
  {
    if a.Node? && b.Node? {
      if a.item.strength < b.item.strength {
        MergeAtMost(b.right, a, bound);
      } else {
        MergeAtMost(a.right, b, bound);
      }
    }
  }

  lemma {:induction false} MergeItems(a: Heap, b: Heap)
    ensures Items(Merge(a, b)) == Items(a) + Items(b)
    decreases Nodes(a) + Nodes(b)
  {
    hide Join, Items;
    ItemsUnfold(a);
    ItemsUnfold(b);
    if a.Empty? || b.Empty? {
    } else if a.item.strength < b.item.strength {
      MergeItems(b.right, a);
      JoinItems(b.item, b.left, Merge(b.right, a));
      Regroup(multiset{b.item}, Items(b.left), Items(b.right), Items(a));
    } else {
      MergeItems(a.right, b);
      JoinItems(a.item, a.left, Merge(a.right, b));
      Regroup(multiset{a.item}, Items(a.left), Items(a.right), Items(b));
    }
  }

  lemma ItemsUnfold(h: Heap)
    ensures Items(h) == if h.Empty? then multiset{} else multiset{h.item} + Items(h.left) + Items(h.right)
  {
  }

  lemma Regroup(x: multiset<WorkItem>, l: multiset<WorkItem>, r: multiset<WorkItem>, o: multiset<WorkItem>)
    ensures x + l + (r + o) == x + l + r + o == o + (x + l + r)
  {
  }

  lemma JoinItems(item: WorkItem, a: Heap, b: Heap)
    ensures Items(Join(item, a, b)) == multiset{item} + Items(a) + Items(b)
  {
  }

  lemma JoinValid(item: WorkItem, a: Heap, b: Heap)
    requires Valid(a) && Valid(b) && AtMost(a, item.strength) && AtMost(b, item.strength)
    ensures Valid(Join(item, a, b))
  {
  }

  /** Merging keeps every item, the heap order, the rank rule and the cached numbers. */
  lemma {:induction false} MergeValid(a: Heap, b: Heap)
    requires Valid(a) && Valid(b)
    ensures Valid(Merge(a, b))
    decreases Nodes(a) + Nodes(b)
  {
    if a.Node? && b.Node? {
      if a.item.strength < b.item.strength {
        MergeStep(b, a);
      } else {
        MergeStep(a, b);
      }
    }
  }

  lemma {:induction false} MergeStep(a: Heap, b: Heap)
    requires Valid(a) && Valid(b) && a.Node? && b.Node? && b.item.strength <= a.item.strength
    ensures Valid(Join(a.item, a.left, Merge(a.right, b)))
    decreases Nodes(a) + Nodes(b), 0
  {
    MergeValid(a.right, b);
    AtMostWeaken(b.left, b.item.strength, a.item.strength);
    AtMostWeaken(b.right, b.item.strength, a.item.strength);
    MergeAtMost(a.right, b, a.item.strength);
    JoinValid(a.item, a.left, Merge(a.right, b));
  }

  lemma {:induction false} SizeIsCount(h: Heap)
    requires Valid(h)
    ensures Size(h) == |Items(h)|
  {
    if h.Node? {
      SizeIsCount(h.left);
      SizeIsCount(h.right);
    }
  }

  /** `push` adds exactly the pushed item. */
  lemma PushRefines(h: Heap, item: WorkItem)
    requires Valid(h)
    ensures Valid(Push(h, item))
    ensures Items(Push(h, item)) == Items(h) + multiset{item}
  {
    hide Merge;
    var one := Node(item, Empty, Empty, 1, 1);
    MergeValid(h, one);
    MergeItems(h, one);
    assert Items(one) == multiset{item};
  }

  /** `pop` removes one item, and no stored item is stronger. */
  lemma PopRefines(h: Heap)
    requires Valid(h) && h.Node?
    ensures Valid(PopRest(h))
    ensures Items(h) == Items(PopRest(h)) + multiset{h.item}
    ensures forall item :: item in Items(h) ==> item.strength <= h.item.strength
  {
    hide Merge;
    MergeValid(h.left, h.right);
    MergeItems(h.left, h.right);
    forall item | item in Items(h) ensures item.strength <= h.item.strength {
      if item in Items(h.left) {
        AtMostItems(h.left, h.item.strength, item);
      } else if item in Items(h.right) {
        AtMostItems(h.right, h.item.strength, item);
      }
    }
  }

  function Pow2(n: nat): nat
  {
    if n == 0 then 1 else 2 * Pow2(n - 1)
  }

  lemma {:induction false} Pow2Monotone(a: nat, b: nat)
    requires a <= b
    ensures Pow2(a) <= Pow2(b)
    decreases b
  {
    if a < b { Pow2Monotone(a, b - 1); }
  }

  /** The leftist bound behind logarithmic merges: rank r needs at least 2^r - 1 items. */
  lemma {:induction false} RankBound(h: Heap)
    requires Valid(h)
    ensures Size(h) >= Pow2(Rank(h)) - 1
  {
    if h.Node? {
      RankBound(h.left);
      RankBound(h.right);
      Pow2Monotone(Rank(h.right), Rank(h.left));
    }
  }

  // ---------- the iterator ----------

  ghost function PendingItems(pending: seq<Heap>): multiset<WorkItem>
  {
    if pending == [] then multiset{}
    else PendingItems(pending[..|pending| - 1]) + Items(pending[|pending| - 1])
  }

  ghost function PendingNodes(pending: seq<Heap>): nat
  {
    if pending == [] then 0
    else PendingNodes(pending[..|pending| - 1]) + Nodes(pending[|pending| - 1])
  }

  lemma PendingPush(pending: seq<Heap>, h: Heap)
    ensures PendingItems(pending + [h]) == PendingItems(pending) + Items(h)
    ensures PendingNodes(pending + [h]) == PendingNodes(pending) + Nodes(h)
  {
    assert (pending + [h])[..|pending|] == pending;
  }

  function OrNothing(h: Heap): seq<Heap>
  {
    if h.Empty? then [] else [h]
  }

  lemma PendingPushPart(pending: seq<Heap>, h: Heap)
    ensures PendingItems(pending + OrNothing(h)) == PendingItems(pending) + Items(h)
    ensures PendingNodes(pending + OrNothing(h)) == PendingNodes(pending) + Nodes(h)
  {
    if h.Empty? { assert pending + OrNothing(h) == pending; } else { PendingPush(pending, h); }
  }

  /** Popping one node and pushing its parts accounts for its item exactly once. */
  lemma DrainStep(rest: seq<Heap>, current: Heap)
    requires current.Node?
    ensures var next := rest + OrNothing(current.left) + OrNothing(current.right);
      PendingItems(rest + [current]) == multiset{current.item} + PendingItems(next) &&
      PendingNodes(rest + [current]) == 1 + PendingNodes(next)
  {
    hide PendingItems, PendingNodes, OrNothing;
    PendingPush(rest, current);
    PendingPushPart(rest, current.left);
    PendingPushPart(rest + OrNothing(current.left), current.right);
  }

  /** All that is still to come, and what was yielded, are the items of the heap. */
  ghost predicate Draining(root: Heap, items: seq<WorkItem>, pending: seq<Heap>)
  {
    && (forall i :: 0 <= i < |pending| ==> pending[i].Node?)
    && multiset(items) + PendingItems(pending) == Items(root)
  }

  lemma DrainStarts(root: Heap)
    ensures Draining(root, [], OrNothing(root))
  {
    hide Items, PendingItems, PendingNodes;
    PendingPushPart([], root);
    NothingPending();
    assert [] + OrNothing(root) == OrNothing(root);
    assert multiset{} + Items(root) == Items(root);
  }

  lemma DrainOne(root: Heap, items: seq<WorkItem>, pending: seq<Heap>)
    requires Draining(root, items, pending) && pending != []
    ensures var rest, current := pending[..|pending| - 1], pending[|pending| - 1];
      var next := rest + OrNothing(current.left) + OrNothing(current.right);
      Draining(root, items + [current.item], next) && PendingNodes(next) < PendingNodes(pending)
  {
    hide Items, PendingItems, PendingNodes;
    var rest, current := pending[..|pending| - 1], pending[|pending| - 1];
    assert rest + [current] == pending;
    DrainStep(rest, current);
  }

  lemma DrainEnds(root: Heap, items: seq<WorkItem>)
    requires Draining(root, items, [])
    ensures multiset(items) == Items(root)
  {
    hide Items;
    assert multiset(items) + multiset{} == multiset(items);
  }

  /** The iteration order of the source: a node, then its right part, then its left part. */
  method Drain(root: Heap) returns (items: seq<WorkItem>)
    ensures multiset(items) == Items(root)
  {
    hide Items, PendingItems, PendingNodes, Draining;
    items := [];
    var pending: seq<Heap> := if root.Empty? then [] else [root];
    DrainStarts(root);
    while |pending| > 0
      invariant Draining(root, items, pending)
      decreases PendingNodes(pending)
    {
      DrainOne(root, items, pending);
      var current := pending[|pending| - 1];
      DrainNode(root, items, pending);
      ghost var rest := pending[..|pending| - 1];
      items := items + [current.item];
      pending := pending[..|pending| - 1];
      if current.left.Node? { pending := pending + [current.left]; }
      if current.right.Node? { pending := pending + [current.right]; }
      assert pending == rest + OrNothing(current.left) + OrNothing(current.right);
    }
    DrainEnds(root, items);
  }

  lemma DrainNode(root: Heap, items: seq<WorkItem>, pending: seq<Heap>)
    requires Draining(root, items, pending) && pending != []
    ensures pending[|pending| - 1].Node?
  {
  }

  lemma NothingPending()
    ensures PendingItems([]) == multiset{}
  {
  }
}

/** Tarjan's strongly connected component counter, with its mutable state kept in place.

    The proof works on snapshots of the state. `gray` (keys whose call is still running)
    and `sccs` (components already settled) exist only in the proof. */
module Tarjan {
  import opened Keys
  import opened Reachability

  datatype Snapshot = Snapshot(
    index: nat,
    componentCount: nat,
    stack: seq<Key>,
    onStack: set<Key>,
    indices: map<Key, nat>,
    lowLinks: map<Key, nat>,
    gray: set<Key>,
    sccs: set<set<Key>>,
    pushed: multiset<Key>,
    popped: multiset<Key>)

  function Min(a: nat, b: nat): nat
  {
    if a <= b then a else b
  }

  // ---------- the invariant ----------

  ghost predicate Maps(s: Snapshot)
  {
    && s.indices.Keys == s.lowLinks.Keys
    && (forall x :: x in s.indices ==> s.indices[x] < s.index)
    && s.gray <= s.onStack <= s.indices.Keys
  }

  /** `onStack` mirrors the stack, along which visit numbers grow. */
  ghost predicate Stacked(s: Snapshot)
  {
    && (forall i :: 0 <= i < |s.stack| ==> s.stack[i] in s.onStack && s.stack[i] in s.indices)
    && (forall x :: x in s.onStack ==> x in s.stack)
    && (forall i, j :: 0 <= i < j < |s.stack| ==> s.indices[s.stack[i]] < s.indices[s.stack[j]])
  }

  /** Every visited key was pushed once, and popped once unless it is still stacked. */
  ghost predicate Tally(s: Snapshot)
  {
    && s.componentCount == |s.sccs|
    && s.pushed == multiset(s.indices.Keys)
    && s.popped == multiset(s.indices.Keys - s.onStack)
  }

  ghost predicate IsClass(g: Graph, c: set<Key>)
  {
    && c != {}
    && forall x, y :: x in c ==> (y in c <==> Mutual(g, x, y))
  }

  ghost predicate Settled(s: Snapshot, x: Key)
  {
    x in s.indices && x !in s.onStack
  }

  ghost predicate InSome(sccs: set<set<Key>>, x: Key)
  {
    exists c :: c in sccs && x in c
  }

  /** The settled keys are exactly the union of `sccs`, each of which is one class. */
  ghost predicate Components(g: Graph, s: Snapshot)
  {
    && (forall c :: c in s.sccs ==> IsClass(g, c))
    && (forall x :: Settled(s, x) <==> InSome(s.sccs, x))
  }

  /** A finished key has no unvisited neighbour. */
  ghost predicate NoBlackToWhite(g: Graph, s: Snapshot)
  {
    forall x, y :: x in s.indices && x !in s.gray && Edge(g, x, y) ==> y in s.indices
  }

  ghost predicate Before(s: Snapshot, x: Key, y: Key)
  {
    x in s.onStack && y in s.onStack && x in s.indices && y in s.indices && s.indices[x] <= s.indices[y]
  }

  /** On the stack, an earlier key reaches every later one. */
  ghost predicate Chain(g: Graph, s: Snapshot)
  {
    forall x, y :: Before(s, x, y) ==> Reach(g, x, y)
  }

  ghost predicate Returns(g: Graph, s: Snapshot, y: Key, z: Key)
  {
    z in s.gray && Before(s, z, y) && Reach(g, y, z)
  }

  ghost predicate ReturnsSomewhere(g: Graph, s: Snapshot, y: Key)
  {
    exists z :: Returns(g, s, y, z)
  }

  /** Every stacked key reaches a running key that is no later than itself. */
  ghost predicate Back(g: Graph, s: Snapshot)
  {
    forall y :: y in s.onStack ==> ReturnsSomewhere(g, s, y)
  }

  ghost predicate Wf(g: Graph, s: Snapshot)
  {
    && Maps(s) && Stacked(s) && Tally(s)
    && Components(g, s) && NoBlackToWhite(g, s) && Chain(g, s) && Back(g, s)
  }

  /** What a step or a call may do to the state: it only visits more keys. */
  ghost predicate Grows(s: Snapshot, t: Snapshot)
  {
    && s.index <= t.index
    && s.stack <= t.stack
    && s.onStack <= t.onStack
    && (forall x :: x in t.onStack ==> x in s.onStack || x !in s.indices)
    && (forall x :: x in s.indices ==> x in t.indices && t.indices[x] == s.indices[x])
    && (forall x :: x in t.indices && x !in s.indices ==> s.index <= t.indices[x])
  }

  ghost predicate KeepsLows(s: Snapshot, t: Snapshot)
  {
    forall x :: x in s.lowLinks ==> x in t.lowLinks && t.lowLinks[x] == s.lowLinks[x]
  }

  ghost predicate HasNumber(s: Snapshot, y: Key, n: nat)
  {
    y in s.onStack && y in s.indices && s.indices[y] == n
  }

  /** `n` is the number of some stacked key that `x` reaches. */
  ghost predicate NumberReached(g: Graph, s: Snapshot, x: Key, n: nat)
  {
    exists y :: HasNumber(s, y, n) && Reach(g, x, y)
  }

  /** An edge from a key stacked since `s` (other than `but`) to a key on the stack of `s`. */
  ghost predicate Escapes(g: Graph, s: Snapshot, t: Snapshot, but: set<Key>, u: Key, y: Key)
  {
    u in t.onStack && u !in s.onStack && u !in but && y in s.onStack && y in s.indices && Edge(g, u, y)
  }

  ghost predicate Bounded(g: Graph, s: Snapshot, t: Snapshot, but: set<Key>, n: nat)
  {
    forall u, y :: Escapes(g, s, t, but, u, y) ==> n <= s.indices[y]
  }

  ghost predicate Access(g: Graph, s: Snapshot, x: Key)
  {
    forall z :: z in s.gray ==> Reach(g, z, x)
  }

  ghost predicate LowIs(t: Snapshot, x: Key, n: nat)
  {
    x in t.lowLinks && t.lowLinks[x] == n
  }

  ghost predicate IndexIs(t: Snapshot, x: Key, n: nat)
  {
    x in t.indices && t.indices[x] == n
  }

  /** What a completed call for `x`, started in `s`, guarantees about its final state `t`:
      `n` is the low link of `x`, `m` its number. */
  ghost predicate Called(g: Graph, s: Snapshot, t: Snapshot, x: Key, n: nat, m: nat)
  {
    && Wf(g, t) && Grows(s, t) && KeepsLows(s, t) && t.gray == s.gray
    && LowIs(t, x, n) && IndexIs(t, x, m) && n <= m && s.index <= m
    && (x in t.onStack ==> NumberReached(g, t, x, n))
    && (x !in t.onStack ==> n == m)
    && Bounded(g, s, t, {}, n)
  }

  ghost predicate Scanned(s: Snapshot, t: Snapshot, y: Key, n: nat)
  {
    && y in t.indices
    && (y in s.onStack && y in s.indices ==> n <= s.indices[y])
  }

  ghost predicate ScannedUpTo(g: Graph, s: Snapshot, t: Snapshot, x: Key, k: nat, n: nat)
  {
    forall j :: 0 <= j < k && j < |Neighbours(g, x)| ==> Scanned(s, t, Neighbours(g, x)[j], n)
  }

  /** The part of the loop invariant that does not mention low links. */
  ghost predicate Frame(g: Graph, s: Snapshot, t: Snapshot, x: Key)
  {
    && Grows(s, t) && KeepsLows(s, t) && t.gray == s.gray + {x} && x !in s.indices && x !in s.lowLinks
    && s.stack + [x] <= t.stack && x in t.onStack
    && Access(g, t, x) && IndexIs(t, x, s.index) && s.index < t.index
  }

  /** Loop invariant of the call for `x` started in `s`: `k` neighbours are done and the low
      link is `n`. */
  ghost predicate Running(g: Graph, s: Snapshot, t: Snapshot, x: Key, k: nat, n: nat)
  {
    && Wf(g, t) && Frame(g, s, t, x)
    && LowIs(t, x, n) && n <= s.index && NumberReached(g, t, x, n)
    && Bounded(g, s, t, {x}, n) && ScannedUpTo(g, s, t, x, k, n)
  }

  // ---------- pushing a key ----------

  ghost function Tracked(s: Snapshot, x: Key): Snapshot
  {
    s.(index := s.index + 1, stack := s.stack + [x], onStack := s.onStack + {x},
       indices := s.indices[x := s.index], lowLinks := s.lowLinks[x := s.index],
       gray := s.gray + {x}, pushed := s.pushed + multiset{x})
  }

  lemma StackReaches(g: Graph, s: Snapshot, x: Key, y: Key)
    requires Back(g, s) && Access(g, s, x) && y in s.onStack
    ensures Reach(g, y, x)
  {
    hide Reach;
    assert ReturnsSomewhere(g, s, y);
    var z :| Returns(g, s, y, z);
    ReachTrans(g, y, z, x);
  }

  lemma TrackedStacked(s: Snapshot, x: Key)
    requires Maps(s) && Stacked(s) && x !in s.indices
    ensures Stacked(Tracked(s, x))
  {
    var t := Tracked(s, x);
    forall i | 0 <= i < |t.stack|
      ensures t.stack[i] in t.onStack && t.stack[i] in t.indices
      ensures i < |s.stack| ==> t.stack[i] == s.stack[i] && t.indices[t.stack[i]] == s.indices[s.stack[i]] < s.index
    {
    }
  }

  lemma TrackedTally(s: Snapshot, x: Key)
    requires Maps(s) && Tally(s) && x !in s.indices
    ensures Tally(Tracked(s, x))
  {
    var t := Tracked(s, x);
    assert t.indices.Keys == s.indices.Keys + {x};
    assert t.indices.Keys - t.onStack == s.indices.Keys - s.onStack;
  }

  lemma TrackedComponents(g: Graph, s: Snapshot, x: Key)
    requires Maps(s) && Components(g, s) && x !in s.indices
    ensures Components(g, Tracked(s, x))
  {
    hide IsClass;
    hide InSome;
    var t := Tracked(s, x);
    forall y ensures Settled(t, y) <==> InSome(t.sccs, y) {
      assert Settled(t, y) <==> Settled(s, y);
    }
  }

  lemma TrackedChain(g: Graph, s: Snapshot, x: Key)
    requires Maps(s) && Chain(g, s) && Back(g, s) && Access(g, s, x) && x !in s.indices
    ensures Chain(g, Tracked(s, x))
  {
    hide Reach;
    var t := Tracked(s, x);
    forall y, z | Before(t, y, z)
      ensures Reach(g, y, z)
    {
      if z == x {
        if y == x { ReachRefl(g, x); } else { StackReaches(g, s, x, y); }
      } else {
        assert Before(s, y, z);
      }
    }
  }

  lemma TrackedBack(g: Graph, s: Snapshot, x: Key)
    requires Maps(s) && Back(g, s) && x !in s.indices
    ensures Back(g, Tracked(s, x))
  {
    hide Reach;
    var t := Tracked(s, x);
    forall y | y in t.onStack
      ensures ReturnsSomewhere(g, t, y)
    {
      if y == x {
        ReachRefl(g, x);
        assert Returns(g, t, x, x);
      } else {
        assert ReturnsSomewhere(g, s, y);
        var z :| Returns(g, s, y, z);
        assert Returns(g, t, y, z);
      }
    }
  }

  lemma TrackedFrame(g: Graph, s: Snapshot, x: Key)
    requires Maps(s) && x !in s.indices && Access(g, s, x)
    ensures Frame(g, s, Tracked(s, x), x) && Maps(Tracked(s, x))
  {
    hide Reach;
    ReachRefl(g, x);
    var t := Tracked(s, x);
    assert t.lowLinks.Keys == s.lowLinks.Keys + {x} == t.indices.Keys;
  }

  lemma TrackedEdges(g: Graph, s: Snapshot, x: Key)
    requires Maps(s) && NoBlackToWhite(g, s) && x !in s.indices
    ensures NoBlackToWhite(g, Tracked(s, x)) && Bounded(g, s, Tracked(s, x), {x}, s.index)
  {
    hide Edge;
  }

  lemma TrackStarts(g: Graph, s: Snapshot, x: Key)
    requires Wf(g, s) && x !in s.indices && Access(g, s, x)
    ensures Running(g, s, Tracked(s, x), x, 0, s.index)
  {
    hide Maps, Stacked, Tally, Components, Chain, Back, Frame, Reach, NoBlackToWhite, Bounded;
    var t := Tracked(s, x);
    TrackedStacked(s, x);
    TrackedTally(s, x);
    TrackedComponents(g, s, x);
    TrackedChain(g, s, x);
    TrackedBack(g, s, x);
    TrackedFrame(g, s, x);
    TrackedEdges(g, s, x);
    ReachRefl(g, x);
    assert HasNumber(t, x, s.index);
  }

  // ---------- lowering the link of a running key ----------

  ghost function Lowered(t: Snapshot, x: Key, n: nat): Snapshot
  {
    t.(lowLinks := t.lowLinks[x := n])
  }

  ghost predicate SameButLows(t: Snapshot, r: Snapshot)
  {
    r == t.(lowLinks := r.lowLinks)
  }

  lemma LowsOutsideComponents(g: Graph, t: Snapshot, r: Snapshot)
    requires SameButLows(t, r) && Components(g, t)
    ensures Components(g, r)
  {
    hide IsClass, InSome;
    forall y ensures Settled(r, y) <==> Settled(t, y) { }
  }

  lemma LowsOutsideChain(g: Graph, t: Snapshot, r: Snapshot)
    requires SameButLows(t, r) && Chain(g, t)
    ensures Chain(g, r)
  {
    hide Reach;
    forall y, z | Before(r, y, z) ensures Reach(g, y, z) { assert Before(t, y, z); }
  }

  lemma LowsOutsideBack(g: Graph, t: Snapshot, r: Snapshot)
    requires SameButLows(t, r) && Back(g, t)
    ensures Back(g, r)
  {
    hide Reach;
    forall y | y in r.onStack ensures ReturnsSomewhere(g, r, y) {
      assert ReturnsSomewhere(g, t, y);
      var z :| Returns(g, t, y, z);
      assert Returns(g, r, y, z);
    }
  }

  lemma LowsOutsideRest(g: Graph, t: Snapshot, r: Snapshot)
    requires SameButLows(t, r) && NoBlackToWhite(g, t) && Tally(t) && Stacked(t)
    ensures NoBlackToWhite(g, r) && Tally(r) && Stacked(r)
  {
    hide Edge;
  }

  /** Low links are not consulted by the rest of the invariant. */
  lemma LoweredWf(g: Graph, t: Snapshot, x: Key, n: nat)
    requires Wf(g, t) && x in t.indices
    ensures Wf(g, Lowered(t, x, n))
  {
    hide Stacked, Components, Chain, Back, NoBlackToWhite, Tally;
    var r := Lowered(t, x, n);
    LowsOutsideComponents(g, t, r);
    LowsOutsideChain(g, t, r);
    LowsOutsideBack(g, t, r);
    LowsOutsideRest(g, t, r);
    assert r.lowLinks.Keys == t.lowLinks.Keys;
  }

  lemma LoweredFrame(g: Graph, s: Snapshot, t: Snapshot, x: Key, n: nat)
    requires Frame(g, s, t, x)
    ensures Frame(g, s, Lowered(t, x, n), x)
  {
    hide Reach, Grows;
    var r := Lowered(t, x, n);
    assert Grows(s, r) by { assert Grows(s, t); GrowsIgnoresLows(s, t, r); }
  }

  lemma GrowsIgnoresLows(s: Snapshot, t: Snapshot, r: Snapshot)
    requires Grows(s, t) && r == t.(lowLinks := r.lowLinks)
    ensures Grows(s, r)
  {
  }

  lemma LowsOutsideBounds(g: Graph, s: Snapshot, t: Snapshot, r: Snapshot, x: Key, k: nat, l: nat)
    requires SameButLows(t, r)
    requires NumberReached(g, t, x, l) && Bounded(g, s, t, {x}, l) && ScannedUpTo(g, s, t, x, k, l)
    ensures NumberReached(g, r, x, l) && Bounded(g, s, r, {x}, l) && ScannedUpTo(g, s, r, x, k, l)
  {
    hide Reach, Neighbours, Edge;
    var y :| HasNumber(t, y, l) && Reach(g, x, y);
    assert HasNumber(r, y, l);
    forall u, y | Escapes(g, s, r, {x}, u, y) ensures l <= s.indices[y] {
      assert Escapes(g, s, t, {x}, u, y);
    }
    forall j | 0 <= j < k && j < |Neighbours(g, x)| ensures Scanned(s, r, Neighbours(g, x)[j], l) {
      assert Scanned(s, t, Neighbours(g, x)[j], l);
    }
  }

  /** Reassembles the loop invariant after the link of `x` becomes the smaller of `n` and `m`. */
  lemma LowerLink(g: Graph, s: Snapshot, t: Snapshot, x: Key, k: nat, n: nat, m: nat)
    requires Wf(g, t) && Frame(g, s, t, x) && LowIs(t, x, n) && n <= s.index && NumberReached(g, t, x, n)
    requires NumberReached(g, t, x, m) || n <= m
    requires var l := Min(n, m);
      Bounded(g, s, t, {x}, l) && ScannedUpTo(g, s, t, x, k, l)
    ensures var l := Min(n, m); Running(g, s, Lowered(t, x, l), x, k, l)
  {
    hide Wf, Grows, KeepsLows, Access, NumberReached, Bounded, ScannedUpTo;
    var l := Min(n, m);
    var r := Lowered(t, x, l);
    assert x in t.indices;
    LoweredWf(g, t, x, l);
    LoweredFrame(g, s, t, x, l);
    LowsOutsideBounds(g, s, t, r, x, k, l);
  }

  // ---------- the three ways to treat a neighbour ----------

  lemma ScanOneMore(g: Graph, s: Snapshot, t: Snapshot, x: Key, k: nat, n: nat, l: nat)
    requires k < |Neighbours(g, x)| && ScannedUpTo(g, s, t, x, k, n) && l <= n
    requires Scanned(s, t, Neighbours(g, x)[k], l)
    ensures ScannedUpTo(g, s, t, x, k + 1, l)
  {
    forall j | 0 <= j < k + 1 && j < |Neighbours(g, x)|
      ensures Scanned(s, t, Neighbours(g, x)[j], l)
    {
      if j < k { assert Scanned(s, t, Neighbours(g, x)[j], n); }
    }
  }

  /** A visited neighbour that is no longer stacked changes nothing. */
  lemma SettledNeighbour(g: Graph, s: Snapshot, t: Snapshot, x: Key, k: nat, n: nat)
    requires k < |Neighbours(g, x)| && Running(g, s, t, x, k, n)
    requires Neighbours(g, x)[k] in t.indices && Neighbours(g, x)[k] !in t.onStack
    ensures Running(g, s, t, x, k + 1, n)
  {
    hide Wf, Bounded, NumberReached, ScannedUpTo, Access, KeepsLows;
    assert Scanned(s, t, Neighbours(g, x)[k], n);
    ScanOneMore(g, s, t, x, k, n, n);
  }

  /** A stacked neighbour lowers the link to its number. */
  lemma StackedNeighbour(g: Graph, s: Snapshot, t: Snapshot, x: Key, k: nat, n: nat, m: nat)
    requires k < |Neighbours(g, x)| && Running(g, s, t, x, k, n)
    requires HasNumber(t, Neighbours(g, x)[k], m)
    ensures var l := Min(n, m); Running(g, s, Lowered(t, x, l), x, k + 1, l)
  {
    var y := Neighbours(g, x)[k];
    var l := Min(n, m);
    hide Wf, ScannedUpTo, Access, KeepsLows, Reach;
    assert NumberReached(g, t, x, m) by {
      hide Frame, Bounded, NumberReached;
      ReachEdge(g, x, y);
      assert HasNumber(t, y, m) && Reach(g, x, y);
      NumberReachedBy(g, t, x, y, m);
    }
    assert Scanned(s, t, y, l) by { hide Bounded, NumberReached; }
    assert Bounded(g, s, t, {x}, l) by { hide Frame, NumberReached; }
    hide Frame, Bounded, NumberReached;
    ScanOneMore(g, s, t, x, k, n, l);
    LowerLink(g, s, t, x, k + 1, n, m);
  }

  lemma NumberReachedBy(g: Graph, t: Snapshot, x: Key, y: Key, m: nat)
    requires HasNumber(t, y, m) && Reach(g, x, y)
    ensures NumberReached(g, t, x, m)
  {
  }

  lemma GrowsTrans(s: Snapshot, t: Snapshot, r: Snapshot)
    requires Maps(s) && Grows(s, t) && Grows(t, r) && KeepsLows(s, t) && KeepsLows(t, r)
    ensures Grows(s, r) && KeepsLows(s, r)
  {
  }

  lemma CallFrame(g: Graph, s: Snapshot, t: Snapshot, r: Snapshot, x: Key)
    requires Maps(s) && Frame(g, s, t, x) && Grows(t, r) && KeepsLows(t, r) && r.gray == t.gray
    ensures Frame(g, s, r, x)
  {
    GrowsTrans(s, t, r);
    hide KeepsLows, Reach, Maps;
  }

  lemma CallNumber(g: Graph, t: Snapshot, r: Snapshot, x: Key, n: nat)
    requires Grows(t, r) && NumberReached(g, t, x, n)
    ensures NumberReached(g, r, x, n)
  {
    hide Reach;
    var y :| HasNumber(t, y, n) && Reach(g, x, y);
    assert HasNumber(r, y, n);
  }

  /** Edges from the keys a call stacked respect the smaller of the two links. */
  lemma CallBounds(g: Graph, s: Snapshot, t: Snapshot, r: Snapshot, x: Key, n: nat, m: nat, l: nat)
    requires Grows(s, t) && Grows(t, r) && l <= n && l <= m
    requires Bounded(g, s, t, {x}, n) && Bounded(g, t, r, {}, m)
    ensures Bounded(g, s, r, {x}, l)
  {
    hide Edge;
    forall u, y | Escapes(g, s, r, {x}, u, y)
      ensures l <= s.indices[y]
    {
      if u in t.onStack {
        assert Escapes(g, s, t, {x}, u, y);
      } else {
        assert Escapes(g, t, r, {}, u, y);
      }
    }
  }

  lemma CallScanned(g: Graph, s: Snapshot, t: Snapshot, r: Snapshot, x: Key, k: nat, n: nat)
    requires Grows(t, r) && ScannedUpTo(g, s, t, x, k, n)
    ensures ScannedUpTo(g, s, r, x, k, n)
  {
    hide Neighbours;
    forall j | 0 <= j < k && j < |Neighbours(g, x)|
      ensures Scanned(s, r, Neighbours(g, x)[j], n)
    {
      assert Scanned(s, t, Neighbours(g, x)[j], n);
    }
  }

  lemma CallPoints(s: Snapshot, t: Snapshot, r: Snapshot, x: Key, y: Key, n: nat, m: nat)
    requires Grows(s, t) && KeepsLows(t, r) && LowIs(t, x, n)
    requires y !in t.indices && y in r.indices
    ensures LowIs(r, x, n) && Scanned(s, r, y, m)
  {
  }

  /** A neighbour visited by a recursive call lowers the link to that neighbour's link. */
  lemma VisitedNeighbour(g: Graph, s: Snapshot, t: Snapshot, r: Snapshot, x: Key, y: Key, k: nat, n: nat, m: nat,
                         i: nat)
    requires Maps(s) && k < |Neighbours(g, x)| && y == Neighbours(g, x)[k] && Edge(g, x, y)
    requires Running(g, s, t, x, k, n) && y !in t.indices && Called(g, t, r, y, m, i)
    ensures var l := Min(n, m);
      LowIs(r, x, n) && Running(g, s, Lowered(r, x, l), x, k + 1, l)
  {
    var l := Min(n, m);
    hide Wf, NumberReached, Bounded, ScannedUpTo, Access, Maps, Reach, Neighbours, Edge, Grows, KeepsLows;
    CallFrame(g, s, t, r, x);
    CallNumber(g, t, r, x, n);
    CallBounds(g, s, t, r, x, n, m, l);
    CallScanned(g, s, t, r, x, k, n);
    VisitedNumber(g, s, t, r, x, y, n, m, i);
    CallPoints(s, t, r, x, y, n, l);
    ScanOneMore(g, s, r, x, k, n, l);
    LowerLink(g, s, r, x, k + 1, n, m);
  }

  lemma VisitedNumber(g: Graph, s: Snapshot, t: Snapshot, r: Snapshot, x: Key, y: Key, n: nat, m: nat, i: nat)
    requires Edge(g, x, y) && n <= s.index < t.index && Called(g, t, r, y, m, i)
    ensures NumberReached(g, r, x, m) || n <= m
  {
    hide Reach, Wf, Grows, Bounded, KeepsLows;
    if y in r.onStack {
      var z :| HasNumber(r, z, m) && Reach(g, y, z);
      ReachEdge(g, x, y);
      ReachTrans(g, x, y, z);
    }
  }

  // ---------- a call ends without being a root ----------

  ghost predicate Done(g: Graph, s: Snapshot, t: Snapshot, x: Key, n: nat)
  {
    Maps(s) && Running(g, s, t, x, |Neighbours(g, x)|, n)
  }

  /** All neighbours of `x` are visited, and those on the caller's stack are numbered `n` or more. */
  lemma ScannedAll(g: Graph, s: Snapshot, t: Snapshot, x: Key, n: nat, y: Key)
    requires ScannedUpTo(g, s, t, x, |Neighbours(g, x)|, n) && Edge(g, x, y)
    ensures Scanned(s, t, y, n)
  {
    var j :| 0 <= j < |Neighbours(g, x)| && Neighbours(g, x)[j] == y;
    assert Scanned(s, t, Neighbours(g, x)[j], n);
  }

  lemma DoneEdges(g: Graph, s: Snapshot, t: Snapshot, x: Key, n: nat)
    requires NoBlackToWhite(g, t) && ScannedUpTo(g, s, t, x, |Neighbours(g, x)|, n) && Bounded(g, s, t, {x}, n)
    ensures forall u, y :: u in t.indices && (u == x || u !in t.gray) && Edge(g, u, y) ==> y in t.indices
    ensures Bounded(g, s, t, {}, n)
  {
    hide Edge, Neighbours, ScannedUpTo;
    forall u, y | u in t.indices && (u == x || u !in t.gray) && Edge(g, u, y)
      ensures y in t.indices
    {
      if u == x { ScannedAll(g, s, t, x, n, y); }
    }
    forall u, y | Escapes(g, s, t, {}, u, y)
      ensures n <= s.indices[y]
    {
      if u == x { ScannedAll(g, s, t, x, n, y); } else { assert Escapes(g, s, t, {x}, u, y); }
    }
  }

  ghost function Blackened(t: Snapshot, x: Key): Snapshot
  {
    t.(gray := t.gray - {x})
  }

  lemma BlackenedBack(g: Graph, t: Snapshot, x: Key, n: nat, m: nat)
    requires Back(g, t) && IndexIs(t, x, m) && n < m && NumberReached(g, t, x, n)
    ensures Back(g, Blackened(t, x))
  {
    hide Reach;
    var r := Blackened(t, x);
    var w :| HasNumber(t, w, n) && Reach(g, x, w);
    assert ReturnsSomewhere(g, t, w);
    var v :| Returns(g, t, w, v);
    forall y | y in r.onStack
      ensures ReturnsSomewhere(g, r, y)
    {
      assert ReturnsSomewhere(g, t, y);
      var z :| Returns(g, t, y, z);
      if z == x {
        ReachTrans(g, y, x, w);
        ReachTrans(g, y, w, v);
        assert Returns(g, r, y, v);
      } else {
        assert Returns(g, r, y, z);
      }
    }
  }

  lemma BlackenedRest(g: Graph, t: Snapshot, x: Key)
    requires Maps(t) && Stacked(t) && Tally(t) && Chain(g, t) && Components(g, t)
    ensures var r := Blackened(t, x); Maps(r) && Stacked(r) && Tally(r) && Chain(g, r) && Components(g, r)
  {
    hide Reach, IsClass, InSome;
    var r := Blackened(t, x);
    forall y, z | Before(r, y, z) ensures Reach(g, y, z) { assert Before(t, y, z); }
    forall y ensures Settled(r, y) <==> Settled(t, y) { }
  }

  /** A call whose link stayed below its number leaves its key stacked. */
  lemma FinishStacked(g: Graph, s: Snapshot, t: Snapshot, x: Key, n: nat)
    requires Done(g, s, t, x, n) && n < s.index
    ensures Called(g, s, Blackened(t, x), x, n, s.index)
  {
    var r := Blackened(t, x);
    hide Components, Chain, Back, NoBlackToWhite, Bounded, ScannedUpTo, Stacked, Tally, NumberReached, Access,
      Neighbours, Edge, Reach, Grows, KeepsLows;
    DoneEdges(g, s, t, x, n);
    BlackenedBack(g, t, x, n, s.index);
    BlackenedRest(g, t, x);
    BlackenedFrame(g, s, t, x, n);
    hide Maps;
  }

  lemma BlackenedFrame(g: Graph, s: Snapshot, t: Snapshot, x: Key, n: nat)
    requires Maps(s) && Frame(g, s, t, x) && NumberReached(g, t, x, n) && Bounded(g, s, t, {}, n)
    requires forall u, y :: u in t.indices && (u == x || u !in t.gray) && Edge(g, u, y) ==> y in t.indices
    ensures var r := Blackened(t, x);
      r.gray == s.gray && Grows(s, r) && KeepsLows(s, r) && NumberReached(g, r, x, n) && Bounded(g, s, r, {}, n) &&
      NoBlackToWhite(g, r)
  {
    hide Reach, Edge;
    var r := Blackened(t, x);
    assert r.gray == s.gray;
    var y :| HasNumber(t, y, n) && Reach(g, x, y);
    assert HasNumber(r, y, n);
    forall u, y | Escapes(g, s, r, {}, u, y) ensures n <= s.indices[y] { assert Escapes(g, s, t, {}, u, y); }
  }

  // ---------- a call ends as the root of a component ----------

  /** What is needed about the final state of the call for a root `x`. */
  ghost predicate Root(g: Graph, s: Snapshot, t: Snapshot, x: Key)
  {
    && Maps(s) && Maps(t) && Components(g, t) && Chain(g, t) && Back(g, t) && Access(g, t, x)
    && Grows(s, t) && IndexIs(t, x, s.index) && t.gray == s.gray + {x} && x in t.onStack && x !in s.indices
    && Bounded(g, s, t, {}, s.index)
    && (forall u, y :: u in t.indices && (u == x || u !in t.gray) && Edge(g, u, y) ==> y in t.indices)
  }

  ghost function Segment(s: Snapshot, t: Snapshot): set<Key>
  {
    t.onStack - s.onStack
  }

  lemma RootReaches(g: Graph, s: Snapshot, t: Snapshot, x: Key, y: Key)
    requires Root(g, s, t, x) && y in Segment(s, t)
    ensures Reach(g, x, y)
  {
    hide Components, Back, Access, Bounded, Edge, Reach;
    assert Before(t, x, y);
  }

  /** A walk that leaves the segment leaves it to a settled key. */
  lemma ExitIsSettled(g: Graph, s: Snapshot, t: Snapshot, x: Key, a: Key, b: Key)
    requires Root(g, s, t, x) && a in Segment(s, t) && b !in Segment(s, t) && Edge(g, a, b)
    ensures Settled(t, b)
  {
    hide Components, Chain, Back, Access, Edge;
    assert a in t.indices && (a == x || a !in t.gray);
    assert b in s.onStack ==> Escapes(g, s, t, {}, a, b);
  }

  lemma ClassAbsorbs(g: Graph, t: Snapshot, b: Key, z: Key)
    requires Components(g, t) && Settled(t, b) && Mutual(g, b, z)
    ensures Settled(t, z)
  {
    hide Mutual;
    assert InSome(t.sccs, b);
    var c :| c in t.sccs && b in c;
    assert IsClass(g, c);
    assert InSome(t.sccs, z);
  }

  /** No stacked key outside the segment is mutually reachable with a key of the segment. */
  lemma SegmentSeparate(g: Graph, s: Snapshot, t: Snapshot, x: Key, u: Key, z: Key)
    requires Root(g, s, t, x) && u in Segment(s, t) && Reach(g, u, z) && Reach(g, z, u)
    ensures z in Segment(s, t)
  {
    if z !in Segment(s, t) {
      var p :| IsWalk(g, p, u, z);
      hide IsWalk, Root, Edge;
      var a, b := Crossing(g, Segment(s, t), p, u, z);
      ExitIsSettled(g, s, t, x, a, b);
      ReturnNotSettled(g, s, t, x, u, a, b, z);
    }
  }

  lemma ReturnNotSettled(g: Graph, s: Snapshot, t: Snapshot, x: Key, u: Key, a: Key, b: Key, z: Key)
    requires Root(g, s, t, x) && u in Segment(s, t)
    requires Reach(g, z, u) && Reach(g, u, a) && Edge(g, a, b) && Reach(g, b, z)
    ensures !Settled(t, b)
  {
    hide Chain, Back, Access, Bounded, Edge, Reach, Components, Grows, Maps;
    ReachEdge(g, a, b);
    ReachTrans(g, u, a, b);
    ReachTrans(g, b, z, u);
    assert Mutual(g, b, u);
    if Settled(t, b) { ClassAbsorbs(g, t, b, u); }
  }

  lemma SegmentReturns(g: Graph, s: Snapshot, t: Snapshot, x: Key, y: Key)
    requires Root(g, s, t, x) && y in Segment(s, t)
    ensures Reach(g, y, x)
  {
    hide Components, Chain, Bounded, Edge, Reach;
    assert ReturnsSomewhere(g, t, y);
    var z :| Returns(g, t, y, z);
    if z != x {
      RootReaches(g, s, t, x, y);
      ReachTrans(g, z, x, y);
      assert z in s.onStack;
      hide Root;
      SegmentSeparate(g, s, t, x, y, z);
    }
  }

  lemma SegmentIsClass(g: Graph, s: Snapshot, t: Snapshot, x: Key)
    requires Root(g, s, t, x)
    ensures IsClass(g, Segment(s, t)) && x in Segment(s, t)
  {
    var c := Segment(s, t);
    hide Components, Chain, Back, Access, Bounded, Edge, Reach;
    assert x in c;
    hide Root, Segment;
    forall u, y | u in c
      ensures y in c <==> Mutual(g, u, y)
    {
      if y in c {
        SegmentMutual(g, s, t, x, u, y);
        SegmentMutual(g, s, t, x, y, u);
      } else if Mutual(g, u, y) {
        SegmentSeparate(g, s, t, x, u, y);
      }
    }
  }

  lemma SegmentMutual(g: Graph, s: Snapshot, t: Snapshot, x: Key, u: Key, y: Key)
    requires Root(g, s, t, x) && u in Segment(s, t) && y in Segment(s, t)
    ensures Reach(g, u, y)
  {
    hide Root, Reach;
    SegmentReturns(g, s, t, x, u);
    RootReaches(g, s, t, x, y);
    ReachTrans(g, u, x, y);
  }

  ghost function SettledOff(s: Snapshot, t: Snapshot): Snapshot
  {
    t.(stack := s.stack, onStack := s.onStack, gray := s.gray, componentCount := t.componentCount + 1,
       sccs := t.sccs + {Segment(s, t)}, popped := t.popped + multiset(Segment(s, t)))
  }

  lemma SettledOffComponents(g: Graph, s: Snapshot, t: Snapshot)
    requires Grows(s, t) && Components(g, t) && IsClass(g, Segment(s, t)) && Maps(t)
    ensures Components(g, SettledOff(s, t))
  {
    hide IsClass;
    var r := SettledOff(s, t);
    var c := Segment(s, t);
    forall y ensures Settled(r, y) <==> InSome(r.sccs, y) {
      assert Settled(r, y) <==> Settled(t, y) || y in c;
      assert Settled(t, y) <==> InSome(t.sccs, y);
      if InSome(r.sccs, y) {
        var d :| d in r.sccs && y in d;
        if d in t.sccs { assert InSome(t.sccs, y); }
      }
      if InSome(t.sccs, y) {
        var d :| d in t.sccs && y in d;
        assert d in r.sccs;
      }
      if y in c { assert c in r.sccs; }
    }
  }

  lemma SettledOffTally(g: Graph, s: Snapshot, t: Snapshot, x: Key)
    requires Grows(s, t) && Maps(t) && Tally(t) && Components(g, t) && x in Segment(s, t)
    ensures Tally(SettledOff(s, t))
  {
    hide IsClass;
    var r := SettledOff(s, t);
    var c := Segment(s, t);
    assert c in t.sccs ==> InSome(t.sccs, x);
    assert r.indices.Keys - r.onStack == (t.indices.Keys - t.onStack) + c;
  }

  lemma SettledOffStack(g: Graph, s: Snapshot, t: Snapshot)
    requires Grows(s, t) && Maps(s) && Maps(t) && Stacked(s) && Chain(g, s) && Back(g, s)
    ensures var r := SettledOff(s, t); Maps(r) && Stacked(r) && Chain(g, r) && Back(g, r)
  {
    hide Reach;
    var r := SettledOff(s, t);
    forall y, z | Before(r, y, z) ensures Reach(g, y, z) { assert Before(s, y, z); }
    forall y | y in r.onStack ensures ReturnsSomewhere(g, r, y) {
      assert ReturnsSomewhere(g, s, y);
      var z :| Returns(g, s, y, z);
      assert Returns(g, r, y, z);
    }
    assert Stacked(r) by {
      forall i | 0 <= i < |r.stack| ensures r.indices[r.stack[i]] == s.indices[s.stack[i]] { }
    }
  }

  lemma SettledOffFrame(g: Graph, s: Snapshot, t: Snapshot, x: Key)
    requires Maps(s) && Grows(s, t) && KeepsLows(s, t) && t.gray == s.gray + {x}
    requires forall u, y :: u in t.indices && (u == x || u !in t.gray) && Edge(g, u, y) ==> y in t.indices
    ensures var r := SettledOff(s, t);
      Grows(s, r) && KeepsLows(s, r) && NoBlackToWhite(g, r) && Bounded(g, s, r, {}, s.index)
  {
    hide Edge;
  }

  lemma DoneRoot(g: Graph, s: Snapshot, t: Snapshot, x: Key)
    requires Done(g, s, t, x, s.index)
    ensures Root(g, s, t, x)
  {
    hide Components, Chain, Back, NoBlackToWhite, Bounded, ScannedUpTo, Stacked, Tally, NumberReached, Access,
      Neighbours, Edge, Reach, Grows, KeepsLows, Maps;
    DoneEdges(g, s, t, x, s.index);
  }

  /** A call whose link equals its number settles exactly one new component. */
  lemma FinishRoot(g: Graph, s: Snapshot, t: Snapshot, x: Key)
    requires Wf(g, s) && Done(g, s, t, x, s.index)
    ensures Called(g, s, SettledOff(s, t), x, s.index, s.index)
  {
    hide Components, Chain, Back, NoBlackToWhite, Bounded, ScannedUpTo, Stacked, Tally, NumberReached, Access,
      Neighbours, Edge, Reach, Grows, KeepsLows, IsClass;
    DoneRoot(g, s, t, x);
    SegmentIsClass(g, s, t, x);
    SettledOffComponents(g, s, t);
    SettledOffTally(g, s, t, x);
    SettledOffStack(g, s, t);
    SettledOffFrame(g, s, t, x);
  }

  // ---------- the whole count ----------

  ghost predicate Closed(g: Graph, u: set<Key>)
  {
    forall x, y :: x in u && Edge(g, x, y) ==> y in u
  }

  lemma ReachableIsClosed(g: Graph, roots: seq<Key>)
    ensures Closed(g, Reachable(g, roots))
    ensures forall r :: r in roots ==> r in Reachable(g, roots)
  {
    hide Edge, Reach, Reachable;
    forall x, y | x in Reachable(g, roots) && Edge(g, x, y)
      ensures y in Reachable(g, roots)
    {
      ReachEdge(g, x, y);
      ReachableClosed(g, roots, x, y);
    }
    forall r | r in roots
      ensures r in Reachable(g, roots)
    {
      ReachRefl(g, r);
      ReachableExact(g, roots, r);
    }
  }

  /** With no call running the stack is empty. */
  lemma RestStackEmpty(g: Graph, s: Snapshot)
    requires Back(g, s) && s.gray == {}
    ensures s.onStack == {}
  {
    hide Reach;
    forall y ensures y !in s.onStack { assert y in s.onStack ==> ReturnsSomewhere(g, s, y); }
  }

  lemma RestVisits(g: Graph, s: Snapshot, r: Key, x: Key)
    requires NoBlackToWhite(g, s) && s.gray == {} && r in s.indices && Reach(g, r, x)
    ensures x in s.indices
  {
    hide IsWalk, Edge;
    if x !in s.indices {
      var p :| IsWalk(g, p, r, x);
      var u, v := Crossing(g, s.indices.Keys, p, r, x);
    }
  }

  lemma RestVisitsAll(g: Graph, roots: seq<Key>, s: Snapshot)
    requires NoBlackToWhite(g, s) && s.gray == {} && s.indices.Keys <= Reachable(g, roots)
    requires forall r :: r in roots ==> r in s.indices
    ensures s.indices.Keys == Reachable(g, roots)
  {
    hide NoBlackToWhite, Reachable, Reach;
    forall x | x in Reachable(g, roots)
      ensures x in s.indices
    {
      ReachableExact(g, roots, x);
      var r :| r in roots && Reach(g, r, x);
      RestVisits(g, s, r, x);
    }
  }

  lemma ClassIsClassOf(g: Graph, roots: seq<Key>, s: Snapshot, c: set<Key>, x: Key)
    requires Components(g, s) && s.indices.Keys == Reachable(g, roots) && c in s.sccs && x in c
    ensures c == ClassOf(g, roots, x)
  {
    hide Mutual, Reachable;
    assert IsClass(g, c);
    forall y | y in c ensures y in s.indices { assert InSome(s.sccs, y); assert Settled(s, y); }
  }

  /** The settled components of a state at rest are exactly the mutual-reachability classes. */
  lemma RestCounts(g: Graph, roots: seq<Key>, s: Snapshot)
    requires Wf(g, s) && s.gray == {} && s.indices.Keys <= Reachable(g, roots)
    requires forall r :: r in roots ==> r in s.indices
    ensures s.sccs == Classes(g, roots)
    ensures s.pushed == s.popped == multiset(Reachable(g, roots))
  {
    hide Reachable, ClassOf, Chain, Stacked, Reach, NoBlackToWhite, Back, Edge;
    RestStackEmpty(g, s);
    RestVisitsAll(g, roots, s);
    forall c | c in s.sccs
      ensures c in Classes(g, roots)
    {
      assert IsClass(g, c);
      var x :| x in c;
      assert InSome(s.sccs, x) && Settled(s, x);
      ClassIsClassOf(g, roots, s, c, x);
    }
    forall c | c in Classes(g, roots)
      ensures c in s.sccs
    {
      var x :| x in Reachable(g, roots) && c == ClassOf(g, roots, x);
      assert Settled(s, x) && InSome(s.sccs, x);
      var d :| d in s.sccs && x in d;
      ClassIsClassOf(g, roots, s, d, x);
    }
    assert s.indices.Keys - s.onStack == Reachable(g, roots);
  }

  // ---------- the program ----------

  const EMPTY: Snapshot := Snapshot(0, 0, [], {}, map[], map[], {}, {}, multiset{}, multiset{})

  class TarjanState {
    var index: nat
    var componentCount: nat
    var stack: seq<Key>
    var onStack: set<Key>
    var indices: map<Key, nat>
    var lowLinks: map<Key, nat>
    ghost var gray: set<Key>
    ghost var sccs: set<set<Key>>
    ghost var pushed: multiset<Key>
    ghost var popped: multiset<Key>

    ghost function Snap(): Snapshot
      reads this
    {
      Snapshot(index, componentCount, stack, onStack, indices, lowLinks, gray, sccs, pushed, popped)
    }

    constructor ()
      ensures Snap() == EMPTY
    {
      index, componentCount, stack, onStack, indices, lowLinks := 0, 0, [], {}, map[], map[];
      gray, sccs, pushed, popped := {}, {}, multiset{}, multiset{};
    }

    method TrackNode(nodeKey: Key)
      modifies this
      ensures Snap() == Tracked(old(Snap()), nodeKey)
    {
      indices := indices[nodeKey := index];
      lowLinks := lowLinks[nodeKey := index];
      index := index + 1;
      stack := stack + [nodeKey];
      onStack := onStack + {nodeKey};
      gray, pushed := gray + {nodeKey}, pushed + multiset{nodeKey};
    }

    /** Pops down to `nodeKey`, which sits at position `depth`. */
    method SettleComponent(nodeKey: Key, ghost depth: nat)
      requires Stacked(Snap()) && depth < |stack| && stack[depth] == nodeKey
      modifies `componentCount, `stack, `onStack, `popped
      ensures var p := PoppedTo(old(Snap()), depth);
        componentCount == p.componentCount && stack == p.stack && onStack == p.onStack && popped == p.popped
    {
      hide Stacked, PoppedTo;
      ghost var t := Snap();
      componentCount := componentCount + 1;
      PoppedNone(t);
      while |stack| > 0
        invariant depth < |stack| <= |t.stack|
        invariant var p := PoppedTo(t, |stack|);
          componentCount == p.componentCount && stack == p.stack && onStack == p.onStack && popped == p.popped
      {
        var candidate := stack[|stack| - 1];
        PopStep(t, |stack|);
        stack := stack[..|stack| - 1];
        onStack := onStack - {candidate};
        popped := popped + multiset{candidate};
        if candidate == nodeKey {
          DistinctAt(t, depth, |stack|);
          return;
        }
      }
    }

    /** One call per key. `u` is any finite set closed under neighbours; it bounds the recursion. */
    method StrongConnect(nodeKey: Key, g: Graph, ghost u: set<Key>)
      requires Wf(g, Snap()) && nodeKey !in indices && Access(g, Snap(), nodeKey)
      requires Closed(g, u) && nodeKey in u && indices.Keys <= u
      modifies this
      ensures nodeKey in lowLinks && nodeKey in indices
      ensures Called(g, old(Snap()), Snap(), nodeKey, lowLinks[nodeKey], indices[nodeKey])
      ensures indices.Keys <= u
      decreases u - indices.Keys
    {
      hide Wf, Grows, KeepsLows, NumberReached, Bounded, ScannedUpTo, Access, Neighbours, Edge, Reach, Closed, Maps,
        Stacked, SettledOff, PoppedTo, Segment;
      ghost var s := Snap();
      TrackStarts(g, s, nodeKey);
      TrackNode(nodeKey);
      assert indices.Keys == s.indices.Keys + {nodeKey};
      var neighbours := Neighbours(g, nodeKey);
      for k := 0 to |neighbours|
        invariant nodeKey in lowLinks && Running(g, s, Snap(), nodeKey, k, lowLinks[nodeKey])
        invariant indices.Keys <= u
      {
        var neighbour := neighbours[k];
        ghost var t := Snap();
        ghost var n := lowLinks[nodeKey];
        NeighbourInside(g, u, nodeKey, k);
        if neighbour !in indices {
          CallReady(g, s, t, nodeKey, neighbour);
          StrongConnect(neighbour, g, u);
          VisitedNeighbour(g, s, t, Snap(), nodeKey, neighbour, k, n, lowLinks[neighbour], indices[neighbour]);
          lowLinks := lowLinks[nodeKey := Min(lowLinks[nodeKey], lowLinks[neighbour])];
        } else if neighbour in onStack {
          StackedNeighbour(g, s, t, nodeKey, k, n, indices[neighbour]);
          lowLinks := lowLinks[nodeKey := Min(lowLinks[nodeKey], indices[neighbour])];
        } else {
          SettledNeighbour(g, s, t, nodeKey, k, n);
        }
      }
      EndReady(g, s, Snap(), nodeKey);
      EndCall(nodeKey, g, s);
    }

    /** The end of the call started in `s`: the component is settled if `nodeKey` is its root. */
    method EndCall(nodeKey: Key, g: Graph, ghost s: Snapshot)
      requires Wf(g, s) && nodeKey in lowLinks && Done(g, s, Snap(), nodeKey, lowLinks[nodeKey])
      modifies this
      ensures nodeKey in lowLinks && nodeKey in indices && indices == old(indices)
      ensures Called(g, s, Snap(), nodeKey, lowLinks[nodeKey], indices[nodeKey])
    {
      hide Wf, Grows, KeepsLows, NumberReached, Bounded, ScannedUpTo, Access, Neighbours, Edge, Reach, Maps, Stacked,
        SettledOff, PoppedTo, Segment;
      ghost var t := Snap();
      EndReady(g, s, t, nodeKey);
      if lowLinks[nodeKey] == indices[nodeKey] {
        FinishRoot(g, s, t, nodeKey);
        PoppedSegment(s, t);
        SettleComponent(nodeKey, |s.stack|);
        gray, sccs := s.gray, sccs + {Segment(s, t)};
      } else {
        FinishStacked(g, s, t, nodeKey, lowLinks[nodeKey]);
        gray := gray - {nodeKey};
      }
    }
  }

  lemma NeighbourInside(g: Graph, u: set<Key>, x: Key, k: nat)
    requires k < |Neighbours(g, x)| && x in u && Closed(g, u)
    ensures Neighbours(g, x)[k] in u && Edge(g, x, Neighbours(g, x)[k])
  {
  }

  /** What the recursive call on a neighbour needs. */
  lemma CallReady(g: Graph, s: Snapshot, t: Snapshot, x: Key, y: Key)
    requires Wf(g, s) && Grows(s, t) && IndexIs(t, x, s.index) && Access(g, t, x) && Edge(g, x, y)
    ensures Access(g, t, y) && Maps(s) && s.indices.Keys <= t.indices.Keys
  {
    hide Reach, Edge, Chain, Components, Stacked, Tally, Back, NoBlackToWhite;
    ReachEdge(g, x, y);
    forall z | z in t.gray ensures Reach(g, z, y) { ReachTrans(g, z, x, y); }
  }

  lemma EndReady(g: Graph, s: Snapshot, t: Snapshot, x: Key)
    requires Wf(g, s) && Wf(g, t) && Grows(s, t)
    ensures Maps(s) && Stacked(s) && Stacked(t) && s.onStack <= t.onStack
  {
    hide Maps, Stacked, Chain, Components, Tally, Back, NoBlackToWhite;
  }

  lemma EmptyWf(g: Graph)
    ensures Wf(g, EMPTY)
  {
    assert forall x :: !InSome({}, x);
    assert multiset(EMPTY.indices.Keys) == multiset{};
  }

  /** Counts the strongly connected components of what is reachable from `nodeKeys`; the ghost
      results record which keys were pushed and popped, with multiplicity. */
  method CountStronglyConnectedComponents(nodeKeys: seq<Key>, g: Graph)
    returns (count: nat, ghost pushed: multiset<Key>, ghost popped: multiset<Key>)
    ensures count == |Classes(g, nodeKeys)|
    ensures pushed == popped == multiset(Reachable(g, nodeKeys))
  {
    hide Wf, Reachable, Classes, Closed, Neighbours, Edge, Reach, Grows, KeepsLows, NumberReached, Bounded;
    var state := new TarjanState();
    EmptyWf(g);
    ReachableIsClosed(g, nodeKeys);
    for i := 0 to |nodeKeys|
      invariant Wf(g, state.Snap()) && state.gray == {} && state.indices.Keys <= Reachable(g, nodeKeys)
      invariant forall j :: 0 <= j < i ==> nodeKeys[j] in state.indices
    {
      if nodeKeys[i] !in state.indices {
        ghost var s := state.Snap();
        state.StrongConnect(nodeKeys[i], g, Reachable(g, nodeKeys));
        CallVisits(s, state.Snap());
      }
    }
    RestCounts(g, nodeKeys, state.Snap());
    WfCount(g, state.Snap());
    count, pushed, popped := state.componentCount, state.pushed, state.popped;
  }

  lemma CallVisits(s: Snapshot, t: Snapshot)
    requires Grows(s, t)
    ensures s.indices.Keys <= t.indices.Keys
  {
  }

  lemma WfCount(g: Graph, s: Snapshot)
    requires Wf(g, s)
    ensures s.componentCount == |s.sccs|
  {
  }

  ghost function Elements(q: seq<Key>): set<Key>
  {
    set x | x in q
  }

  /** The state of the popping loop when `n` entries are left. */
  ghost function PoppedTo(t: Snapshot, n: nat): Snapshot
    requires n <= |t.stack|
  {
    t.(componentCount := t.componentCount + 1, stack := t.stack[..n], onStack := t.onStack - Elements(t.stack[n..]),
       popped := t.popped + multiset(t.stack[n..]))
  }

  lemma PoppedNone(t: Snapshot)
    ensures var p := PoppedTo(t, |t.stack|);
      p.componentCount == t.componentCount + 1 && p.stack == t.stack && p.onStack == t.onStack && p.popped == t.popped
  {
    assert t.stack[..|t.stack|] == t.stack && t.stack[|t.stack|..] == [];
    assert t.onStack - Elements([]) == t.onStack;
  }

  lemma PopStep(t: Snapshot, n: nat)
    requires 0 < n <= |t.stack|
    ensures PoppedTo(t, n).stack == t.stack[..n]
    ensures var c := t.stack[n - 1]; var p := PoppedTo(t, n);
      var q := PoppedTo(t, n - 1);
      p.stack[n - 1] == c && q.componentCount == p.componentCount &&
      q.stack == p.stack[..n - 1] && q.onStack == p.onStack - {c} && q.popped == p.popped + multiset{c}
  {
    var c := t.stack[n - 1];
    assert t.stack[n - 1..] == [c] + t.stack[n..];
    assert Elements(t.stack[n - 1..]) == {c} + Elements(t.stack[n..]);
    assert t.onStack - Elements(t.stack[n - 1..]) == t.onStack - Elements(t.stack[n..]) - {c};
    assert t.stack[..n][..n - 1] == t.stack[..n - 1];
  }

  lemma DistinctAt(t: Snapshot, i: nat, j: nat)
    requires Stacked(t) && i <= j < |t.stack| && t.stack[i] == t.stack[j]
    ensures i == j
  {
  }

  lemma {:induction false} DistinctMultiset(q: seq<Key>)
    requires forall i, j :: 0 <= i < j < |q| ==> q[i] != q[j]
    ensures multiset(q) == multiset(Elements(q))
  {
    if q != [] {
      DistinctMultiset(q[1..]);
      assert q == [q[0]] + q[1..];
      assert Elements(q) == {q[0]} + Elements(q[1..]);
      assert q[0] !in Elements(q[1..]);
    }
  }

  lemma PoppedSegment(s: Snapshot, t: Snapshot)
    requires Stacked(s) && Stacked(t) && s.stack <= t.stack && s.onStack <= t.onStack
    ensures var p := PoppedTo(t, |s.stack|);
      SettledOff(s, t) == t.(componentCount := p.componentCount, stack := p.stack, onStack := p.onStack,
        popped := p.popped, gray := s.gray, sccs := t.sccs + {Segment(s, t)})
  {
    var n := |s.stack|;
    var q := t.stack[n..];
    forall i, j | 0 <= i < j < |q| ensures q[i] != q[j] {
      assert q[i] == t.stack[n + i] && q[j] == t.stack[n + j];
    }
    DistinctMultiset(q);
    SegmentElements(s, t);
    hide Stacked, Elements;
    assert t.stack[..n] == s.stack;
  }

  lemma SegmentElements(s: Snapshot, t: Snapshot)
    requires Stacked(s) && Stacked(t) && s.stack <= t.stack && s.onStack <= t.onStack
    ensures Elements(t.stack[|s.stack|..]) == Segment(s, t) && t.onStack - Segment(s, t) == s.onStack
  {
    var n := |s.stack|;
    forall x
      ensures x in Elements(t.stack[n..]) <==> x in Segment(s, t)
    {
      SegmentElement(s, t, x);
    }
    hide Stacked, Elements;
  }

  lemma SegmentElement(s: Snapshot, t: Snapshot, x: Key)
    requires Stacked(s) && Stacked(t) && s.stack <= t.stack && s.onStack <= t.onStack
    ensures x in Elements(t.stack[|s.stack|..]) <==> x in Segment(s, t)
  {
    var n := |s.stack|;
    assert t.stack[..n] == s.stack;
    if x in Segment(s, t) {
      var i :| 0 <= i < |t.stack| && t.stack[i] == x;
      assert i >= n ==> t.stack[n..][i - n] == x;
    }
    if x in Elements(t.stack[n..]) {
      var i :| 0 <= i < |t.stack[n..]| && t.stack[n..][i] == x;
      assert t.stack[n + i] == x;
    }
  }
}

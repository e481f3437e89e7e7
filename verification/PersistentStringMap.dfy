/** The immutable AVL index: insertion by rebuilding, with cached heights and sizes. */
module PersistentStringMap {
  import opened Options
  import opened Keys

  datatype Tree<+V> =
    | Leaf
    | Node(key: Key, value: V, left: Tree<V>, right: Tree<V>, height: nat, size: nat)

  function Height<V>(t: Tree<V>): nat
  {
    if t.Leaf? then 0 else t.height
  }

  function Size<V>(t: Tree<V>): nat
  {
    if t.Leaf? then 0 else t.size
  }

  function Max(a: nat, b: nat): nat
  {
    if a >= b then a else b
  }

  /** Cached heights are right. */
  ghost predicate Heights<V>(t: Tree<V>)
  {
    t.Node? ==>
      && t.height == 1 + Max(Height(t.left), Height(t.right))
      && Heights(t.left) && Heights(t.right)
  }

  function Make<V>(key: Key, value: V, left: Tree<V>, right: Tree<V>): (r: Tree<V>)
    ensures Heights(left) && Heights(right) ==> Heights(r)
  {
    Node(key, value, left, right, 1 + Max(Height(left), Height(right)), 1 + Size(left) + Size(right))
  }

  function RotateLeft<V>(root: Tree<V>): (r: Tree<V>)
    requires root.Node? && root.right.Node?
    ensures Heights(root) ==> Heights(r)
  {
    var next := root.right;
    assert Heights(root) ==> Heights(next) && (Heights(next) ==> Heights(next.left) && Heights(next.right));
    Make(next.key, next.value, Make(root.key, root.value, root.left, next.left), next.right)
  }

  function RotateRight<V>(root: Tree<V>): (r: Tree<V>)
    requires root.Node? && root.left.Node?
    ensures Heights(root) ==> Heights(r)
  {
    var next := root.left;
    assert Heights(root) ==> Heights(next) && (Heights(next) ==> Heights(next.left) && Heights(next.right));
    Make(next.key, next.value, next.left, Make(root.key, root.value, next.right, root.right))
  }

  /** The rebalancing at the end of an insertion. Where a tree is two levels out of balance, the
      children that the rotations read are there. */
  function Rebalance<V>(next: Tree<V>): (r: Tree<V>)
    requires next.Node? && Heights(next)
    ensures r.Node? && Heights(r)
  {
    if Height(next.left) > Height(next.right) + 1 then
      var left := next.left;
      if Height(left.left) >= Height(left.right) then RotateRight(next)
      else RotateRight(Make(next.key, next.value, RotateLeft(left), next.right))
    else if Height(next.right) > Height(next.left) + 1 then
      var right := next.right;
      if Height(right.right) >= Height(right.left) then RotateLeft(next)
      else RotateLeft(Make(next.key, next.value, next.left, RotateRight(right)))
    else next
  }

  function Insert<V(==)>(t: Tree<V>, key: Key, value: V): (r: Tree<V>)
    requires Heights(t)
    ensures r.Node? && Heights(r)
  {
    if t.Leaf? then Make(key, value, Leaf, Leaf)
    else if key == t.key then
      if value == t.value then t else Make(key, value, t.left, t.right)
    else if Less(key, t.key) then
      Rebalance(Make(t.key, t.value, Insert(t.left, key, value), t.right))
    else
      Rebalance(Make(t.key, t.value, t.left, Insert(t.right, key, value)))
  }

  // ---------- meaning and invariant ----------

  /** Sibling heights differ by at most one. */
  ghost predicate Balanced<V>(t: Tree<V>)
  {
    t.Node? ==>
      && Height(t.left) <= Height(t.right) + 1 && Height(t.right) <= Height(t.left) + 1
      && Balanced(t.left) && Balanced(t.right)
  }

  ghost predicate Sizes<V>(t: Tree<V>)
  {
    t.Node? ==> t.size == 1 + Size(t.left) + Size(t.right) && Sizes(t.left) && Sizes(t.right)
  }

  /** The entries in traversal order. */
  function Entries<V>(t: Tree<V>): seq<(Key, V)>
  {
    if t.Leaf? then [] else Entries(t.left) + [(t.key, t.value)] + Entries(t.right)
  }

  ghost predicate Sorted<V>(s: seq<(Key, V)>)
  {
    forall i, j :: 0 <= i < j < |s| ==> Less(s[i].0, s[j].0)
  }

  /** The invariant of every tree the source builds. */
  ghost predicate Valid<V>(t: Tree<V>)
  {
    Heights(t) && Balanced(t) && Sizes(t) && Sorted(Entries(t))
  }

  /** The mathematical map denoted by a list of entries. */
  ghost function MapOf<V>(s: seq<(Key, V)>): map<Key, V>
  {
    if s == [] then map[] else MapOf(s[1..])[s[0].0 := s[0].1]
  }

  ghost function Contents<V>(t: Tree<V>): map<Key, V>
  {
    MapOf(Entries(t))
  }

  // ---------- sorted lists of entries ----------

  /** Insertion into a sorted list: what `Insert` does to the entries. */
  ghost function Put<V>(s: seq<(Key, V)>, key: Key, value: V): seq<(Key, V)>
  {
    if s == [] then [(key, value)]
    else if key == s[0].0 then [(key, value)] + s[1..]
    else if Less(key, s[0].0) then [(key, value)] + s
    else [s[0]] + Put(s[1..], key, value)
  }

  lemma {:induction false} PutLeft<V>(a: seq<(Key, V)>, x: (Key, V), b: seq<(Key, V)>, key: Key, value: V)
    requires Sorted(a + [x] + b) && Less(key, x.0)
    ensures Put(a + [x] + b, key, value) == Put(a, key, value) + [x] + b
  {
    Trichotomy(key, x.0);
    if a != [] {
      assert (a + [x] + b)[1..] == a[1..] + [x] + b;
      SortedTail(a + [x] + b);
      PutLeft(a[1..], x, b, key, value);
    }
  }

  lemma {:induction false} PutRight<V>(a: seq<(Key, V)>, x: (Key, V), b: seq<(Key, V)>, key: Key, value: V)
    requires Sorted(a + [x] + b) && (key == x.0 || Less(x.0, key))
    ensures Put(a + [x] + b, key, value) == if key == x.0 then a + [(key, value)] + b else a + [x] + Put(b, key, value)
  {
    var s := a + [x] + b;
    Trichotomy(key, x.0);
    if a == [] {
      assert s[1..] == b;
    } else {
      assert s[1..] == a[1..] + [x] + b;
      SortedTail(s);
      assert Less(s[0].0, s[|a|].0);
      Trichotomy(key, a[0].0);
      if key != x.0 { Transitive(a[0].0, x.0, key); }
      PutRight(a[1..], x, b, key, value);
    }
  }

  lemma SortedTail<V>(s: seq<(Key, V)>)
    requires Sorted(s) && s != []
    ensures Sorted(s[1..])
  {
    forall i, j | 0 <= i < j < |s[1..]| ensures Less(s[1..][i].0, s[1..][j].0) {
      assert Less(s[i + 1].0, s[j + 1].0);
    }
  }

  lemma SortedParts<V>(a: seq<(Key, V)>, x: (Key, V), b: seq<(Key, V)>)
    requires Sorted(a + [x] + b)
    ensures Sorted(a) && Sorted(b)
    ensures forall i :: 0 <= i < |a| ==> Less(a[i].0, x.0)
    ensures forall i :: 0 <= i < |b| ==> Less(x.0, b[i].0)
  {
    var s := a + [x] + b;
    forall i, j | 0 <= i < j < |a| ensures Less(a[i].0, a[j].0) { assert s[i] == a[i] && s[j] == a[j]; }
    forall i, j | 0 <= i < j < |b| ensures Less(b[i].0, b[j].0) {
      assert s[|a| + 1 + i] == b[i] && s[|a| + 1 + j] == b[j];
    }
    forall i | 0 <= i < |a| ensures Less(a[i].0, x.0) { assert s[i] == a[i] && s[|a|] == x; }
    forall i | 0 <= i < |b| ensures Less(x.0, b[i].0) { assert s[|a| + 1 + i] == b[i] && s[|a|] == x; }
  }

  ghost predicate KeyFrom<V>(k: Key, s: seq<(Key, V)>)
  {
    exists i :: 0 <= i < |s| && s[i].0 == k
  }

  lemma {:induction false} PutKeys<V>(s: seq<(Key, V)>, key: Key, value: V, j: nat)
    requires j < |Put(s, key, value)|
    ensures Put(s, key, value)[j].0 == key || KeyFrom(Put(s, key, value)[j].0, s)
  {
    if s != [] && key != s[0].0 && !Less(key, s[0].0) && j > 0 {
      PutKeys(s[1..], key, value, j - 1);
      var k := Put(s, key, value)[j].0;
      if KeyFrom(k, s[1..]) {
        var i :| 0 <= i < |s[1..]| && s[1..][i].0 == k;
        assert s[i + 1].0 == k;
      }
    } else if s != [] && j < |Put(s, key, value)| && Put(s, key, value)[j].0 != key {
      var p := Put(s, key, value);
      assert p[j] in s;
    }
  }

  lemma SortedCons<V>(x: (Key, V), s: seq<(Key, V)>)
    requires Sorted(s) && forall i :: 0 <= i < |s| ==> Less(x.0, s[i].0)
    ensures Sorted([x] + s)
  {
    var t := [x] + s;
    forall i, j | 0 <= i < j < |t| ensures Less(t[i].0, t[j].0) {
      assert t[j] == s[j - 1];
      if i > 0 { assert t[i] == s[i - 1]; }
    }
  }

  lemma {:induction false} PutSorted<V>(s: seq<(Key, V)>, key: Key, value: V)
    requires Sorted(s)
    ensures Sorted(Put(s, key, value))
  {
    if s != [] {
      SortedTail(s);
      var t := s[1..];
      forall i | 0 <= i < |t| ensures Less(s[0].0, t[i].0) { assert t[i] == s[i + 1]; }
      Trichotomy(key, s[0].0);
      if key == s[0].0 {
        SortedCons((key, value), t);
      } else if Less(key, s[0].0) {
        forall i | 0 <= i < |s| ensures Less(key, s[i].0) { if i > 0 { Transitive(key, s[0].0, s[i].0); } }
        SortedCons((key, value), s);
      } else {
        PutSorted(t, key, value);
        var p := Put(t, key, value);
        forall j | 0 <= j < |p| ensures Less(s[0].0, p[j].0) { PutKeys(t, key, value, j); }
        SortedCons(s[0], p);
      }
    }
  }

  lemma {:induction false} MapOfKeys<V>(s: seq<(Key, V)>, k: Key)
    ensures k in MapOf(s) <==> KeyFrom(k, s)
  {
    if s != [] {
      MapOfKeys(s[1..], k);
      if KeyFrom(k, s[1..]) {
        var i :| 0 <= i < |s[1..]| && s[1..][i].0 == k;
        assert s[i + 1].0 == k;
      }
      if KeyFrom(k, s) && k != s[0].0 {
        var i :| 0 <= i < |s| && s[i].0 == k;
        assert s[1..][i - 1].0 == k;
      }
    }
  }

  lemma {:induction false} PutMap<V>(s: seq<(Key, V)>, key: Key, value: V)
    requires Sorted(s)
    ensures MapOf(Put(s, key, value)) == MapOf(s)[key := value]
  {
    if s != [] {
      SortedTail(s);
      Trichotomy(key, s[0].0);
      if key == s[0].0 {
        assert ([(key, value)] + s[1..])[1..] == s[1..];
      } else if Less(key, s[0].0) {
        assert ([(key, value)] + s)[1..] == s;
      } else {
        PutMap(s[1..], key, value);
        assert ([s[0]] + Put(s[1..], key, value))[1..] == Put(s[1..], key, value);
      }
    }
  }

  /** In a sorted list the map finds each listed entry. */
  lemma {:induction false} MapOfAt<V>(s: seq<(Key, V)>, i: nat)
    requires Sorted(s) && i < |s|
    ensures s[i].0 in MapOf(s) && MapOf(s)[s[i].0] == s[i].1
  {
    if i > 0 {
      SortedTail(s);
      MapOfAt(s[1..], i - 1);
      assert Less(s[0].0, s[i].0);
      Trichotomy(s[0].0, s[i].0);
    }
  }

  // ---------- rotations keep the entries ----------

  lemma MakeEntries<V>(key: Key, value: V, left: Tree<V>, right: Tree<V>)
    ensures Entries(Make(key, value, left, right)) == Entries(left) + [(key, value)] + Entries(right)
  {
  }

  lemma Regroup<V>(a: seq<V>, x: seq<V>, b: seq<V>, y: seq<V>, c: seq<V>)
    ensures a + x + (b + y + c) == (a + x + b) + y + c
  {
  }

  lemma RotateRightEntries<V>(t: Tree<V>)
    requires t.Node? && t.left.Node?
    ensures Entries(RotateRight(t)) == Entries(t)
  {
    MakeEntries(t.key, t.value, t.left.right, t.right);
    MakeEntries(t.left.key, t.left.value, t.left.left, Make(t.key, t.value, t.left.right, t.right));
    Regroup(Entries(t.left.left), [(t.left.key, t.left.value)], Entries(t.left.right), [(t.key, t.value)],
      Entries(t.right));
  }

  lemma RotateLeftEntries<V>(t: Tree<V>)
    requires t.Node? && t.right.Node?
    ensures Entries(RotateLeft(t)) == Entries(t)
  {
    MakeEntries(t.key, t.value, t.left, t.right.left);
    MakeEntries(t.right.key, t.right.value, Make(t.key, t.value, t.left, t.right.left), t.right.right);
    Regroup(Entries(t.left), [(t.key, t.value)], Entries(t.right.left), [(t.right.key, t.right.value)],
      Entries(t.right.right));
  }

  lemma RebalanceEntries<V>(t: Tree<V>)
    requires t.Node? && Heights(t)
    ensures Entries(Rebalance(t)) == Entries(t)
  {
    hide RotateLeft, RotateRight;
    if Height(t.left) > Height(t.right) + 1 {
      if Height(t.left.left) >= Height(t.left.right) {
        RotateRightEntries(t);
      } else {
        RotateLeftEntries(t.left);
        RotateRightEntries(Make(t.key, t.value, RotateLeft(t.left), t.right));
      }
    } else if Height(t.right) > Height(t.left) + 1 {
      if Height(t.right.right) >= Height(t.right.left) {
        RotateLeftEntries(t);
      } else {
        RotateRightEntries(t.right);
        RotateLeftEntries(Make(t.key, t.value, t.left, RotateRight(t.right)));
      }
    }
  }

  lemma {:induction false} InsertEntries<V>(t: Tree<V>, key: Key, value: V)
    requires Heights(t) && Sorted(Entries(t))
    ensures Entries(Insert(t, key, value)) == Put(Entries(t), key, value)
  {
    if t.Node? {
      hide Rebalance, Less;
      var a, x, b := Entries(t.left), (t.key, t.value), Entries(t.right);
      SortedParts(a, x, b);
      Trichotomy(key, t.key);
      if Less(key, t.key) {
        InsertEntries(t.left, key, value);
        PutLeft(a, x, b, key, value);
        RebalanceEntries(Make(t.key, t.value, Insert(t.left, key, value), t.right));
      } else {
        PutRight(a, x, b, key, value);
        if key != t.key {
          InsertEntries(t.right, key, value);
          RebalanceEntries(Make(t.key, t.value, t.left, Insert(t.right, key, value)));
        }
      }
    }
  }

  // ---------- insertion keeps the tree balanced ----------

  /** Every child, and its children, of a tree with right heights has right heights. */
  lemma HeightsDown<V>(t: Tree<V>)
    requires Heights(t) && t.Node?
    ensures Heights(t.left) && Heights(t.right)
  {
  }

  lemma RightHeavyRotates<V>(t: Tree<V>)
    requires t.Node? && Heights(t) && Balanced(t.left) && Balanced(t.right)
    requires Height(t.right) == Height(t.left) + 2 && t.right.Node?
    requires Height(t.right.right) >= Height(t.right.left)
    ensures var r := RotateLeft(t); Balanced(r) && Height(t) - 1 <= Height(r) <= Height(t)
  {
    HeightsDown(t.right);
  }

  lemma LeftHeavyRotates<V>(t: Tree<V>)
    requires t.Node? && Heights(t) && Balanced(t.left) && Balanced(t.right)
    requires Height(t.left) == Height(t.right) + 2 && t.left.Node?
    requires Height(t.left.left) >= Height(t.left.right)
    ensures var r := RotateRight(t); Balanced(r) && Height(t) - 1 <= Height(r) <= Height(t)
  {
    HeightsDown(t.left);
  }

  lemma DoubleRightRotates<V>(t: Tree<V>)
    requires t.Node? && Heights(t) && Balanced(t.left) && Balanced(t.right)
    requires Height(t.left) == Height(t.right) + 2 && t.left.Node? && t.left.right.Node?
    requires Height(t.left.left) < Height(t.left.right)
    ensures var r := RotateRight(Make(t.key, t.value, RotateLeft(t.left), t.right));
      Balanced(r) && Height(t) - 1 <= Height(r) <= Height(t)
  {
    HeightsDown(t.left);
    HeightsDown(t.left.right);
    var p := t.left;
    var q := p.right;
    assert Balanced(p) && Balanced(q);
    var l := Make(p.key, p.value, p.left, q.left);
    var r := Make(t.key, t.value, q.right, t.right);
    assert Balanced(l) && Balanced(r);
    assert RotateRight(Make(t.key, t.value, RotateLeft(p), t.right)) == Make(q.key, q.value, l, r);
  }

  lemma DoubleLeftRotates<V>(t: Tree<V>)
    requires t.Node? && Heights(t) && Balanced(t.left) && Balanced(t.right)
    requires Height(t.right) == Height(t.left) + 2 && t.right.Node? && t.right.left.Node?
    requires Height(t.right.right) < Height(t.right.left)
    ensures var r := RotateLeft(Make(t.key, t.value, t.left, RotateRight(t.right)));
      Balanced(r) && Height(t) - 1 <= Height(r) <= Height(t)
  {
    HeightsDown(t.right);
    HeightsDown(t.right.left);
    var p := t.right;
    var q := p.left;
    assert Balanced(p) && Balanced(q);
    var l := Make(t.key, t.value, t.left, q.left);
    var r := Make(p.key, p.value, q.right, p.right);
    assert Balanced(l) && Balanced(r);
    assert RotateLeft(Make(t.key, t.value, t.left, RotateRight(p))) == Make(q.key, q.value, l, r);
  }

  /** Two levels out of balance become none, and the height drops by at most one. */
  lemma RebalanceBalanced<V>(t: Tree<V>)
    requires t.Node? && Heights(t) && Balanced(t.left) && Balanced(t.right)
    requires Height(t.left) <= Height(t.right) + 2 && Height(t.right) <= Height(t.left) + 2
    ensures var r := Rebalance(t); Balanced(r) && Height(r) <= Height(t)
    ensures Balanced(t) ==> Rebalance(t) == t
    ensures !Balanced(t) ==> Height(t) - 1 <= Height(Rebalance(t))
  {
    hide RotateLeft, RotateRight;
    if Height(t.left) > Height(t.right) + 1 {
      if Height(t.left.left) >= Height(t.left.right) { LeftHeavyRotates(t); } else { DoubleRightRotates(t); }
    } else if Height(t.right) > Height(t.left) + 1 {
      if Height(t.right.right) >= Height(t.right.left) { RightHeavyRotates(t); } else { DoubleLeftRotates(t); }
    }
  }

  lemma {:induction false} InsertBalanced<V>(t: Tree<V>, key: Key, value: V)
    requires Heights(t) && Balanced(t)
    ensures var r := Insert(t, key, value); Balanced(r) && Height(t) <= Height(r) <= Height(t) + 1
  {
    if t.Node? && key != t.key {
      hide Rebalance, Less;
      if Less(key, t.key) {
        InsertBalanced(t.left, key, value);
        RebalanceBalanced(Make(t.key, t.value, Insert(t.left, key, value), t.right));
      } else {
        InsertBalanced(t.right, key, value);
        RebalanceBalanced(Make(t.key, t.value, t.left, Insert(t.right, key, value)));
      }
    }
  }

  // ---------- cached sizes ----------

  lemma RotationSizes<V>(t: Tree<V>)
    requires t.Node? && Sizes(t)
    ensures t.left.Node? ==> Sizes(RotateRight(t))
    ensures t.right.Node? ==> Sizes(RotateLeft(t))
  {
    assert Sizes(t.left) && Sizes(t.right);
  }

  lemma MakeSizes<V>(key: Key, value: V, left: Tree<V>, right: Tree<V>)
    requires Sizes(left) && Sizes(right)
    ensures Sizes(Make(key, value, left, right))
  {
  }

  lemma RebalanceSizes<V>(t: Tree<V>)
    requires t.Node? && Heights(t) && Sizes(t)
    ensures Sizes(Rebalance(t))
  {
    assert Sizes(t.left) && Sizes(t.right);
    hide RotateLeft, RotateRight, Sizes;
    RotationSizes(t);
    if Height(t.left) > Height(t.right) + 1 {
      if Height(t.left.left) < Height(t.left.right) {
        RotationSizes(t.left);
        MakeSizes(t.key, t.value, RotateLeft(t.left), t.right);
        RotationSizes(Make(t.key, t.value, RotateLeft(t.left), t.right));
      }
    } else if Height(t.right) > Height(t.left) + 1 {
      if Height(t.right.right) < Height(t.right.left) {
        RotationSizes(t.right);
        MakeSizes(t.key, t.value, t.left, RotateRight(t.right));
        RotationSizes(Make(t.key, t.value, t.left, RotateRight(t.right)));
      }
    }
  }

  lemma {:induction false} InsertSizes<V>(t: Tree<V>, key: Key, value: V)
    requires Heights(t) && Sizes(t)
    ensures Sizes(Insert(t, key, value))
  {
    if t.Node? && key != t.key {
      hide Rebalance, Less;
      if Less(key, t.key) {
        InsertSizes(t.left, key, value);
        RebalanceSizes(Make(t.key, t.value, Insert(t.left, key, value), t.right));
      } else {
        InsertSizes(t.right, key, value);
        RebalanceSizes(Make(t.key, t.value, t.left, Insert(t.right, key, value)));
      }
    }
  }

  lemma {:induction false} SizeCountsEntries<V>(t: Tree<V>)
    requires Sizes(t)
    ensures Size(t) == |Entries(t)|
  {
    if t.Node? {
      SizeCountsEntries(t.left);
      SizeCountsEntries(t.right);
    }
  }

  // ---------- main results ----------

  /** `with` on a valid tree gives a valid tree whose map is the old one with one update. */
  lemma InsertRefines<V>(t: Tree<V>, key: Key, value: V)
    requires Valid(t)
    ensures Valid(Insert(t, key, value))
    ensures Contents(Insert(t, key, value)) == Contents(t)[key := value]
  {
    hide Insert, Heights, Balanced, Sizes, Sorted, Entries;
    InsertBalanced(t, key, value);
    InsertSizes(t, key, value);
    InsertEntries(t, key, value);
    PutSorted(Entries(t), key, value);
    PutMap(Entries(t), key, value);
  }

  function WithAll<V(==)>(t: Tree<V>, updates: seq<(Key, V)>): (r: Tree<V>)
    requires Heights(t)
    ensures Heights(r)
    decreases |updates|
  {
    if updates == [] then t
    else WithAll(Insert(t, updates[0].0, updates[0].1), updates[1..])
  }

  ghost function UpdateAll<V>(m: map<Key, V>, updates: seq<(Key, V)>): map<Key, V>
    decreases |updates|
  {
    if updates == [] then m else UpdateAll(m[updates[0].0 := updates[0].1], updates[1..])
  }

  /** Every sequence of `with` calls is the same sequence of updates of a mathematical map. */
  lemma {:induction false} WithAllRefines<V>(t: Tree<V>, updates: seq<(Key, V)>)
    requires Valid(t)
    ensures Valid(WithAll(t, updates))
    ensures Contents(WithAll(t, updates)) == UpdateAll(Contents(t), updates)
    decreases |updates|
  {
    hide Insert, Valid, Contents;
    if updates != [] {
      InsertRefines(t, updates[0].0, updates[0].1);
      ValidHeights(t);
      ValidHeights(Insert(t, updates[0].0, updates[0].1));
      WithAllRefines(Insert(t, updates[0].0, updates[0].1), updates[1..]);
    }
  }

  lemma ValidHeights<V>(t: Tree<V>)
    requires Valid(t)
    ensures Heights(t)
  {
  }

  function Fib(n: nat): nat
  {
    if n < 2 then n else Fib(n - 1) + Fib(n - 2)
  }

  lemma {:induction false} FibMonotone(a: nat, b: nat)
    requires a <= b
    ensures Fib(a) <= Fib(b)
    decreases b
  {
    if a < b { FibMonotone(a, b - 1); }
  }

  /** The AVL height bound: a tree of height h holds at least Fib(h + 2) - 1 entries. */
  lemma {:induction false} SizeBound<V>(t: Tree<V>)
    requires Heights(t) && Balanced(t) && Sizes(t)
    ensures Size(t) >= Fib(Height(t) + 2) - 1
  {
    if t.Node? {
      SizeBound(t.left);
      SizeBound(t.right);
      var h := Height(t);
      FibMonotone(h, Height(t.left) + 2);
      FibMonotone(h, Height(t.right) + 2);
    }
  }

  // ---------- lookups: loops moving a cursor ----------

  ghost predicate Finds<V>(t: Tree<V>, key: Key, r: Option<V>)
  {
    r == if key in Contents(t) then Some(Contents(t)[key]) else None
  }

  /** Where a key lives relative to a node decides which subtree answers for it. */
  lemma LookupStep<V>(t: Tree<V>, key: Key, r: Option<V>)
    requires t.Node? && Sorted(Entries(t))
    ensures Sorted(Entries(t.left)) && Sorted(Entries(t.right))
    ensures key == t.key ==> Finds(t, key, Some(t.value))
    ensures key != t.key && Less(key, t.key) ==> (Finds(t, key, r) <==> Finds(t.left, key, r))
    ensures key != t.key && !Less(key, t.key) ==> (Finds(t, key, r) <==> Finds(t.right, key, r))
  {
    hide Less, MapOf;
    var a, x, b := Entries(t.left), (t.key, t.value), Entries(t.right);
    SortedParts(a, x, b);
    Trichotomy(key, t.key);
    ThreeParts(a, x, b, key);
    OnOneSide(a, x, b, key);
  }

  /** In a sorted list a key left of the middle entry is found left of it, and so on. */
  lemma OnOneSide<V>(a: seq<(Key, V)>, x: (Key, V), b: seq<(Key, V)>, key: Key)
    requires Sorted(a + [x] + b)
    ensures key in MapOf(a) ==> Less(key, x.0)
    ensures key in MapOf(b) ==> Less(x.0, key)
    ensures key == x.0 ==> key !in MapOf(a) && key !in MapOf(b)
  {
    hide Less, MapOf;
    SortedParts(a, x, b);
    MapOfKeys(a, key);
    MapOfKeys(b, key);
    Trichotomy(key, x.0);
  }

  lemma ThreeParts<V>(a: seq<(Key, V)>, x: (Key, V), b: seq<(Key, V)>, key: Key)
    ensures var m := MapOf(a + [x] + b);
      && (key in m <==> key in MapOf(a) || key == x.0 || key in MapOf(b))
      && (key in MapOf(a) ==> m[key] == MapOf(a)[key])
      && (key !in MapOf(a) && key == x.0 ==> m[key] == x.1)
      && (key !in MapOf(a) && key != x.0 && key in MapOf(b) ==> m[key] == MapOf(b)[key])
  {
    MapOfConcat(a, [x] + b, key);
    assert a + [x] + b == a + ([x] + b);
    assert ([x] + b)[1..] == b;
  }

  lemma {:induction false} MapOfConcat<V>(a: seq<(Key, V)>, b: seq<(Key, V)>, k: Key)
    ensures k in MapOf(a + b) <==> k in MapOf(a) || k in MapOf(b)
    ensures k in MapOf(a) ==> MapOf(a + b)[k] == MapOf(a)[k]
    ensures k !in MapOf(a) && k in MapOf(b) ==> MapOf(a + b)[k] == MapOf(b)[k]
  {
    if a == [] {
      assert a + b == b;
    } else {
      MapOfConcat(a[1..], b, k);
      assert (a + b)[1..] == a[1..] + b;
    }
  }

  method Get<V>(root: Tree<V>, key: Key) returns (r: Option<V>)
    requires Valid(root)
    ensures r == if key in Contents(root) then Some(Contents(root)[key]) else None
  {
    hide Contents, Less, Sorted, Entries;
    var node := root;
    while node.Node?
      invariant Sorted(Entries(node))
      invariant forall v: Option<V> :: Finds(root, key, v) <==> Finds(node, key, v)
      decreases node
    {
      forall v: Option<V> ensures key == node.key ==> Finds(node, key, Some(node.value))
        ensures key != node.key && Less(key, node.key) ==> (Finds(node, key, v) <==> Finds(node.left, key, v))
        ensures key != node.key && !Less(key, node.key) ==> (Finds(node, key, v) <==> Finds(node.right, key, v))
      {
        LookupStep(node, key, v);
      }
      LookupStep(node, key, None);
      if key == node.key { return Some(node.value); }
      node := if Less(key, node.key) then node.left else node.right;
    }
    LeafFindsNone<V>(key);
    return None;
  }

  lemma LeafFindsNone<V>(key: Key)
    ensures Finds<V>(Leaf, key, None)
  {
  }

  method Has<V>(root: Tree<V>, key: Key) returns (r: bool)
    requires Valid(root)
    ensures r <==> key in Contents(root)
  {
    hide Contents, Less, Sorted, Entries;
    var node := root;
    while node.Node?
      invariant Sorted(Entries(node))
      invariant key in Contents(root) <==> key in Contents(node)
      decreases node
    {
      PresenceStep(node, key);
      if key == node.key { return true; }
      node := if Less(key, node.key) then node.left else node.right;
    }
    LeafFindsNone<V>(key);
    return false;
  }

  lemma PresenceStep<V>(t: Tree<V>, key: Key)
    requires t.Node? && Sorted(Entries(t))
    ensures Sorted(Entries(t.left)) && Sorted(Entries(t.right))
    ensures key == t.key ==> key in Contents(t)
    ensures key != t.key && Less(key, t.key) ==> (key in Contents(t) <==> key in Contents(t.left))
    ensures key != t.key && !Less(key, t.key) ==> (key in Contents(t) <==> key in Contents(t.right))
  {
    hide Contents, Less, Sorted, Entries;
    LookupStep(t, key, None);
  }

  /** The i-th entry in key order, or nothing when `index` is out of range. */
  method EntryAt<V>(root: Tree<V>, index: int) returns (r: Option<(Key, V)>)
    requires Valid(root)
    ensures r == if 0 <= index < |Entries(root)| then Some(Entries(root)[index]) else None
  {
    hide Sorted, Less;
    SizeCountsEntries(root);
    if index < 0 || index >= Size(root) { return None; }
    var current, i := root, index;
    while current.Node?
      invariant Sizes(current) && 0 <= i < |Entries(current)|
      invariant Entries(current)[i] == Entries(root)[index]
      decreases current
    {
      var left := Size(current.left);
      SizeCountsEntries(current.left);
      if i == left { return Some((current.key, current.value)); }
      if i < left {
        current := current.left;
      } else {
        i := i - (left + 1);
        current := current.right;
      }
    }
  }
}

/** Node keys. The source compares JavaScript strings with `<`, which orders them by
    their UTF-16 code units; a key is therefore a sequence of code units. */
module Keys {
  newtype CodeUnit = x: int | 0 <= x < 0x1_0000

  datatype Key = Key(units: seq<CodeUnit>)

  /** The `<` of JavaScript strings on code units (a proper prefix comes first). */
  predicate UnitsLess(a: seq<CodeUnit>, b: seq<CodeUnit>)
  {
    if |b| == 0 then false
    else if |a| == 0 then true
    else if a[0] != b[0] then a[0] < b[0]
    else UnitsLess(a[1..], b[1..])
  }

  predicate Less(a: Key, b: Key)
  {
    UnitsLess(a.units, b.units)
  }

  lemma {:induction false} UnitsTrichotomy(a: seq<CodeUnit>, b: seq<CodeUnit>)
    ensures UnitsLess(a, b) || a == b || UnitsLess(b, a)
    ensures !(UnitsLess(a, b) && UnitsLess(b, a))
    ensures a == b ==> !UnitsLess(a, b)
  {
    if |a| > 0 && |b| > 0 && a[0] == b[0] {
      UnitsTrichotomy(a[1..], b[1..]);
      if a[1..] == b[1..] {
        assert a == [a[0]] + a[1..] == [b[0]] + b[1..] == b;
      }
    }
  }

  lemma {:induction false} UnitsTransitive(a: seq<CodeUnit>, b: seq<CodeUnit>, c: seq<CodeUnit>)
    requires UnitsLess(a, b) && UnitsLess(b, c)
    ensures UnitsLess(a, c)
  {
    if |a| > 0 && a[0] == b[0] == c[0] {
      UnitsTransitive(a[1..], b[1..], c[1..]);
    }
  }

  /** `b` continues `a`, or has the larger unit at the first place where the two differ. */
  ghost predicate FirstDifference(a: seq<CodeUnit>, b: seq<CodeUnit>, i: nat)
  {
    i <= |a| && i < |b| && a[..i] == b[..i] && (i == |a| || a[i] < b[i])
  }

  lemma SameFirst(a: seq<CodeUnit>, b: seq<CodeUnit>, i: nat)
    requires FirstDifference(a, b, i) && i > 0
    ensures a != [] && b != [] && a[0] == b[0]
  {
    assert a[..i][0] == a[0] && b[..i][0] == b[0];
  }

  /** One key is less than another exactly when it is a proper prefix of it or has the smaller unit at
      the first place where they differ. */
  lemma {:induction false} LessExact(a: seq<CodeUnit>, b: seq<CodeUnit>)
    ensures UnitsLess(a, b) <==> exists i: nat :: FirstDifference(a, b, i)
    decreases |a|
  {
    if a == [] || b == [] || a[0] != b[0] {
      if UnitsLess(a, b) { assert FirstDifference(a, b, 0); }
      forall i: nat | FirstDifference(a, b, i)
        ensures UnitsLess(a, b)
      {
        if i > 0 { SameFirst(a, b, i); }
      }
    } else {
      LessExact(a[1..], b[1..]);
      forall i: nat | FirstDifference(a[1..], b[1..], i)
        ensures FirstDifference(a, b, i + 1)
      {
        assert a[..i + 1] == [a[0]] + a[1..][..i] && b[..i + 1] == [b[0]] + b[1..][..i];
      }
      forall i: nat | FirstDifference(a, b, i)
        ensures i > 0 && FirstDifference(a[1..], b[1..], i - 1)
      {
        assert a[1..][..i - 1] == a[..i][1..] && b[1..][..i - 1] == b[..i][1..];
      }
    }
  }

  /** Code-unit order is a strict total order on keys: exactly one of the three holds. */
  lemma Trichotomy(a: Key, b: Key)
    ensures Less(a, b) || a == b || Less(b, a)
    ensures !(Less(a, b) && Less(b, a))
    ensures a == b ==> !Less(a, b)
  {
    UnitsTrichotomy(a.units, b.units);
  }

  lemma Transitive(a: Key, b: Key, c: Key)
    requires Less(a, b) && Less(b, c)
    ensures Less(a, c)
  {
    UnitsTransitive(a.units, b.units, c.units);
  }
}

/** The number clamping shared by the graph algorithms. */
module Numbers {
  /** A JavaScript number: finite, or NaN / an infinity. */
  datatype Num = NonFinite | Finite(value: real)

  function Trunc(r: real): int
  {
    if r >= 0.0 then r.Floor else -((-r).Floor)
  }

  /** `clampInteger` with bottom 0. */
  function ClampInteger(v: Num, top: nat): (r: nat)
    ensures r <= top
    ensures v.NonFinite? ==> r == 0
    ensures v.Finite? && v.value <= 0.0 ==> r == 0
    ensures v.Finite? && v.value >= top as real ==> r == top
    ensures v.Finite? && 0.0 <= v.value <= top as real ==> r as real <= v.value < r as real + 1.0
  {
    if v.NonFinite? then 0
    else
      var n := Trunc(v.value);
      if n < 0 then 0 else if n > top then top else n
  }

  /** Clamping never reorders two finite numbers. */
  lemma ClampMonotone(a: real, b: real, top: nat)
    requires a <= b
    ensures ClampInteger(Finite(a), top) <= ClampInteger(Finite(b), top)
  {
  }

  /** An integer already in range is kept. */
  lemma ClampIdentity(n: nat, top: nat)
    requires n <= top
    ensures ClampInteger(Finite(n as real), top) == n
  {
  }
}

// Minima that start at infinity and maxima that start at zero, as the statistics of the benchmarks keep them.
module ExtendedReals {

  datatype Extended = Finite(value: real) | Infinity

  predicate Below(x: real, e: Extended) {
    e.Infinity? || x < e.value
  }

  predicate AtMost(d: Extended, e: Extended) {
    e.Infinity? || (d.Finite? && d.value <= e.value)
  }

  predicate IsMinimum(b: multiset<real>, e: Extended) {
    match e
    case Infinity => b == multiset{}
    case Finite(v) => v in b && forall x :: x in b ==> v <= x
  }

  // The maximum starts at 0, so 0 competes with the samples.
  predicate IsMaximum(b: multiset<real>, m: real) {
    m >= 0.0 && (m == 0.0 || m in b) && forall x :: x in b ==> x <= m
  }

  // One more sample for the minimum to answer for.
  lemma MinimumGrows(b: multiset<real>, e: Extended, x: real)
    requires IsMinimum(b, e)
    ensures IsMinimum(b + multiset{x}, if Below(x, e) then Finite(x) else e)
  {
  }

  lemma MaximumGrows(b: multiset<real>, m: real, x: real)
    requires IsMaximum(b, m)
    ensures IsMaximum(b + multiset{x}, if x > m then x else m)
  {
  }
}

/** Weights are Go float64 values that are only compared, added once and
    clamped; they are modelled as exact reals. */
module Weights {

  /** Restricts `v` to the interval [lo, hi]. */
  function Clamp(v: real, lo: real, hi: real): (r: real)
    ensures lo <= hi ==> lo <= r <= hi
    ensures lo <= v <= hi ==> r == v
    ensures v < lo ==> r == lo
    ensures lo <= v && hi < v ==> r == hi
  {
    if v < lo then lo
    else if v > hi then hi
    else v
  }
}

/** Python slicing on sequences, including negative and out-of-range bounds. */
module Sequences {

  /** How Python clamps a slice bound against length `n`. */
  function SliceBound(x: int, n: nat): (r: nat)
    ensures r <= n
    ensures 0 <= x <= n ==> r == x
  {
    if x < 0 then (if x + n < 0 then 0 else x + n)
    else if x > n then n
    else x
  }

  /** `xs[a:b]`. */
  function PySlice<T>(xs: seq<T>, a: int, b: int): (r: seq<T>)
    ensures |r| <= |xs|
    ensures 0 <= a <= b <= |xs| ==> r == xs[a..b]
    ensures 0 <= b <= a ==> r == []
  {
    var lo, hi := SliceBound(a, |xs|), SliceBound(b, |xs|);
    if lo >= hi then [] else xs[lo..hi]
  }
}

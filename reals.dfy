/** Facts about real numbers shared by the currency rendering and the metrics. */
module Reals {

  /** The magnitude of x. */
  function Abs(x: real): (r: real)
    ensures r >= 0.0 && (r == x || r == -x)
    ensures r == 0.0 <==> x == 0.0
  {
    if x < 0.0 then -x else x
  }
}

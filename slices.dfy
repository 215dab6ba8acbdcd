/** Python's slice `s[:n]` keeps the first `min(n, len(s))` elements; both the
    written history and the suggestion list are cut this way. */
module Slices {

  function Min(x: nat, y: nat): (r: nat)
    ensures r <= x && r <= y && (r == x || r == y)
  {
    if x <= y then x else y
  }
}

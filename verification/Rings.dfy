/** Positions on a circular list. */
module Rings {

  // Position after i on a ring of n elements.
  function After(i: nat, n: nat): nat
    requires i < n
  {
    if i + 1 == n then 0 else i + 1
  }
}

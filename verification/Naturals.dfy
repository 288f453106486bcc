/** Natural numbers. */
module Naturals {

  function Max(a: nat, b: nat): nat {
    if a >= b then a else b
  }
}

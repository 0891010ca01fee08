/** The smaller, the larger, and subtraction that stops at zero. */
module Naturals {
  function Min(a: nat, b: nat): nat {
    if a <= b then a else b
  }

  function Max(a: nat, b: nat): nat {
    if a <= b then b else a
  }

  function Monus(a: nat, b: nat): nat {
    if a <= b then 0 else a - b
  }
}

/** Single-bit flags in a byte, as the firmware keeps its ping and
    continue bitmasks. */
module Bits {

  /** The bit of a byte that flag b of a bitmask lives in: 1 << b. */
  function BitOf(b: nat): (r: bv8)
    requires b < 8
    ensures r != 0
  {
    if b == 0 then 0x01 else if b == 1 then 0x02 else if b == 2 then 0x04 else if b == 3 then 0x08
    else if b == 4 then 0x10 else if b == 5 then 0x20 else if b == 6 then 0x40 else 0x80
  }

  /** Flag b of the bitmask x is set. */
  predicate HasBit(x: bv8, b: nat)
    requires b < 8
  {
    x & BitOf(b) != 0
  }

  /** Clearing flag b of a bitmask leaves the other flags as they are. */
  lemma ClearBit(x: bv8, b: nat, c: nat)
    requires b < 8 && c < 8
    ensures HasBit(x & !BitOf(b), c) <==> HasBit(x, c) && b != c
  {
  }

  /** A byte with no bit set is zero. */
  lemma NoBitIsZero(x: bv8)
    requires forall c :: 0 <= c < 8 ==> !HasBit(x, c)
    ensures x == 0
  {
    assert !HasBit(x, 0) && !HasBit(x, 1) && !HasBit(x, 2) && !HasBit(x, 3);
    assert !HasBit(x, 4) && !HasBit(x, 5) && !HasBit(x, 6) && !HasBit(x, 7);
  }

}

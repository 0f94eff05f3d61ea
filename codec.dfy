/** The parity code of the serial link, shared by the firmware
    (firmware/serial.cpp) and the host (firmware/printer3d.py).

    A frame of length L (its first byte) is followed by NumChecks(L) check
    bytes, one per group of three bytes.  Check byte t carries the group index
    t & 7 in its low three bits.  Its bits 3..7 are parity bits: bit k + 3 is
    set exactly when the bits that row k of MASK selects from the group's
    three bytes and from the tag have odd parity, so that together with the
    check byte itself the selected bits have even parity.

    The group-level definitions take the three group bytes and the check byte
    as separate bytes, and a row of MASK as four separate bytes; the frame
    level (Frame.dfy) picks them out of a buffer. */
module Codec {

  /** Row k, columns 0..2: the bits of the group's bytes that enter parity bit
      k; column 3: the bits of the check byte that enter it.  The same table
      appears in both programs. */
  const MASK: seq<seq<bv8>> := [
    [0xc0, 0xc3, 0xff, 0x09],
    [0x38, 0x3a, 0x7e, 0x13],
    [0x26, 0xb5, 0xb9, 0x23],
    [0x95, 0x6c, 0xd5, 0x43],
    [0x4b, 0xdc, 0xe2, 0x83]]

  // ---------------------------------------------------------------------
  // Parity of a byte
  // ---------------------------------------------------------------------

  /** x has an odd number of set bits: bit 0, XOR the parity of the rest. */
  predicate Odd(x: bv8)
    decreases x
  {
    if x == 0 then false else (x & 1 != 0) != Odd(x >> 1)
  }

  lemma OddStep(x: bv8)
    ensures Odd(x) == ((x & 1 != 0) != Odd(x >> 1))
  {
    if x == 0 {
      assert x >> 1 == 0;
    }
  }

  lemma ShiftXor(x: bv8, y: bv8)
    ensures (x ^ y) >> 1 == (x >> 1) ^ (y >> 1)
    ensures ((x ^ y) & 1 != 0) == ((x & 1 != 0) != (y & 1 != 0))
  {
  }

  /** Two XORs regrouped, on truth values. */
  lemma Interleave(a: bool, b: bool, c: bool, d: bool, ab: bool, cd: bool)
    requires ab == (a != b) && cd == (c != d)
    ensures (ab != cd) == ((a != c) != (b != d))
  {
  }

  lemma OddXorStep(x: bv8, y: bv8)
    requires Odd((x >> 1) ^ (y >> 1)) == (Odd(x >> 1) != Odd(y >> 1))
    ensures Odd(x ^ y) == (Odd(x) != Odd(y))
  {
    ShiftXor(x, y);
    OddStep(x ^ y);
    OddStep(x);
    OddStep(y);
    Interleave(x & 1 != 0, y & 1 != 0, Odd(x >> 1), Odd(y >> 1), (x ^ y) & 1 != 0, Odd((x ^ y) >> 1));
  }

  /** Parity is linear: the parity of an XOR is the XOR of the parities. */
  lemma {:induction false} OddXor(x: bv8, y: bv8)
    decreases x
    ensures Odd(x ^ y) == (Odd(x) != Odd(y))
  {
    if x == 0 {
      assert x ^ y == y;
    } else {
      OddXor(x >> 1, y >> 1);
      OddXorStep(x, y);
    }
  }

  /** The source's parity fold: x ^= x >> 4; x ^= x >> 2; x ^= x >> 1. */
  function Fold(x: bv8): bv8 {
    var a := x ^ (x >> 4);
    var b := a ^ (a >> 2);
    b ^ (b >> 1)
  }

  lemma FoldStep(x: bv8)
    ensures (Fold(x) & 1 != 0) == ((x & 1 != 0) != (Fold(x >> 1) & 1 != 0))
  {
  }

  /** Bit 0 of the fold is the parity of the byte. */
  lemma {:induction false} FoldIsParity(x: bv8)
    decreases x
    ensures (Fold(x) & 1 != 0) == Odd(x)
  {
    if x != 0 {
      FoldStep(x);
      FoldIsParity(x >> 1);
    }
  }

  // ---------------------------------------------------------------------
  // Check-byte layout and the rows of MASK
  // ---------------------------------------------------------------------

  /** The group index carried in the low three bits of check byte t. */
  function Tag(t: nat): (r: bv8)
    ensures r < 8
  {
    (t % 8) as bv8
  }

  predicate IsParityBit(bit: bv8) {
    bit == 0x08 || bit == 0x10 || bit == 0x20 || bit == 0x40 || bit == 0x80
  }

  /** Parity bit k of a check byte: 1 << (k + 3). */
  function Bit(k: nat): (bit: bv8)
    requires k < 5
    ensures IsParityBit(bit)
  {
    if k == 0 then 0x08 else if k == 1 then 0x10 else if k == 2 then 0x20
    else if k == 3 then 0x40 else 0x80
  }

  function BitIf(b: bool, bit: bv8): bv8 {
    if b then bit else 0
  }

  /** The check column of a row sees exactly one parity bit, `bit`. */
  predicate RowShape(m: seq<bv8>, bit: bv8) {
    |m| == 4 && IsParityBit(bit) && m[3] & 0xf8 == bit
  }

  /** Row k's check column sees parity bit k and no other: the encoder may
      compute the parity bits in any order. */
  lemma MaskRows(k: nat)
    requires k < 5
    ensures RowShape(MASK[k], Bit(k))
  {
    if k == 0 {} else if k == 1 {} else if k == 2 {} else if k == 3 {} else {}
  }

  // ---------------------------------------------------------------------
  // The reference check byte
  // ---------------------------------------------------------------------

  /** The XOR of the bits that row (m0, m1, m2, m3) selects from the group
      bytes g0, g1, g2 and the check byte c. */
  function RowSum(g0: bv8, g1: bv8, g2: bv8, c: bv8, m0: bv8, m1: bv8, m2: bv8, m3: bv8): bv8 {
    (((g0 & m0) ^ (g1 & m1)) ^ (g2 & m2)) ^ (c & m3)
  }

  function RowSumAt(g0: bv8, g1: bv8, g2: bv8, c: bv8, k: nat): bv8
    requires k < 5
  {
    RowSum(g0, g1, g2, c, MASK[k][0], MASK[k][1], MASK[k][2], MASK[k][3])
  }

  /** c is the check byte of group t over g0, g1, g2: its low bits are the
      tag, and parity bit k is set exactly when the bits row k selects from
      the group and the tag have odd parity. */
  ghost predicate IsCheck(g0: bv8, g1: bv8, g2: bv8, c: bv8, t: nat) {
    c & 7 == Tag(t)
    && forall k :: 0 <= k < 5 ==> ((c & Bit(k) != 0) <==> Odd(RowSumAt(g0, g1, g2, Tag(t), k)))
  }

  /** A byte is its tag bits together with its five parity bits. */
  lemma ByteFromBits(c: bv8, d: bv8)
    requires c & 7 == d & 7
    requires (c & 0x08 == 0) == (d & 0x08 == 0) && (c & 0x10 == 0) == (d & 0x10 == 0)
    requires (c & 0x20 == 0) == (d & 0x20 == 0) && (c & 0x40 == 0) == (d & 0x40 == 0)
    requires (c & 0x80 == 0) == (d & 0x80 == 0)
    ensures c == d
  {
  }

  /** At most one byte is the check byte of a group. */
  lemma CheckUnique(g0: bv8, g1: bv8, g2: bv8, c: bv8, d: bv8, t: nat)
    requires IsCheck(g0, g1, g2, c, t) && IsCheck(g0, g1, g2, d, t)
    ensures c == d
  {
    assert Bit(0) == 0x08 && Bit(1) == 0x10 && Bit(2) == 0x20 && Bit(3) == 0x40 && Bit(4) == 0x80;
    ByteFromBits(c, d);
  }

  // ---------------------------------------------------------------------
  // Splitting a check byte into its tag and parity bit
  // ---------------------------------------------------------------------

  lemma OddSingle(c: bv8, bit: bv8)
    requires IsParityBit(bit)
    ensures Odd(c & bit) == (c & bit != 0)
  {
    FoldIsParity(c & bit);
  }

  lemma XorBit(x: bv8, y: bv8, c: bv8, bit: bv8)
    requires IsParityBit(bit) && y == x ^ (c & bit)
    ensures Odd(y) == (Odd(x) != (c & bit != 0))
  {
    OddXor(x, c & bit);
    OddSingle(c, bit);
  }

  lemma RowSumSplit(g0: bv8, g1: bv8, g2: bv8, c: bv8, m0: bv8, m1: bv8, m2: bv8, m3: bv8, bit: bv8)
    requires IsParityBit(bit) && m3 & 0xf8 == bit
    ensures RowSum(g0, g1, g2, c, m0, m1, m2, m3) == RowSum(g0, g1, g2, c & 7, m0, m1, m2, m3) ^ (c & bit)
  {
  }

  /** The parity bit of a row enters the row's parity on its own, beside the
      tag bits. */
  lemma RowSplit(g0: bv8, g1: bv8, g2: bv8, c: bv8, m0: bv8, m1: bv8, m2: bv8, m3: bv8, bit: bv8)
    requires IsParityBit(bit) && m3 & 0xf8 == bit
    ensures Odd(RowSum(g0, g1, g2, c, m0, m1, m2, m3))
      == (Odd(RowSum(g0, g1, g2, c & 7, m0, m1, m2, m3)) != (c & bit != 0))
  {
    RowSumSplit(g0, g1, g2, c, m0, m1, m2, m3, bit);
    XorBit(RowSum(g0, g1, g2, c & 7, m0, m1, m2, m3), RowSum(g0, g1, g2, c, m0, m1, m2, m3), c, bit);
  }

  lemma RowSplitAt(g0: bv8, g1: bv8, g2: bv8, c: bv8, k: nat)
    requires k < 5
    ensures Odd(RowSumAt(g0, g1, g2, c, k)) == (Odd(RowSumAt(g0, g1, g2, c & 7, k)) != (c & Bit(k) != 0))
  {
    MaskRows(k);
    RowSplit(g0, g1, g2, c, MASK[k][0], MASK[k][1], MASK[k][2], MASK[k][3], Bit(k));
  }

  /** The check byte of a group makes every row's parity even. */
  lemma CheckEven(g0: bv8, g1: bv8, g2: bv8, c: bv8, t: nat, k: nat)
    requires IsCheck(g0, g1, g2, c, t) && k < 5
    ensures !Odd(RowSumAt(g0, g1, g2, c, k))
  {
    RowSplitAt(g0, g1, g2, c, k);
  }

  /** ... and a byte with the right tag that makes every row even is it. */
  lemma EvenIsCheck(g0: bv8, g1: bv8, g2: bv8, c: bv8, t: nat)
    requires c & 7 == Tag(t)
    requires forall k :: 0 <= k < 5 ==> !Odd(RowSumAt(g0, g1, g2, c, k))
    ensures IsCheck(g0, g1, g2, c, t)
  {
    forall k | 0 <= k < 5
      ensures (c & Bit(k) != 0) <==> Odd(RowSumAt(g0, g1, g2, Tag(t), k))
    {
      RowSplitAt(g0, g1, g2, c, k);
    }
  }

  // ---------------------------------------------------------------------
  // Detecting a single flipped bit
  // ---------------------------------------------------------------------

  /** e has exactly one bit set. */
  predicate OneBit(e: bv8) {
    e == 0x01 || e == 0x02 || e == 0x04 || e == 0x08 || e == 0x10 || e == 0x20 || e == 0x40 || e == 0x80
  }

  lemma OneBitOdd(e: bv8)
    requires OneBit(e)
    ensures Odd(e)
  {
    FoldIsParity(e);
  }

  lemma AndXor(x: bv8, e: bv8, m: bv8)
    ensures (x ^ e) & m == (x & m) ^ (e & m)
  {
  }

  /** An XOR of one more term, wherever it joins the chain. */
  lemma XorJoin(a: bv8, b: bv8, c: bv8, d: bv8, f: bv8)
    ensures (((a ^ f) ^ b) ^ c) ^ d == (((a ^ b) ^ c) ^ d) ^ f
    ensures ((a ^ (b ^ f)) ^ c) ^ d == (((a ^ b) ^ c) ^ d) ^ f
    ensures ((a ^ b) ^ (c ^ f)) ^ d == (((a ^ b) ^ c) ^ d) ^ f
  {
  }

  /** A byte of the group flipped by e changes the row's XOR by the bits of
      e that the row's column selects: byte 0, ... */
  lemma RowFlip0(g0: bv8, g1: bv8, g2: bv8, c: bv8, m0: bv8, m1: bv8, m2: bv8, m3: bv8, e: bv8)
    ensures RowSum(g0 ^ e, g1, g2, c, m0, m1, m2, m3) == RowSum(g0, g1, g2, c, m0, m1, m2, m3) ^ (e & m0)
  {
    AndXor(g0, e, m0);
    XorJoin(g0 & m0, g1 & m1, g2 & m2, c & m3, e & m0);
  }

  /** ... byte 1, ... */
  lemma RowFlip1(g0: bv8, g1: bv8, g2: bv8, c: bv8, m0: bv8, m1: bv8, m2: bv8, m3: bv8, e: bv8)
    ensures RowSum(g0, g1 ^ e, g2, c, m0, m1, m2, m3) == RowSum(g0, g1, g2, c, m0, m1, m2, m3) ^ (e & m1)
  {
    AndXor(g1, e, m1);
    XorJoin(g0 & m0, g1 & m1, g2 & m2, c & m3, e & m1);
  }

  /** ... and byte 2. */
  lemma RowFlip2(g0: bv8, g1: bv8, g2: bv8, c: bv8, m0: bv8, m1: bv8, m2: bv8, m3: bv8, e: bv8)
    ensures RowSum(g0, g1, g2 ^ e, c, m0, m1, m2, m3) == RowSum(g0, g1, g2, c, m0, m1, m2, m3) ^ (e & m2)
  {
    AndXor(g2, e, m2);
    XorJoin(g0 & m0, g1 & m1, g2 & m2, c & m3, e & m2);
  }

  /** ... so a single flipped bit that the column selects flips the row's
      parity. */
  lemma FlipOdd(x: bv8, e: bv8, m: bv8)
    requires OneBit(e) && e & m != 0
    ensures Odd(x ^ (e & m)) != Odd(x)
  {
    assert e & m == e;
    OddXor(x, e);
    OneBitOdd(e);
  }

  /** A row of MASK whose data column col selects the bit e: one exists
      because each of the three data columns of MASK ORs to 0xff. */
  function CoverRow(e: bv8, col: nat): (k: nat)
    requires OneBit(e) && col < 3
    ensures k < 5 && e & MASK[k][col] != 0
  {
    if e & MASK[0][col] != 0 then 0
    else if e & MASK[1][col] != 0 then 1
    else if e & MASK[2][col] != 0 then 2
    else 3
  }

  /** The parity of a row over a group with one byte flipped by the single
      bit e differs from the parity over the group when the row's column
      for that byte selects e: byte 0, ... */
  lemma FlipRow0(g0: bv8, g1: bv8, g2: bv8, c: bv8, m0: bv8, m1: bv8, m2: bv8, m3: bv8, e: bv8)
    requires OneBit(e) && e & m0 != 0
    ensures Odd(RowSum(g0 ^ e, g1, g2, c, m0, m1, m2, m3)) != Odd(RowSum(g0, g1, g2, c, m0, m1, m2, m3))
  {
    RowFlip0(g0, g1, g2, c, m0, m1, m2, m3, e);
    FlipOdd(RowSum(g0, g1, g2, c, m0, m1, m2, m3), e, m0);
  }

  /** ... byte 1, ... */
  lemma FlipRow1(g0: bv8, g1: bv8, g2: bv8, c: bv8, m0: bv8, m1: bv8, m2: bv8, m3: bv8, e: bv8)
    requires OneBit(e) && e & m1 != 0
    ensures Odd(RowSum(g0, g1 ^ e, g2, c, m0, m1, m2, m3)) != Odd(RowSum(g0, g1, g2, c, m0, m1, m2, m3))
  {
    RowFlip1(g0, g1, g2, c, m0, m1, m2, m3, e);
    FlipOdd(RowSum(g0, g1, g2, c, m0, m1, m2, m3), e, m1);
  }

  /** ... and byte 2. */
  lemma FlipRow2(g0: bv8, g1: bv8, g2: bv8, c: bv8, m0: bv8, m1: bv8, m2: bv8, m3: bv8, e: bv8)
    requires OneBit(e) && e & m2 != 0
    ensures Odd(RowSum(g0, g1, g2 ^ e, c, m0, m1, m2, m3)) != Odd(RowSum(g0, g1, g2, c, m0, m1, m2, m3))
  {
    RowFlip2(g0, g1, g2, c, m0, m1, m2, m3, e);
    FlipOdd(RowSum(g0, g1, g2, c, m0, m1, m2, m3), e, m2);
  }

  /** Flipping one bit of byte 0 of a group makes row CoverRow(e, 0) wrong. */
  lemma Flip0Detected(g0: bv8, g1: bv8, g2: bv8, c: bv8, t: nat, e: bv8)
    requires IsCheck(g0, g1, g2, c, t) && OneBit(e)
    ensures !IsCheck(g0 ^ e, g1, g2, c, t)
  {
    var k := CoverRow(e, 0);
    assert (c & Bit(k) != 0) == Odd(RowSumAt(g0, g1, g2, Tag(t), k));
    FlipRow0(g0, g1, g2, Tag(t), MASK[k][0], MASK[k][1], MASK[k][2], MASK[k][3], e);
    assert (c & Bit(k) != 0) != Odd(RowSumAt(g0 ^ e, g1, g2, Tag(t), k));
  }

  /** ... of byte 1, row CoverRow(e, 1), ... */
  lemma Flip1Detected(g0: bv8, g1: bv8, g2: bv8, c: bv8, t: nat, e: bv8)
    requires IsCheck(g0, g1, g2, c, t) && OneBit(e)
    ensures !IsCheck(g0, g1 ^ e, g2, c, t)
  {
    var k := CoverRow(e, 1);
    assert (c & Bit(k) != 0) == Odd(RowSumAt(g0, g1, g2, Tag(t), k));
    FlipRow1(g0, g1, g2, Tag(t), MASK[k][0], MASK[k][1], MASK[k][2], MASK[k][3], e);
    assert (c & Bit(k) != 0) != Odd(RowSumAt(g0, g1 ^ e, g2, Tag(t), k));
  }

  /** ... of byte 2, row CoverRow(e, 2). */
  lemma Flip2Detected(g0: bv8, g1: bv8, g2: bv8, c: bv8, t: nat, e: bv8)
    requires IsCheck(g0, g1, g2, c, t) && OneBit(e)
    ensures !IsCheck(g0, g1, g2 ^ e, c, t)
  {
    var k := CoverRow(e, 2);
    assert (c & Bit(k) != 0) == Odd(RowSumAt(g0, g1, g2, Tag(t), k));
    FlipRow2(g0, g1, g2, Tag(t), MASK[k][0], MASK[k][1], MASK[k][2], MASK[k][3], e);
    assert (c & Bit(k) != 0) != Odd(RowSumAt(g0, g1, g2 ^ e, Tag(t), k));
  }

  /** A check byte with a tag bit flipped has the wrong tag, ... */
  lemma FlipTagDetected(g0: bv8, g1: bv8, g2: bv8, c: bv8, t: nat, e: bv8)
    requires IsCheck(g0, g1, g2, c, t) && e & 7 != 0
    ensures !IsCheck(g0, g1, g2, c ^ e, t)
  {
    assert (c ^ e) & 7 != c & 7;
  }

  /** ... and one with parity bit k flipped disagrees with row k, which
      does not depend on the check byte's parity bits. */
  lemma FlipParityDetected(g0: bv8, g1: bv8, g2: bv8, c: bv8, t: nat, k: nat)
    requires IsCheck(g0, g1, g2, c, t) && k < 5
    ensures !IsCheck(g0, g1, g2, c ^ Bit(k), t)
  {
    assert (c & Bit(k) != 0) == Odd(RowSumAt(g0, g1, g2, Tag(t), k));
    assert ((c ^ Bit(k)) & Bit(k) != 0) != (c & Bit(k) != 0);
  }

  /** So flipping one bit of the check byte is detected. */
  lemma FlipCheckDetected(g0: bv8, g1: bv8, g2: bv8, c: bv8, t: nat, e: bv8)
    requires IsCheck(g0, g1, g2, c, t) && OneBit(e)
    ensures !IsCheck(g0, g1, g2, c ^ e, t)
  {
    if e & 7 != 0 {
      FlipTagDetected(g0, g1, g2, c, t, e);
    } else {
      var k := if e == 0x08 then 0 else if e == 0x10 then 1 else if e == 0x20 then 2 else if e == 0x40 then 3 else 4;
      assert e == Bit(k);
      FlipParityDetected(g0, g1, g2, c, t, k);
    }
  }

  /** The code detects every single-bit error in a group: flipping one bit
      of any of its three bytes or of its check byte leaves a byte that is
      not the group's check byte. */
  lemma SingleBitDetected(g0: bv8, g1: bv8, g2: bv8, c: bv8, t: nat, e: bv8)
    requires IsCheck(g0, g1, g2, c, t) && OneBit(e)
    ensures !IsCheck(g0 ^ e, g1, g2, c, t)
    ensures !IsCheck(g0, g1 ^ e, g2, c, t)
    ensures !IsCheck(g0, g1, g2 ^ e, c, t)
    ensures !IsCheck(g0, g1, g2, c ^ e, t)
  {
    Flip0Detected(g0, g1, g2, c, t, e);
    Flip1Detected(g0, g1, g2, c, t, e);
    Flip2Detected(g0, g1, g2, c, t, e);
    FlipCheckDetected(g0, g1, g2, c, t, e);
  }

  // ---------------------------------------------------------------------
  // The two XOR orders of the source's loops
  // ---------------------------------------------------------------------

  /** The check byte's part first, then the group bytes in order: the
      firmware's verifier (serial.cpp) and the host's encoder
      (printer3d.py, make_packet). */
  function CheckFirstXor(g0: bv8, g1: bv8, g2: bv8, c: bv8, m0: bv8, m1: bv8, m2: bv8, m3: bv8): bv8 {
    (((c & m3) ^ (g0 & m0)) ^ (g1 & m1)) ^ (g2 & m2)
  }

  /** From 0, the group bytes in order, then the check byte's part: the
      firmware's encoder (serial.cpp, prepare_packet) and the host's verifier
      (printer3d.py, parse_packet). */
  function CheckLastXor(g0: bv8, g1: bv8, g2: bv8, c: bv8, m0: bv8, m1: bv8, m2: bv8, m3: bv8): bv8 {
    (((g0 & m0) ^ (g1 & m1)) ^ (g2 & m2)) ^ (c & m3)
  }

  function CheckFirstAt(g0: bv8, g1: bv8, g2: bv8, c: bv8, k: nat): bv8
    requires k < 5
  {
    CheckFirstXor(g0, g1, g2, c, MASK[k][0], MASK[k][1], MASK[k][2], MASK[k][3])
  }

  function CheckLastAt(g0: bv8, g1: bv8, g2: bv8, c: bv8, k: nat): bv8
    requires k < 5
  {
    CheckLastXor(g0, g1, g2, c, MASK[k][0], MASK[k][1], MASK[k][2], MASK[k][3])
  }

  /** Both orders compute the row's XOR: XOR is associative and
      commutative. */
  lemma CheckFirstIsRow(g0: bv8, g1: bv8, g2: bv8, c: bv8, m0: bv8, m1: bv8, m2: bv8, m3: bv8)
    ensures CheckFirstXor(g0, g1, g2, c, m0, m1, m2, m3) == RowSum(g0, g1, g2, c, m0, m1, m2, m3)
  {
  }

  lemma CheckLastIsRow(g0: bv8, g1: bv8, g2: bv8, c: bv8, m0: bv8, m1: bv8, m2: bv8, m3: bv8)
    ensures CheckLastXor(g0, g1, g2, c, m0, m1, m2, m3) == RowSum(g0, g1, g2, c, m0, m1, m2, m3)
  {
  }

  /** The folded value of either order has bit 0 set exactly when the row's
      selected bits have odd parity. */
  lemma FoldFirst(g0: bv8, g1: bv8, g2: bv8, c: bv8, k: nat)
    requires k < 5
    ensures (Fold(CheckFirstAt(g0, g1, g2, c, k)) & 1 != 0) == Odd(RowSumAt(g0, g1, g2, c, k))
  {
    FoldIsParity(CheckFirstAt(g0, g1, g2, c, k));
    CheckFirstIsRow(g0, g1, g2, c, MASK[k][0], MASK[k][1], MASK[k][2], MASK[k][3]);
  }

  lemma FoldLast(g0: bv8, g1: bv8, g2: bv8, c: bv8, k: nat)
    requires k < 5
    ensures (Fold(CheckLastAt(g0, g1, g2, c, k)) & 1 != 0) == Odd(RowSumAt(g0, g1, g2, c, k))
  {
    FoldIsParity(CheckLastAt(g0, g1, g2, c, k));
    CheckLastIsRow(g0, g1, g2, c, MASK[k][0], MASK[k][1], MASK[k][2], MASK[k][3]);
  }

  // ---------------------------------------------------------------------
  // The verifiers
  // ---------------------------------------------------------------------

  /** The firmware's test of one group (serial.cpp, serial()): the tag
      matches and each of the five folded rows is even. */
  predicate GroupOk(g0: bv8, g1: bv8, g2: bv8, c: bv8, t: nat) {
    c & 7 == Tag(t) && forall k :: 0 <= k < 5 ==> Fold(CheckFirstAt(g0, g1, g2, c, k)) & 1 == 0
  }

  /** The firmware's group test accepts exactly the check byte. */
  lemma GroupOkIff(g0: bv8, g1: bv8, g2: bv8, c: bv8, t: nat)
    ensures GroupOk(g0, g1, g2, c, t) <==> IsCheck(g0, g1, g2, c, t)
  {
    forall k | 0 <= k < 5 {
      FoldFirst(g0, g1, g2, c, k);
    }
    if IsCheck(g0, g1, g2, c, t) {
      forall k | 0 <= k < 5 ensures !Odd(RowSumAt(g0, g1, g2, c, k)) {
        CheckEven(g0, g1, g2, c, t, k);
      }
    }
    if GroupOk(g0, g1, g2, c, t) {
      EvenIsCheck(g0, g1, g2, c, t);
    }
  }

  /** The host's test of one group (printer3d.py, parse_packet), where the
      four bytes of r are the group and its check byte. */
  predicate ParseGroupOk(g0: bv8, g1: bv8, g2: bv8, c: bv8, t: nat) {
    c & 7 == Tag(t) && forall k :: 0 <= k < 5 ==> Fold(CheckLastAt(g0, g1, g2, c, k)) & 1 == 0
  }

  /** The host's group test accepts exactly the check byte. */
  lemma ParseGroupOkIff(g0: bv8, g1: bv8, g2: bv8, c: bv8, t: nat)
    ensures ParseGroupOk(g0, g1, g2, c, t) <==> IsCheck(g0, g1, g2, c, t)
  {
    forall k | 0 <= k < 5 {
      FoldLast(g0, g1, g2, c, k);
    }
    if IsCheck(g0, g1, g2, c, t) {
      forall k | 0 <= k < 5 ensures !Odd(RowSumAt(g0, g1, g2, c, k)) {
        CheckEven(g0, g1, g2, c, t, k);
      }
    }
    if ParseGroupOk(g0, g1, g2, c, t) {
      EvenIsCheck(g0, g1, g2, c, t);
    }
  }

  // ---------------------------------------------------------------------
  // The encoders: the check byte is built one parity bit at a time
  // ---------------------------------------------------------------------

  /** After rows 0..k-1: the tag, and the parity bits of those rows. */
  ghost predicate EncodedUpTo(g0: bv8, g1: bv8, g2: bv8, s: bv8, t: nat, k: nat) {
    s & 7 == Tag(t)
    && forall j :: 0 <= j < 5 ==> ((s & Bit(j) != 0) <==> (j < k && Odd(RowSumAt(g0, g1, g2, Tag(t), j))))
  }

  lemma OrBit(s: bv8, b: bool, k: nat, j: nat)
    requires k < 5 && j < 5
    ensures (s | BitIf(b, Bit(k))) & 7 == s & 7
    ensures ((s | BitIf(b, Bit(k))) & Bit(j) != 0) == ((s & Bit(j) != 0) || (j == k && b))
  {
  }

  /** Setting parity bit k by the parity of row k over the byte built so far
      extends the encoding by one row: row k's check column sees no later
      parity bit, so that parity is the one over the tag alone. */
  lemma EncodeStep(g0: bv8, g1: bv8, g2: bv8, s: bv8, t: nat, k: nat)
    requires k < 5 && EncodedUpTo(g0, g1, g2, s, t, k)
    ensures EncodedUpTo(g0, g1, g2, s | BitIf(Odd(RowSumAt(g0, g1, g2, s, k)), Bit(k)), t, k + 1)
  {
    RowSplitAt(g0, g1, g2, s, k);
    assert Odd(RowSumAt(g0, g1, g2, s, k)) == Odd(RowSumAt(g0, g1, g2, Tag(t), k));
    EncodeStepBits(g0, g1, g2, s, t, k, Odd(RowSumAt(g0, g1, g2, s, k)));
  }

  lemma EncodeStepBits(g0: bv8, g1: bv8, g2: bv8, s: bv8, t: nat, k: nat, b: bool)
    requires k < 5 && EncodedUpTo(g0, g1, g2, s, t, k)
    requires b == Odd(RowSumAt(g0, g1, g2, Tag(t), k))
    ensures EncodedUpTo(g0, g1, g2, s | BitIf(b, Bit(k)), t, k + 1)
  {
    forall j | 0 <= j < 5
      ensures ((s | BitIf(b, Bit(k))) & Bit(j) != 0) <==> (j < k + 1 && Odd(RowSumAt(g0, g1, g2, Tag(t), j)))
    {
      OrBit(s, b, k, j);
    }
    OrBit(s, b, k, 0);
  }

  /** The firmware's encoder (prepare_packet) after rows 0..k-1: sum starts
      as the tag, and row k's fold over the group and sum sets bit k + 3. */
  function PrepareUpTo(g0: bv8, g1: bv8, g2: bv8, t: nat, k: nat): bv8
    requires k <= 5
  {
    if k == 0 then Tag(t)
    else
      var s := PrepareUpTo(g0, g1, g2, t, k - 1);
      s | BitIf(Fold(CheckLastAt(g0, g1, g2, s, k - 1)) & 1 != 0, Bit(k - 1))
  }

  /** The host's encoder (make_packet) after rows 0..k-1. */
  function MakeUpTo(g0: bv8, g1: bv8, g2: bv8, t: nat, k: nat): bv8
    requires k <= 5
  {
    if k == 0 then Tag(t)
    else
      var s := MakeUpTo(g0, g1, g2, t, k - 1);
      s | BitIf(Fold(CheckFirstAt(g0, g1, g2, s, k - 1)) & 1 != 0, Bit(k - 1))
  }

  lemma {:induction false} PrepareEncodes(g0: bv8, g1: bv8, g2: bv8, t: nat, k: nat)
    requires k <= 5
    ensures EncodedUpTo(g0, g1, g2, PrepareUpTo(g0, g1, g2, t, k), t, k)
  {
    if k > 0 {
      PrepareEncodes(g0, g1, g2, t, k - 1);
      var s := PrepareUpTo(g0, g1, g2, t, k - 1);
      FoldLast(g0, g1, g2, s, k - 1);
      EncodeStep(g0, g1, g2, s, t, k - 1);
    }
  }

  lemma {:induction false} MakeEncodes(g0: bv8, g1: bv8, g2: bv8, t: nat, k: nat)
    requires k <= 5
    ensures EncodedUpTo(g0, g1, g2, MakeUpTo(g0, g1, g2, t, k), t, k)
  {
    if k > 0 {
      MakeEncodes(g0, g1, g2, t, k - 1);
      var s := MakeUpTo(g0, g1, g2, t, k - 1);
      FoldFirst(g0, g1, g2, s, k - 1);
      EncodeStep(g0, g1, g2, s, t, k - 1);
    }
  }

  /** The firmware's encoder computes the check byte. */
  lemma PrepareIsCheck(g0: bv8, g1: bv8, g2: bv8, t: nat)
    ensures IsCheck(g0, g1, g2, PrepareUpTo(g0, g1, g2, t, 5), t)
  {
    PrepareEncodes(g0, g1, g2, t, 5);
  }

  /** The host's encoder computes the check byte. */
  lemma MakeIsCheck(g0: bv8, g1: bv8, g2: bv8, t: nat)
    ensures IsCheck(g0, g1, g2, MakeUpTo(g0, g1, g2, t, 5), t)
  {
    MakeEncodes(g0, g1, g2, t, 5);
  }

  // ---------------------------------------------------------------------
  // Frame arithmetic
  // ---------------------------------------------------------------------

  /** The number of check bytes of a frame of length L: (L + 2) / 3. */
  function NumChecks(L: nat): nat {
    (L + 2) / 3
  }

  /** The bytes on the wire for a frame of length L. */
  function FrameLen(L: nat): nat {
    L + NumChecks(L)
  }

  /** A length the firmware accepts as the first byte of a frame. */
  predicate LegalLen(L: nat) {
    L == 3 || 5 <= L < 0x80
  }

  /** Every group t reads bytes 3t..3t+2, and all of them lie before check
      byte t (index L + t), so they are data or earlier check bytes. */
  predicate ReadsPrecede(L: nat) {
    forall t :: 0 <= t < NumChecks(L) ==> 3 * t + 2 < L + t
  }

  /** The encoder's reads precede its writes exactly for the lengths 3 and 5
      upward; 1, 2 and 4 are the lengths the protocol forbids. */
  lemma ReadsPrecedeIff(L: nat)
    requires L >= 1
    ensures ReadsPrecede(L) <==> (L == 3 || L >= 5)
  {
    var n := NumChecks(L);
    if L == 3 || L >= 5 {
      forall t | 0 <= t < n ensures 3 * t + 2 < L + t {
        assert 3 * n <= L + 2;
      }
    } else {
      assert 3 * (n - 1) + 2 >= L + (n - 1);
    }
  }

  lemma LegalFrameFits(L: nat)
    requires LegalLen(L)
    ensures ReadsPrecede(L)
    ensures 3 * NumChecks(L) <= FrameLen(L) <= 170
  {
    ReadsPrecedeIff(L);
  }

}

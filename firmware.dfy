/** The device side of the serial link, firmware/serial.cpp: the receive
    state machine serial(), the encoder prepare_packet, send_packet, the
    multiplexer try_send_next, write_ack and write_ackwait, over the
    file-static and global state they update in place. */
module Firmware {
  import opened FirmwareConfig
  import opened Bits
  import opened Codec
  import opened Frame
  import opened Outbound

  /** The size assumed for out_buffer and reply: the longest frame, of
      length 127, with its 43 check bytes. */
  const BUF_SIZE: nat := 170

  /** micros() is an unsigned long: time values wrap at 2^32. */
  const TIME_WRAP: nat := 0x1_0000_0000

  /** `now - since` on unsigned long: the difference modulo 2^32, which is
      the plain difference when no wrap happened in between. */
  function Elapsed(now: nat, since: nat): (r: nat)
    ensures r < TIME_WRAP
    ensures now < TIME_WRAP && since < TIME_WRAP ==> (r + since) % TIME_WRAP == now
    ensures since <= now < TIME_WRAP ==> r == now - since
  {
    (now - since) % TIME_WRAP
  }

  // ---------------------------------------------------------------------
  // The byte loops of one parity row
  // ---------------------------------------------------------------------

  /** Entry i of three: byte i of a group, or its mask. */
  function Pick(x0: bv8, x1: bv8, x2: bv8, i: nat): bv8
    requires i < 3
  {
    if i == 0 then x0 else if i == 1 then x1 else x2
  }

  /** MASK[k][p] for a byte of the group is the pick of the row's masks. */
  lemma MaskPick(k: nat, p: nat)
    requires k < 5 && p < 3
    ensures MASK[k][p] == Pick(MASK[k][0], MASK[k][1], MASK[k][2], p)
  {
  }

  /** One step of a row loop: check ^= x & m. */
  function Mix(check: bv8, x: bv8, m: bv8): bv8 {
    check ^ (x & m)
  }

  /** A row loop over the group bytes g0, g1, g2 with masks m0, m1, m2,
      started from `init`, after its first p steps. */
  function XorUpTo(g0: bv8, g1: bv8, g2: bv8, init: bv8, m0: bv8, m1: bv8, m2: bv8, p: nat): bv8
    requires p <= 3
  {
    if p == 0 then init
    else if p == 1 then Mix(init, g0, m0)
    else if p == 2 then Mix(Mix(init, g0, m0), g1, m1)
    else Mix(Mix(Mix(init, g0, m0), g1, m1), g2, m2)
  }

  /** Step p of the loop XORs in byte p under mask p. */
  lemma XorStep(g0: bv8, g1: bv8, g2: bv8, init: bv8, m0: bv8, m1: bv8, m2: bv8, p: nat)
    requires p < 3
    ensures XorUpTo(g0, g1, g2, init, m0, m1, m2, p + 1)
      == Mix(XorUpTo(g0, g1, g2, init, m0, m1, m2, p), Pick(g0, g1, g2, p), Pick(m0, m1, m2, p))
  {
    if p == 0 {
      assert Pick(g0, g1, g2, p) == g0 && Pick(m0, m1, m2, p) == m0;
    } else if p == 1 {
      assert Pick(g0, g1, g2, p) == g1 && Pick(m0, m1, m2, p) == m1;
    } else {
      assert Pick(g0, g1, g2, p) == g2 && Pick(m0, m1, m2, p) == m2;
    }
  }

  /** The verifier's order: the check byte's part, then the group. */
  lemma XorFirst(g0: bv8, g1: bv8, g2: bv8, c: bv8, m0: bv8, m1: bv8, m2: bv8, m3: bv8)
    ensures XorUpTo(g0, g1, g2, c & m3, m0, m1, m2, 3) == CheckFirstXor(g0, g1, g2, c, m0, m1, m2, m3)
  {
  }

  lemma MixZero(x: bv8, m: bv8)
    ensures Mix(0, x, m) == x & m
  {
  }

  /** The encoder's order: the group from 0, then the check byte's part. */
  lemma XorLast(g0: bv8, g1: bv8, g2: bv8, c: bv8, m0: bv8, m1: bv8, m2: bv8, m3: bv8)
    ensures Mix(XorUpTo(g0, g1, g2, 0, m0, m1, m2, 3), c, m3) == CheckLastXor(g0, g1, g2, c, m0, m1, m2, m3)
  {
    MixZero(g0, m0);
  }

  lemma XorLastAt(g0: bv8, g1: bv8, g2: bv8, c: bv8, k: nat)
    requires k < 5
    ensures CheckLastAt(g0, g1, g2, c, k) == Mix(XorUpTo(g0, g1, g2, 0, MASK[k][0], MASK[k][1], MASK[k][2], 3), c, MASK[k][3])
  {
    XorLast(g0, g1, g2, c, MASK[k][0], MASK[k][1], MASK[k][2], MASK[k][3]);
  }

  lemma XorFirstAt(g0: bv8, g1: bv8, g2: bv8, c: bv8, k: nat)
    requires k < 5
    ensures XorUpTo(g0, g1, g2, c & MASK[k][3], MASK[k][0], MASK[k][1], MASK[k][2], 3) == CheckFirstAt(g0, g1, g2, c, k)
  {
    XorFirst(g0, g1, g2, c, MASK[k][0], MASK[k][1], MASK[k][2], MASK[k][3]);
  }

  /** The source's fold of a row: after it, bit 0 is the parity of x. */
  method FoldBits(x: bv8) returns (check: bv8)
    ensures check == Fold(x)
    ensures (check & 1 != 0) == Odd(x)
  {
    check := x;
    check := check ^ (check >> 4);
    check := check ^ (check >> 2);
    check := check ^ (check >> 1);
    FoldIsParity(x);
  }

  /** The innermost loop of both checksum loops (serial.cpp:164-165 and
      245-246): XOR into `init` the bytes a[base .. base + 2] under row k's
      masks. */
  method GroupXor(a: array<bv8>, base: nat, init: bv8, k: nat) returns (check: bv8)
    requires base + 2 < a.Length && k < 5
    ensures check == XorUpTo(a[base], a[base + 1], a[base + 2], init, MASK[k][0], MASK[k][1], MASK[k][2], 3)
  {
    check := init;
    var p := 0;
    while p < 3
      invariant p <= 3
      invariant check == XorUpTo(a[base], a[base + 1], a[base + 2], init, MASK[k][0], MASK[k][1], MASK[k][2], p)
    {
      assert a[base + p] == Pick(a[base], a[base + 1], a[base + 2], p);
      MaskPick(k, p);
      XorStep(a[base], a[base + 1], a[base + 2], init, MASK[k][0], MASK[k][1], MASK[k][2], p);
      check := Mix(check, a[base + p], MASK[k][p]);
      p := p + 1;
    }
  }

  /** The verifier's test of row k for the group at a[base ..] and its check
      byte c (serial.cpp:163-169): true when the folded row is odd, that is,
      when the bits the row selects from the group and c have odd parity. */
  method RowOdd(a: array<bv8>, base: nat, c: bv8, k: nat) returns (odd: bool)
    requires base + 2 < a.Length && k < 5
    ensures odd == (Fold(CheckFirstAt(a[base], a[base + 1], a[base + 2], c, k)) & 1 != 0)
  {
    var check := GroupXor(a, base, c & MASK[k][3], k);
    XorFirstAt(a[base], a[base + 1], a[base + 2], c, k);
    check := FoldBits(check);
    odd := check & 1 != 0;
  }

  /** The encoder's parity of row k over the group at a[base ..] and the
      check byte built so far, sum (serial.cpp:244-252). */
  method RowParity(a: array<bv8>, base: nat, sum: bv8, k: nat) returns (odd: bool)
    requires base + 2 < a.Length && k < 5
    ensures odd == (Fold(CheckLastAt(a[base], a[base + 1], a[base + 2], sum, k)) & 1 != 0)
  {
    var check := GroupXor(a, base, 0, k);
    check := Mix(check, sum, MASK[k][3]);
    XorLastAt(a[base], a[base + 1], a[base + 2], sum, k);
    check := FoldBits(check);
    odd := check & 1 != 0;
  }

  /** 1 << (bit + 3) is parity bit `bit` of a check byte. */
  lemma ShiftIsBit(k: nat)
    requires k < 5
    ensures (1 as bv8) << (k + 3) == Bit(k)
  {
  }

  // ---------------------------------------------------------------------
  // The checksum loops over a buffer
  // ---------------------------------------------------------------------

  /** prepare_packet's loop over the five rows for group t
      (serial.cpp:241-254): sum starts as the tag t & 7 and row k's parity
      sets bit k + 3.  The byte is the check byte of the group as the buffer
      stands. */
  method CheckByte(a: array<bv8>, L: nat, t: nat) returns (sum: bv8)
    requires Fits(a[..], L) && t < NumChecks(L)
    ensures sum == PrepareAt(a[..], L, t)
    ensures IsCheck(a[3 * t], a[3 * t + 1], a[3 * t + 2], sum, t)
  {
    ghost var g0, g1, g2 := a[3 * t], a[3 * t + 1], a[3 * t + 2];
    sum := Tag(t);
    var bit := 0;
    while bit < 5
      invariant bit <= 5
      invariant sum == PrepareUpTo(g0, g1, g2, t, bit)
    {
      var odd := RowParity(a, 3 * t, sum, bit);
      PrepareStep(g0, g1, g2, t, bit, sum, odd);
      if odd {
        ShiftIsBit(bit);
        sum := sum | ((1 as bv8) << (bit + 3));
      }
      bit := bit + 1;
    }
    PrepareIsCheck(g0, g1, g2, t);
  }

  /** One row of prepare_packet's loop: an odd row sets its parity bit. */
  lemma PrepareStep(g0: bv8, g1: bv8, g2: bv8, t: nat, k: nat, s: bv8, odd: bool)
    requires k < 5 && s == PrepareUpTo(g0, g1, g2, t, k)
    requires odd == (Fold(CheckLastAt(g0, g1, g2, s, k)) & 1 != 0)
    ensures PrepareUpTo(g0, g1, g2, t, k + 1) == if odd then s | Bit(k) else s
  {
  }

  /** The first n rows of the verifier's test pass. */
  predicate RowsEven(g0: bv8, g1: bv8, g2: bv8, c: bv8, n: nat) {
    forall k :: 0 <= k < n && k < 5 ==> Fold(CheckFirstAt(g0, g1, g2, c, k)) & 1 == 0
  }

  lemma RowsEvenStep(g0: bv8, g1: bv8, g2: bv8, c: bv8, n: nat, odd: bool)
    requires n < 5 && RowsEven(g0, g1, g2, c, n) && !odd
    requires odd == (Fold(CheckFirstAt(g0, g1, g2, c, n)) & 1 != 0)
    ensures RowsEven(g0, g1, g2, c, n + 1)
  {
  }

  lemma RowsEvenAll(g0: bv8, g1: bv8, g2: bv8, c: bv8, t: nat)
    requires RowsEven(g0, g1, g2, c, 5) && c & 7 == Tag(t)
    ensures GroupOk(g0, g1, g2, c, t)
  {
  }

  /** serial()'s test of group t (serial.cpp:155-174): the tag, then the
      five rows; it stops at the first failure. */
  method GroupCheck(a: array<bv8>, L: nat, t: nat) returns (ok: bool)
    requires Fits(a[..], L) && t < NumChecks(L)
    ensures ok == GroupOkAt(a[..], L, t)
  {
    ghost var g0, g1, g2 := a[3 * t], a[3 * t + 1], a[3 * t + 2];
    var sum := a[L + t];
    if sum & 7 != Tag(t) {
      return false;
    }
    var bit := 0;
    while bit < 5
      invariant bit <= 5
      invariant RowsEven(g0, g1, g2, sum, bit)
    {
      var odd := RowOdd(a, 3 * t, sum, bit);
      if odd {
        return false;
      }
      RowsEvenStep(g0, g1, g2, sum, bit, odd);
      bit := bit + 1;
    }
    RowsEvenAll(g0, g1, g2, sum, t);
    return true;
  }

  /** serial()'s checksum loop over a received frame of length L
      (serial.cpp:152-176): it accepts exactly the frames whose every check
      byte is the check byte of its group. */
  method FrameCheck(a: array<bv8>, L: nat) returns (ok: bool)
    requires Fits(a[..], L)
    ensures ok == FrameOk(a[..], L)
    ensures ok == FrameChecked(a[..], L)
  {
    FrameOkIff(a[..], L);
    var t := 0;
    while t < NumChecks(L)
      invariant t <= NumChecks(L)
      invariant forall j :: 0 <= j < t ==> GroupOkAt(a[..], L, j)
    {
      ok := GroupCheck(a, L, t);
      if !ok {
        return;
      }
      t := t + 1;
    }
    ok := true;
  }

  /** A buffer of BUF_SIZE bytes has room for any frame whose length fits
      the 7-bit length field. */
  lemma SmallFits(b: seq<bv8>, L: nat)
    requires L < 0x80 && |b| >= BUF_SIZE
    ensures Fits(b, L) && FrameLen(L) <= BUF_SIZE
  {
  }

  // ---------------------------------------------------------------------
  // prepare_packet and send_packet on values
  // ---------------------------------------------------------------------

  /** The length field of a frame in a buffer: byte 0 & COMMAND_LEN_MASK. */
  function LenOf(b: seq<bv8>): (L: nat)
    requires |b| > 0
    ensures L < 0x80
  {
    (b[0] & 0x7f) as nat
  }

  /** prepare_packet: unless byte 0 is COMMAND_SIZE or more, put the
      flip-flop ff into bit 7 of byte 1 and stamp the check bytes. */
  function Prepared(b: seq<bv8>, ff: bv8, commandSize: nat): (r: seq<bv8>)
    requires |b| >= BUF_SIZE
    ensures |r| == |b|
  {
    if b[0] as nat >= commandSize then b
    else
      var flipped := b[1 := (b[1] & 0x7f) ^ ff];
      SmallFits(flipped, LenOf(b));
      Stamp(flipped, LenOf(b))
  }

  /** The bytes send_packet writes: the frame whose length byte 0 gives. */
  function Sent(b: seq<bv8>): (r: seq<bv8>)
    requires |b| >= BUF_SIZE
    ensures |r| == FrameLen(LenOf(b))
  {
    SmallFits(b, LenOf(b));
    b[..FrameLen(LenOf(b))]
  }

  /** The first FrameLen(L) bytes of a stamped buffer are a frame the
      firmware's check accepts, with the first L bytes of the buffer. */
  lemma StampedFrame(f: seq<bv8>, L: nat)
    requires LegalLen(L) && FrameLen(L) <= |f|
    ensures Fits(f, L) && Fits(Stamp(f, L)[..FrameLen(L)], L)
    ensures Stamp(f, L)[..L] == f[..L]
    ensures FrameOk(Stamp(f, L)[..FrameLen(L)], L) && FrameChecked(Stamp(f, L)[..FrameLen(L)], L)
  {
    StampVerifies(f, L);
    LegalFits(Stamp(f, L), L);
    TruncateFrame(Stamp(f, L), L);
  }

  /** The frame built for a source of try_send_next, once prepared, is a
      frame the firmware's own check accepts: its length is the payload's,
      its first L bytes are the payload with the flip-flop in bit 7 of the
      command byte, and every check byte is right. */
  lemma PreparedPayload(b: seq<bv8>, head: seq<bv8>, ff: bv8, commandSize: nat)
    requires |b| >= BUF_SIZE && (|head| == 3 || |head| == 7) && head[0] == |head| as bv8
    requires b[..|head|] == head && ff & 0x7f == 0 && |head| < commandSize
    ensures var r := Sent(Prepared(b, ff, commandSize));
      var L := |head|;
      LegalLen(L) && Fits(r, L) && |r| == FrameLen(L)
      && r[..L] == head[1 := (head[1] & 0x7f) | ff]
      && FrameOk(r, L) && FrameChecked(r, L)
  {
    var L := |head|;
    PrefixAt(b, head, L, 0);
    LenOfHead(b, L);
    var flipped := b[1 := (b[1] & 0x7f) ^ ff];
    PreparedIsStamp(b, ff, commandSize, L);
    StampedFrame(flipped, L);
    var p := Prepared(b, ff, commandSize);
    PrefixAt(p, flipped, L, 0);
    SentIs(p, L);
    PrefixAt(b, head, L, 1);
    FlipBit(b[1], ff);
    UpdatePrefix(b, head, (b[1] & 0x7f) ^ ff);
  }

  lemma PrefixAt(x: seq<bv8>, y: seq<bv8>, L: nat, i: nat)
    requires i < L <= |x| && L <= |y| && x[..L] == y[..L]
    ensures x[i] == y[i]
  {
    assert x[i] == x[..L][i];
  }

  lemma UpdatePrefix(b: seq<bv8>, head: seq<bv8>, x: bv8)
    requires 1 < |head| <= |b| && b[..|head|] == head
    ensures b[1 := x][..|head|] == head[1 := x]
  {
  }

  lemma SentIs(p: seq<bv8>, L: nat)
    requires |p| >= BUF_SIZE && LenOf(p) == L
    ensures FrameLen(L) <= |p| && Sent(p) == p[..FrameLen(L)]
  {
  }

  lemma LenOfHead(b: seq<bv8>, L: nat)
    requires |b| > 0 && (L == 3 || L == 7) && b[0] == L as bv8
    ensures LenOf(b) == L
  {
  }

  lemma PreparedIsStamp(b: seq<bv8>, ff: bv8, commandSize: nat, L: nat)
    requires |b| >= BUF_SIZE && LenOf(b) == L && (b[0] as nat) < commandSize && L < 0x80
    ensures Fits(b[1 := (b[1] & 0x7f) ^ ff], L)
    ensures Prepared(b, ff, commandSize) == Stamp(b[1 := (b[1] & 0x7f) ^ ff], L)
  {
    SmallFits(b[1 := (b[1] & 0x7f) ^ ff], L);
  }

  lemma FlipBit(x: bv8, ff: bv8)
    requires ff & 0x7f == 0
    ensures (x & 0x7f) ^ ff == (x & 0x7f) | ff
  {
  }
}

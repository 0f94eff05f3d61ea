/** The host's frame codec (printer3d.py, Printer.make_packet and
    Printer.parse_packet).  The host builds a frame by appending each check
    byte as soon as it is computed, so a later group may read an earlier
    check byte, exactly as in the firmware's in-place encoder.  Where the
    Python code raises an exception, the model returns it as a value. */
module HostCodec {
  import opened Codec
  import opened Frame
  import opened Firmware

  /** The exceptions the host's code can raise on the paths modelled. */
  datatype HostError = IndexError | ValueError | AssertionError | AttributeError | StructError

  /** make_packet: the frame, or the exception it raises. */
  datatype Made = Made(frame: seq<bv8>) | MakeRaises(error: HostError)

  /** parse_packet: the payload, None, or the exception it raises. */
  datatype Parsed = Payload(data: seq<bv8>) | Rejected | ParseRaises(error: HostError)

  // ---------------------------------------------------------------------
  // The specification functions
  // ---------------------------------------------------------------------

  /** make_packet's check byte of group t over the bytes g0, g1, g2. */
  function MakeByte(g0: bv8, g1: bv8, g2: bv8, t: nat): bv8 {
    MakeUpTo(g0, g1, g2, t, 5)
  }

  /** make_packet's loop from group t to n: the byte `check` computes over
      data[3t .. 3t + 2] as data stands is appended.  Reading past the end
      raises IndexError.  The facts about the loop below hold for any
      `check`; make_packet's is MakeByte. */
  function Extend(check: (bv8, bv8, bv8, nat) -> bv8, d: seq<bv8>, t: nat, n: nat): Made
    decreases n - t
  {
    if t >= n then Made(d)
    else if 3 * t + 2 >= |d| then MakeRaises(IndexError)
    else Extend(check, d + [check(d[3 * t], d[3 * t + 1], d[3 * t + 2], t)], t + 1, n)
  }

  /** Python's chr for the codes it accepts: the byte with value n. */
  function Chr(n: nat): (r: bv8)
    requires n < 256
    ensures r as int == n
  {
    if n == 0 then 0 else Chr(n - 1) + 1
  }

  /** make_packet: prefix the length |data| + 1 (chr raises ValueError when
      it is 256 or more) and append NumChecks of it check bytes. */
  function MakeFrame(data: seq<bv8>): Made {
    if |data| + 1 >= 256 then MakeRaises(ValueError)
    else
      var d := [Chr(|data| + 1)] + data;
      Extend(MakeByte, d, 0, NumChecks(|d|))
  }

  /** parse_packet's loop from check byte t on, for a buffer whose length
      matches its first byte L: the tag, then the four bytes of the group and
      its check byte (IndexError when the group's slice is short), then the
      five rows. */
  function CheckFrom(b: seq<bv8>, L: nat, t: nat): Parsed
    requires 1 <= L <= |b|
    decreases |b| - (L + t)
  {
    if L + t >= |b| then Payload(b[1..L])
    else if b[L + t] & 7 != Tag(t) then Rejected
    else if 3 * t + 3 > |b| then ParseRaises(IndexError)
    else if !ParseGroupOk(b[3 * t], b[3 * t + 1], b[3 * t + 2], b[L + t], t) then Rejected
    else CheckFrom(b, L, t + 1)
  }

  /** parse_packet: IndexError on an empty buffer, None when the length
      byte does not account for the buffer's length, else the checks. */
  function ParseFrame(b: seq<bv8>): Parsed {
    if |b| == 0 then ParseRaises(IndexError)
    else if FrameLen(b[0] as nat) != |b| then Rejected
    else CheckFrom(b, b[0] as nat, 0)
  }

  // ---------------------------------------------------------------------
  // make_packet
  // ---------------------------------------------------------------------

  /** The byte loop of one row over d[base .. base + 2], started from
      `init` (printer3d.py:133-134 and 156-157). */
  method RowXor(d: seq<bv8>, base: nat, init: bv8, k: nat) returns (sum: bv8)
    requires base + 2 < |d| && k < 5
    ensures sum == XorUpTo(d[base], d[base + 1], d[base + 2], init, MASK[k][0], MASK[k][1], MASK[k][2], 3)
  {
    sum := init;
    for byte := 0 to 3
      invariant sum == XorUpTo(d[base], d[base + 1], d[base + 2], init, MASK[k][0], MASK[k][1], MASK[k][2], byte)
    {
      assert d[base + byte] == Pick(d[base], d[base + 1], d[base + 2], byte);
      MaskPick(k, byte);
      XorStep(d[base], d[base + 1], d[base + 2], init, MASK[k][0], MASK[k][1], MASK[k][2], byte);
      sum := Mix(sum, d[base + byte], MASK[k][byte]);
    }
  }

  /** One row of make_packet's check byte (printer3d.py:132-139): sum starts
      as the check byte's part, XORs in the group, and is folded. */
  method MakeRow(d: seq<bv8>, t: nat, check: bv8, bit: nat) returns (odd: bool)
    requires 3 * t + 2 < |d| && bit < 5
    ensures odd == (Fold(CheckFirstAt(d[3 * t], d[3 * t + 1], d[3 * t + 2], check, bit)) & 1 != 0)
  {
    var sum := RowXor(d, 3 * t, check & MASK[bit][3], bit);
    XorFirstAt(d[3 * t], d[3 * t + 1], d[3 * t + 2], check, bit);
    sum := FoldBits(sum);
    odd := sum & 1 != 0;
  }

  /** make_packet's check byte for group t (printer3d.py:130-140): the tag
      t & 7, and parity bit `bit` set by an odd row. */
  method MakeCheck(d: seq<bv8>, t: nat) returns (check: bv8)
    requires 3 * t + 2 < |d|
    ensures check == MakeByte(d[3 * t], d[3 * t + 1], d[3 * t + 2], t)
  {
    ghost var g0, g1, g2 := d[3 * t], d[3 * t + 1], d[3 * t + 2];
    check := (t % 8) as bv8;
    for bit := 0 to 5
      invariant check == MakeUpTo(g0, g1, g2, t, bit)
    {
      var odd := MakeRow(d, t, check, bit);
      if odd {
        ShiftIsBit(bit);
        check := check | ((1 as bv8) << (bit + 3));
      }
    }
  }

  /** make_packet (printer3d.py:127-143). */
  method MakePacket(data: seq<bv8>) returns (r: Made)
    ensures r == MakeFrame(data)
  {
    if |data| + 1 >= 256 {
      return MakeRaises(ValueError);
    }
    var d := [Chr(|data| + 1)] + data;
    var n := (|d| + 2) / 3;
    var t := 0;
    while t < n
      invariant t <= n == NumChecks(|data| + 1)
      invariant Extend(MakeByte, d, t, n) == MakeFrame(data)
    {
      if 3 * t + 2 >= |d| {
        return MakeRaises(IndexError);
      }
      var check := MakeCheck(d, t);
      d := d + [check];
      t := t + 1;
    }
    return Made(d);
  }

  // ---------------------------------------------------------------------
  // parse_packet
  // ---------------------------------------------------------------------

  /** Python's slice b[i:i + 3]: at most three bytes, clipped at the end. */
  function Slice3(b: seq<bv8>, i: nat): (r: seq<bv8>)
    ensures |r| == if i + 3 <= |b| then 3 else if i < |b| then |b| - i else 0
    ensures forall j :: 0 <= j < |r| ==> r[j] == b[i + j]
  {
    if i >= |b| then [] else if i + 3 <= |b| then b[i..i + 3] else b[i..]
  }

  /** One row of parse_packet's test (printer3d.py:155-161): from 0, the
      four bytes of r under row `bit`'s masks, folded. */
  method ParseRow(r: seq<bv8>, bit: nat) returns (odd: bool)
    requires |r| == 4 && bit < 5
    ensures odd == (Fold(CheckLastAt(r[0], r[1], r[2], r[3], bit)) & 1 != 0)
  {
    var sum := RowXor(r, 0, 0, bit);
    sum := Mix(sum, r[3], MASK[bit][3]);
    XorLastAt(r[0], r[1], r[2], r[3], bit);
    sum := FoldBits(sum);
    odd := sum & 1 != 0;
  }

  /** The five rows of one group: false at the first odd one. */
  method ParseRows(r: seq<bv8>, t: nat) returns (ok: bool)
    requires |r| == 4
    ensures ok == forall k :: 0 <= k < 5 ==> Fold(CheckLastAt(r[0], r[1], r[2], r[3], k)) & 1 == 0
  {
    for bit := 0 to 5
      invariant forall k :: 0 <= k < bit ==> Fold(CheckLastAt(r[0], r[1], r[2], r[3], k)) & 1 == 0
    {
      var odd := ParseRow(r, bit);
      if odd {
        return false;
      }
    }
    return true;
  }

  /** One pass of parse_packet's loop (printer3d.py:150-162), over check
      byte t: it ends the parse with None or IndexError, or goes on. */
  method ParseStep(b: seq<bv8>, length: nat, checksum: seq<bv8>, t: nat) returns (done: bool, r: Parsed)
    requires 1 <= length <= |b| && checksum == b[length..] && t < |checksum|
    ensures done ==> r == CheckFrom(b, length, t)
    ensures !done ==> CheckFrom(b, length, t) == CheckFrom(b, length, t + 1)
  {
    var row := Slice3(b, 3 * t) + [checksum[t]];
    assert checksum[t] == b[length + t];
    if checksum[t] & 7 != (t % 8) as bv8 {
      return true, Rejected;
    }
    if |row| < 4 {
      return true, ParseRaises(IndexError);
    }
    assert row[0] == b[3 * t] && row[1] == b[3 * t + 1] && row[2] == b[3 * t + 2];
    var ok := ParseRows(row, t);
    if !ok {
      return true, Rejected;
    }
    return false, Rejected;
  }

  /** parse_packet (printer3d.py:144-163).  When the group's slice holds
      fewer than three bytes, row 0's loop raises IndexError at r[|r|]. */
  method ParsePacket(b: seq<bv8>) returns (r: Parsed)
    ensures r == ParseFrame(b)
  {
    if |b| == 0 {
      return ParseRaises(IndexError);
    }
    if (b[0] as nat) + ((b[0] as nat) + 2) / 3 != |b| {
      return Rejected;
    }
    var length := b[0] as nat;
    var checksum := b[length..];
    var t := 0;
    while t < |checksum|
      invariant t <= |checksum| == |b| - length
      invariant CheckFrom(b, length, t) == ParseFrame(b)
    {
      var done, res := ParseStep(b, length, checksum, t);
      if done {
        return res;
      }
      t := t + 1;
    }
    return Payload(b[1..length]);
  }

  // ---------------------------------------------------------------------
  // Properties of make_packet
  // ---------------------------------------------------------------------

  /** One pass of make_packet's loop appends the byte of group t. */
  lemma ExtendStep(check: (bv8, bv8, bv8, nat) -> bv8, d: seq<bv8>, t: nat, n: nat)
    requires t < n && 3 * t + 2 < |d|
    ensures Extend(check, d, t, n) == Extend(check, d + [check(d[3 * t], d[3 * t + 1], d[3 * t + 2], t)], t + 1, n)
  {
  }

  /** When reads precede writes, make_packet's loop succeeds from group t
      on, keeps the bytes so far and ends with FrameLen(L) bytes. */
  lemma {:induction false} ExtendShape(check: (bv8, bv8, bv8, nat) -> bv8, d: seq<bv8>, L: nat, t: nat)
    requires ReadsPrecede(L) && |d| == L + t && t <= NumChecks(L)
    ensures Extend(check, d, t, NumChecks(L)).Made?
    ensures |Extend(check, d, t, NumChecks(L)).frame| == FrameLen(L)
    ensures Extend(check, d, t, NumChecks(L)).frame[..|d|] == d
    decreases NumChecks(L) - t
  {
    if t < NumChecks(L) {
      assert 3 * t + 2 < L + t;
      var e := d + [check(d[3 * t], d[3 * t + 1], d[3 * t + 2], t)];
      ExtendStep(check, d, t, NumChecks(L));
      ExtendShape(check, e, L, t + 1);
      var f := Extend(check, e, t + 1, NumChecks(L)).frame;
      assert f[..|d|] == f[..|e|][..|d|];
    }
  }

  /** ... and byte L + j of the frame is the byte `check` computes over the
      frame's own bytes 3j .. 3j + 2: they precede it, so they were in place
      when it was computed. */
  lemma {:induction false} ExtendAppends(check: (bv8, bv8, bv8, nat) -> bv8, d: seq<bv8>, L: nat, t: nat, j: nat)
    requires ReadsPrecede(L) && |d| == L + t && t <= j < NumChecks(L)
    ensures Extend(check, d, t, NumChecks(L)).Made?
    ensures var f := Extend(check, d, t, NumChecks(L)).frame;
      |f| == FrameLen(L) && 3 * j + 2 < L + j
      && f[L + j] == check(f[3 * j], f[3 * j + 1], f[3 * j + 2], j)
    decreases NumChecks(L) - t
  {
    if j == t {
      ExtendAppendsNext(check, d, L, t);
    } else {
      assert 3 * t + 2 < L + t;
      var e := d + [check(d[3 * t], d[3 * t + 1], d[3 * t + 2], t)];
      ExtendStep(check, d, t, NumChecks(L));
      ExtendAppends(check, e, L, t + 1, j);
    }
  }

  /** The byte appended for group t stays at L + t, after the bytes it was
      computed from. */
  lemma ExtendAppendsNext(check: (bv8, bv8, bv8, nat) -> bv8, d: seq<bv8>, L: nat, t: nat)
    requires ReadsPrecede(L) && |d| == L + t && t < NumChecks(L)
    ensures Extend(check, d, t, NumChecks(L)).Made?
    ensures var f := Extend(check, d, t, NumChecks(L)).frame;
      |f| == FrameLen(L) && 3 * t + 2 < L + t
      && f[L + t] == check(f[3 * t], f[3 * t + 1], f[3 * t + 2], t)
  {
    assert 3 * t + 2 < L + t;
    var e := d + [check(d[3 * t], d[3 * t + 1], d[3 * t + 2], t)];
    ExtendStep(check, d, t, NumChecks(L));
    ExtendShape(check, e, L, t + 1);
    var f := Extend(check, e, t + 1, NumChecks(L)).frame;
    assert f[L + t] == f[..|e|][L + t] == e[L + t];
    assert f[3 * t] == f[..|e|][3 * t] == d[3 * t];
    assert f[3 * t + 1] == f[..|e|][3 * t + 1] == d[3 * t + 1];
    assert f[3 * t + 2] == f[..|e|][3 * t + 2] == d[3 * t + 2];
  }

  /** make_packet's outcome: ValueError exactly when the length byte would
      be 256 or more, IndexError exactly for the lengths 1, 2 and 4, where a
      group reads past the bytes built so far, and a frame otherwise. */
  lemma MakeFrameOutcome(data: seq<bv8>)
    ensures var L := |data| + 1;
      (MakeFrame(data) == MakeRaises(ValueError) <==> L >= 256)
      && (MakeFrame(data) == MakeRaises(IndexError) <==> (L == 1 || L == 2 || L == 4))
      && (MakeFrame(data).Made? <==> (L == 3 || 5 <= L < 256))
  {
    var L := |data| + 1;
    if L == 1 || L == 2 || L == 4 {
      MakeShort(data);
    } else if L < 256 {
      MakeFrameLayout(data);
    }
  }

  /** For the lengths 1, 2 and 4 the last group reads past the bytes built
      so far. */
  lemma MakeShort(data: seq<bv8>)
    requires |data| + 1 == 1 || |data| + 1 == 2 || |data| + 1 == 4
    ensures MakeFrame(data) == MakeRaises(IndexError)
  {
    var d := [Chr(|data| + 1)] + data;
    if |data| + 1 == 4 {
      ExtendStep(MakeByte, d, 0, 2);
    }
  }

  /** The frame make_packet builds has FrameLen(L) bytes, starts with L and
      the data, and carries the check byte of every group. */
  lemma MakeFrameLayout(data: seq<bv8>)
    requires |data| + 1 == 3 || 5 <= |data| + 1 < 256
    ensures MakeFrame(data).Made?
    ensures var L := |data| + 1; var f := MakeFrame(data).frame;
      |f| == FrameLen(L) && f[0] as nat == L && f[1..L] == data
      && Fits(f, L) && FrameChecked(f, L)
  {
    var L := |data| + 1;
    var d := [Chr(L)] + data;
    ReadsPrecedeIff(L);
    ExtendShape(MakeByte, d, L, 0);
    var f := Extend(MakeByte, d, 0, NumChecks(L)).frame;
    assert f[0] == f[..L][0];
    assert f[1..L] == f[..L][1..];
    assert 3 * NumChecks(L) <= |f| by {
      assert 3 * (NumChecks(L) - 1) + 2 < L + (NumChecks(L) - 1);
    }
    forall j | 0 <= j < NumChecks(L) ensures CheckAt(f, L, j) {
      ExtendAppends(MakeByte, d, L, 0, j);
      MakeIsCheck(f[3 * j], f[3 * j + 1], f[3 * j + 2], j);
      assert f[L + j] == MakeByte(f[3 * j], f[3 * j + 1], f[3 * j + 2], j);
    }
  }

  // ---------------------------------------------------------------------
  // Properties of parse_packet
  // ---------------------------------------------------------------------

  /** A buffer of FrameLen(L) bytes holds every group when L is at least 2. */
  lemma LongFits(b: seq<bv8>, L: nat)
    requires L >= 2 && |b| == FrameLen(L)
    ensures Fits(b, L)
  {
  }

  /** From check byte t on, parse_packet never raises for L >= 2: it
      returns data[1:L] or None. */
  lemma {:induction false} CheckFromNoRaise(b: seq<bv8>, L: nat, t: nat)
    requires L >= 2 && |b| == FrameLen(L) && Fits(b, L) && t <= NumChecks(L)
    ensures CheckFrom(b, L, t) == Payload(b[1..L]) || CheckFrom(b, L, t) == Rejected
    decreases NumChecks(L) - t
  {
    if t < NumChecks(L) {
      CheckFromStep(b, L, t);
      CheckFromNoRaise(b, L, t + 1);
    }
  }

  /** A wrong check byte j, at or after t, makes parse_packet return None. */
  lemma {:induction false} CheckFromRejects(b: seq<bv8>, L: nat, t: nat, j: nat)
    requires L >= 2 && |b| == FrameLen(L) && Fits(b, L) && t <= j < NumChecks(L)
    requires !CheckAt(b, L, j)
    ensures CheckFrom(b, L, t) == Rejected
    decreases j - t
  {
    CheckFromStep(b, L, t);
    if t < j {
      CheckFromRejects(b, L, t + 1, j);
    }
  }

  /** A frame whose check bytes from t on are right passes the rest of
      parse_packet's loop. */
  lemma {:induction false} CheckFromPayload(b: seq<bv8>, L: nat, t: nat)
    requires L >= 2 && |b| == FrameLen(L) && Fits(b, L) && t <= NumChecks(L)
    requires forall j :: t <= j < NumChecks(L) ==> CheckAt(b, L, j)
    ensures CheckFrom(b, L, t) == Payload(b[1..L])
    decreases NumChecks(L) - t
  {
    if t < NumChecks(L) {
      CheckFromStep(b, L, t);
      CheckFromPayload(b, L, t + 1);
    }
  }

  /** One pass of parse_packet's loop over a frame whose groups all fit:
      it goes on exactly when check byte t is right. */
  lemma CheckFromStep(b: seq<bv8>, L: nat, t: nat)
    requires L >= 2 && |b| == FrameLen(L) && Fits(b, L) && t < NumChecks(L)
    ensures CheckFrom(b, L, t) == if CheckAt(b, L, t) then CheckFrom(b, L, t + 1) else Rejected
  {
    assert 3 * t + 3 <= |b|;
    ParseGroupOkIff(b[3 * t], b[3 * t + 1], b[3 * t + 2], b[L + t], t);
  }

  /** parse_packet's outcome: it raises (IndexError) on an empty buffer and
      on a frame of length 1 whose check byte carries the right tag; it
      returns data[1:L] exactly when the buffer has FrameLen(L) bytes for
      L >= 2 and every check byte is right; otherwise it returns None. */
  lemma ParseFrameSpec(b: seq<bv8>)
    ensures ParseFrame(b).ParseRaises? <==> (|b| == 0 || (b[0] == 1 && |b| == 2 && b[1] & 7 == 0))
    ensures ParseFrame(b).ParseRaises? ==> ParseFrame(b).error == IndexError
    ensures ParseFrame(b).Payload? <==>
      |b| > 0 && b[0] >= 2 && |b| == FrameLen(b[0] as nat)
      && Fits(b, b[0] as nat) && FrameChecked(b, b[0] as nat)
    ensures ParseFrame(b).Payload? ==> ParseFrame(b).data == b[1..b[0]]
  {
    if |b| > 0 && FrameLen(b[0] as nat) == |b| {
      var L := b[0] as nat;
      if L >= 2 {
        LongFits(b, L);
        CheckFromNoRaise(b, L, 0);
        if FrameChecked(b, L) {
          CheckFromPayload(b, L, 0);
        } else {
          var j :| 0 <= j < NumChecks(L) && !CheckAt(b, L, j);
          CheckFromRejects(b, L, 0, j);
        }
      } else {
        assert L == 1 && |b| == 2;
      }
    }
  }

  /** parse_packet accepts a frame whose first byte is its length, at
      least 2, and whose check bytes are right, returning data[1:L]. */
  lemma ParseChecked(f: seq<bv8>, L: nat)
    requires L >= 2 && |f| == FrameLen(L) && f[0] as nat == L
    requires Fits(f, L) && FrameChecked(f, L)
    ensures ParseFrame(f) == Payload(f[1..L])
  {
    CheckFromPayload(f, L, 0);
  }

  /** The host decodes what it encodes: for every length make_packet
      accepts, parse_packet returns the data. */
  lemma HostRoundTrip(data: seq<bv8>)
    requires |data| + 1 == 3 || 5 <= |data| + 1 < 256
    ensures MakeFrame(data).Made?
    ensures ParseFrame(MakeFrame(data).frame) == Payload(data)
  {
    MakeFrameLayout(data);
    ParseChecked(MakeFrame(data).frame, |data| + 1);
  }

  // ---------------------------------------------------------------------
  // The two programs against each other
  // ---------------------------------------------------------------------

  /** Host to firmware: for a length the firmware allows, the frame
      make_packet builds carries its length in the low seven bits of byte 0
      and passes the firmware's checksum test. */
  lemma HostFrameAccepted(data: seq<bv8>)
    requires LegalLen(|data| + 1)
    ensures MakeFrame(data).Made?
    ensures var f := MakeFrame(data).frame; var L := |data| + 1;
      |f| == FrameLen(L) && LenOf(f) == L && Fits(f, L) && FrameOk(f, L)
  {
    MakeFrameLayout(data);
    var f := MakeFrame(data).frame;
    LowBits(f[0]);
    FrameOkIff(f, |data| + 1);
  }

  /** A byte below 0x80 is its own low seven bits. */
  lemma LowBits(x: bv8)
    requires x as nat < 0x80
    ensures (x & 0x7f) as nat == x as nat
  {
  }

  /** Firmware to host: a frame try_send_next builds and send_packet writes
      is decoded by parse_packet into the payload after the command byte,
      with the flip-flop in bit 7 of that byte. */
  lemma FirmwareFrameParsed(b: seq<bv8>, head: seq<bv8>, ff: bv8, commandSize: nat)
    requires |b| >= BUF_SIZE && (|head| == 3 || |head| == 7) && head[0] == |head| as bv8
    requires b[..|head|] == head && ff & 0x7f == 0 && |head| < commandSize
    ensures ParseFrame(Sent(Prepared(b, ff, commandSize))) == Payload(head[1 := (head[1] & 0x7f) | ff][1..])
  {
    PreparedPayload(b, head, ff, commandSize);
    var r := Sent(Prepared(b, ff, commandSize));
    var L := |head|;
    assert r[0] == r[..L][0] == head[0];
    assert r[0] as nat == L by {
      if L == 3 { assert head[0] == 3; } else { assert head[0] == 7; }
    }
    ParseChecked(r, L);
    assert r[1..L] == r[..L][1..];
  }
}

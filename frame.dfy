/** Frames: a buffer whose first byte is the length L, holding L bytes of
    data followed by NumChecks(L) check bytes.  Group t is the three bytes at
    3t, 3t + 1, 3t + 2 and its check byte sits at L + t; for the last group
    the first two positions may be check bytes of earlier groups. */
module Frame {
  import opened Codec

  /** The buffer is long enough for the encoder and the verifier of a frame
      of length L: every group and every check byte lies inside it. */
  predicate Fits(b: seq<bv8>, L: nat) {
    FrameLen(L) <= |b| && 3 * NumChecks(L) <= |b|
  }

  lemma LegalFits(b: seq<bv8>, L: nat)
    requires LegalLen(L) && FrameLen(L) <= |b|
    ensures Fits(b, L) && ReadsPrecede(L)
  {
    LegalFrameFits(L);
  }

  /** Group t of the buffer passes the firmware's test. */
  predicate GroupOkAt(b: seq<bv8>, L: nat, t: nat)
    requires t < NumChecks(L) && Fits(b, L)
  {
    GroupOk(b[3 * t], b[3 * t + 1], b[3 * t + 2], b[L + t], t)
  }

  /** Every group of the frame passes the firmware's test (serial.cpp,
      serial(), the checksum loop). */
  predicate FrameOk(b: seq<bv8>, L: nat)
    requires Fits(b, L)
  {
    forall t :: 0 <= t < NumChecks(L) ==> GroupOkAt(b, L, t)
  }

  /** Check byte t of the buffer is the check byte of group t. */
  ghost predicate CheckAt(b: seq<bv8>, L: nat, t: nat)
    requires t < NumChecks(L) && Fits(b, L)
  {
    IsCheck(b[3 * t], b[3 * t + 1], b[3 * t + 2], b[L + t], t)
  }

  /** Every check byte of the frame is the check byte of its group. */
  ghost predicate FrameChecked(b: seq<bv8>, L: nat)
    requires Fits(b, L)
  {
    forall t :: 0 <= t < NumChecks(L) ==> CheckAt(b, L, t)
  }

  /** The firmware's test passes a frame exactly when every check byte is
      the check byte of its group. */
  lemma FrameOkIff(b: seq<bv8>, L: nat)
    requires Fits(b, L)
    ensures FrameOk(b, L) <==> FrameChecked(b, L)
  {
    forall t | 0 <= t < NumChecks(L) ensures GroupOkAt(b, L, t) <==> CheckAt(b, L, t) {
      GroupOkIff(b[3 * t], b[3 * t + 1], b[3 * t + 2], b[L + t], t);
    }
  }

  /** One bit flipped in one of the four bytes of group t spoils its
      check, when the group's bytes precede its check byte. */
  lemma FlipInGroup(b: seq<bv8>, L: nat, t: nat, i: nat, e: bv8)
    requires Fits(b, L) && t < NumChecks(L) && 3 * t + 2 < L + t
    requires CheckAt(b, L, t) && OneBit(e)
    requires i == 3 * t || i == 3 * t + 1 || i == 3 * t + 2 || i == L + t
    ensures !CheckAt(b[i := b[i] ^ e], L, t)
  {
    var r := b[i := b[i] ^ e];
    var g0, g1, g2, c := b[3 * t], b[3 * t + 1], b[3 * t + 2], b[L + t];
    if i == L + t {
      FlipCheckDetected(g0, g1, g2, c, t, e);
      assert r[3 * t] == g0 && r[3 * t + 1] == g1 && r[3 * t + 2] == g2 && r[L + t] == c ^ e;
    } else if i == 3 * t {
      Flip0Detected(g0, g1, g2, c, t, e);
      assert r[3 * t] == g0 ^ e && r[3 * t + 1] == g1 && r[3 * t + 2] == g2 && r[L + t] == c;
    } else if i == 3 * t + 1 {
      Flip1Detected(g0, g1, g2, c, t, e);
      assert r[3 * t] == g0 && r[3 * t + 1] == g1 ^ e && r[3 * t + 2] == g2 && r[L + t] == c;
    } else {
      Flip2Detected(g0, g1, g2, c, t, e);
      assert r[3 * t] == g0 && r[3 * t + 1] == g1 && r[3 * t + 2] == g2 ^ e && r[L + t] == c;
    }
  }

  /** A single flipped bit anywhere in a frame whose check bytes are right
      is caught, for every length whose groups read only bytes before
      their check byte: a data byte spoils the check of its own group, a
      check byte its own. */
  lemma SingleBitFrame(b: seq<bv8>, L: nat, i: nat, e: bv8)
    requires Fits(b, L) && ReadsPrecede(L) && FrameChecked(b, L)
    requires OneBit(e) && i < FrameLen(L)
    ensures !FrameChecked(b[i := b[i] ^ e], L)
    ensures !FrameOk(b[i := b[i] ^ e], L)
  {
    var r := b[i := b[i] ^ e];
    var t := if i < L then i / 3 else i - L;
    assert t < NumChecks(L) && 3 * t + 2 < L + t;
    FlipInGroup(b, L, t, i, e);
    FrameOkIff(r, L);
  }

  /** The check byte the firmware's encoder computes for group t of b. */
  function PrepareAt(b: seq<bv8>, L: nat, t: nat): bv8
    requires t < NumChecks(L) && Fits(b, L)
  {
    PrepareUpTo(b[3 * t], b[3 * t + 1], b[3 * t + 2], t, 5)
  }

  /** One pass of prepare_packet's checksum loop: check byte t is computed
      from the buffer as it stands and written at L + t. */
  function StampOne(b: seq<bv8>, L: nat, t: nat): (r: seq<bv8>)
    requires t < NumChecks(L) && Fits(b, L)
    ensures |r| == |b|
  {
    b[L + t := PrepareAt(b, L, t)]
  }

  /** prepare_packet's checksum loop from group t on: check byte t is
      computed from the buffer as it stands, then written at L + t. */
  function StampFrom(b: seq<bv8>, L: nat, t: nat): (r: seq<bv8>)
    requires Fits(b, L) && t <= NumChecks(L)
    ensures |r| == |b|
    decreases NumChecks(L) - t
  {
    if t == NumChecks(L) then b
    else StampFrom(StampOne(b, L, t), L, t + 1)
  }

  /** Stamping writes only check bytes: positions outside L .. L + n - 1,
      and check bytes before t, keep their value. */
  lemma {:induction false} StampFromKeeps(b: seq<bv8>, L: nat, t: nat, i: nat)
    requires Fits(b, L) && t <= NumChecks(L) && i < |b|
    requires i < L + t || i >= FrameLen(L)
    ensures StampFrom(b, L, t)[i] == b[i]
    decreases NumChecks(L) - t
  {
    if t < NumChecks(L) {
      StampFromKeeps(StampOne(b, L, t), L, t + 1, i);
    }
  }

  /** Writing check byte t leaves earlier groups' bytes alone when reads
      precede writes. */
  lemma StampOneKeeps(b: seq<bv8>, L: nat, t: nat, j: nat)
    requires Fits(b, L) && ReadsPrecede(L) && j < t < NumChecks(L)
    requires CheckAt(b, L, j)
    ensures CheckAt(StampOne(b, L, t), L, j)
  {
    assert 3 * j + 2 < L + j;
  }

  /** ... and check byte t is the check byte of group t, whose bytes all
      precede it. */
  lemma StampOneChecks(b: seq<bv8>, L: nat, t: nat)
    requires Fits(b, L) && ReadsPrecede(L) && t < NumChecks(L)
    ensures CheckAt(StampOne(b, L, t), L, t)
  {
    assert 3 * t + 2 < L + t;
    PrepareIsCheck(b[3 * t], b[3 * t + 1], b[3 * t + 2], t);
  }

  /** Each step of the checksum loop writes the check byte of its group, and
      keeps the earlier ones. */
  lemma StampStep(b: seq<bv8>, L: nat, t: nat)
    requires Fits(b, L) && ReadsPrecede(L) && t < NumChecks(L)
    requires forall j :: 0 <= j < t ==> CheckAt(b, L, j)
    ensures forall j :: 0 <= j <= t ==> CheckAt(StampOne(b, L, t), L, j)
  {
    StampOneChecks(b, L, t);
    forall j | 0 <= j < t ensures CheckAt(StampOne(b, L, t), L, j) {
      StampOneKeeps(b, L, t, j);
    }
  }

  lemma {:induction false} StampFromChecked(b: seq<bv8>, L: nat, t: nat)
    requires Fits(b, L) && ReadsPrecede(L) && t <= NumChecks(L)
    requires forall j :: 0 <= j < t ==> CheckAt(b, L, j)
    ensures FrameChecked(StampFrom(b, L, t), L)
    decreases NumChecks(L) - t
  {
    if t < NumChecks(L) {
      StampStep(b, L, t);
      StampFromChecked(StampOne(b, L, t), L, t + 1);
    }
  }

  /** The frame prepare_packet writes: the check bytes stamped in order. */
  function Stamp(b: seq<bv8>, L: nat): seq<bv8>
    requires Fits(b, L)
  {
    StampFrom(b, L, 0)
  }

  /** Encode then verify: for every allowed length, the frame the firmware's
      encoder writes passes the firmware's test, and its data and the bytes
      after it are unchanged. */
  lemma StampVerifies(b: seq<bv8>, L: nat)
    requires LegalLen(L) && FrameLen(L) <= |b|
    ensures Fits(b, L)
    ensures FrameOk(Stamp(b, L), L) && FrameChecked(Stamp(b, L), L)
    ensures |Stamp(b, L)| == |b|
    ensures forall i :: 0 <= i < |b| && (i < L || i >= FrameLen(L)) ==> Stamp(b, L)[i] == b[i]
  {
    LegalFits(b, L);
    StampFromChecked(b, L, 0);
    FrameOkIff(Stamp(b, L), L);
    forall i | 0 <= i < |b| && (i < L || i >= FrameLen(L)) ensures Stamp(b, L)[i] == b[i] {
      StampFromKeeps(b, L, 0, i);
    }
  }

  /** Only the frame's own bytes matter: cutting the buffer after the last
      check byte changes neither test. */
  lemma TruncateFrame(b: seq<bv8>, L: nat)
    requires Fits(b, L) && 3 * NumChecks(L) <= FrameLen(L)
    ensures Fits(b[..FrameLen(L)], L)
    ensures FrameOk(b[..FrameLen(L)], L) == FrameOk(b, L)
    ensures FrameChecked(b[..FrameLen(L)], L) == FrameChecked(b, L)
  {
    var r := b[..FrameLen(L)];
    forall t | 0 <= t < NumChecks(L)
      ensures GroupOkAt(r, L, t) == GroupOkAt(b, L, t) && CheckAt(r, L, t) == CheckAt(b, L, t)
    {
      assert r[3 * t] == b[3 * t] && r[3 * t + 1] == b[3 * t + 1] && r[3 * t + 2] == b[3 * t + 2];
      assert r[L + t] == b[L + t];
    }
  }
}

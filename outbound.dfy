/** The outbound multiplexer of firmware/serial.cpp (try_send_next) on
    values: which pending source goes out next, how its flag is cleared, the
    bytes it puts in which buffer, and the recursion that drops entries while
    the firmware is not initialized. */
module Outbound {
  import opened FirmwareConfig
  import opened Bits

  datatype Option<T> = None | Some(value: T)

  /** The two send buffers: out_buffer, and reply (which also carries pongs). */
  datatype BufId = OutBuf | ReplyBuf

  /** A source of outbound frames. */
  datatype Source =
    | Limit(w: nat)          // limits_pos[w] is not NaN
    | Sense(w: nat)          // bit 0 of axis[w].sense_state
    | MoveCb                 // num_movecbs > 0
    | TempCb(w: nat)         // bit w of which_tempcbs
    | Reply                  // reply_ready
    | Continue(which: nat)   // bit `which` (0 or 1) of continue_cb
    | AutoSleep              // which_autosleep != 0
    | Pong(b: nat)           // bit b of ping

  /** The pending flags try_send_next reads and clears.  A limit position is
      its four bytes, or None for NaN; a sense position is its four bytes. */
  datatype Pending = Pending(
    limits: seq<Option<seq<bv8>>>,
    senseState: seq<bv8>,
    sensePos: seq<seq<bv8>>,
    moveCbs: bv8,
    tempCbs: set<nat>,
    replyReady: bool,
    continueCb: bv8,
    autoSleep: bv8,
    ping: bv8)

  /** The shape the firmware keeps: one entry per axis, four-byte floats, and
      only temp-callback slots below MAXOBJECT flagged. */
  predicate WellFormed(p: Pending, cfg: Config) {
    |p.limits| == cfg.maxAxes && |p.senseState| == cfg.maxAxes && |p.sensePos| == cfg.maxAxes
    && cfg.maxAxes < 0x100 && cfg.maxObject < 0x100
    && (forall w :: 0 <= w < cfg.maxAxes && p.limits[w].Some? ==> |p.limits[w].value| == 4)
    && (forall w :: 0 <= w < cfg.maxAxes ==> |p.sensePos[w]| == 4)
    && (forall w :: w in p.tempCbs ==> w < cfg.maxObject)
  }

  /** The sources that exist for this configuration. */
  predicate ValidSource(s: Source, cfg: Config) {
    match s
    case Limit(w) => w < cfg.maxAxes
    case Sense(w) => w < cfg.maxAxes
    case TempCb(w) => w < cfg.maxObject
    case Continue(which) => which < 2
    case Pong(b) => b < 8
    case _ => true
  }

  /** The source has something to send. */
  predicate Pend(p: Pending, s: Source, cfg: Config)
    requires WellFormed(p, cfg) && ValidSource(s, cfg)
  {
    match s
    case Limit(w) => p.limits[w].Some?
    case Sense(w) => p.senseState[w] & 1 != 0
    case MoveCb => p.moveCbs != 0
    case TempCb(w) => w in p.tempCbs
    case Reply => p.replyReady
    case Continue(which) => HasBit(p.continueCb, which)
    case AutoSleep => p.autoSleep != 0
    case Pong(b) => HasBit(p.ping, b)
  }

  /** The position of a source in try_send_next's scan: per axis the limit
      and then the sense flag, then the move callbacks, the temp callbacks
      by slot, the reply, the two continue bits, autosleep and the ping bits. */
  function Rank(s: Source, cfg: Config): nat {
    var a := 2 * cfg.maxAxes;
    var o := cfg.maxObject;
    match s
    case Limit(w) => 2 * w
    case Sense(w) => 2 * w + 1
    case MoveCb => a
    case TempCb(w) => a + 1 + w
    case Reply => a + 1 + o
    case Continue(which) => a + 2 + o + which
    case AutoSleep => a + 4 + o
    case Pong(b) => a + 5 + o + b
  }

  /** The scan order is a total order: no two sources share a position. */
  lemma RankInjective(s: Source, u: Source, cfg: Config)
    requires ValidSource(s, cfg) && ValidSource(u, cfg)
    ensures Rank(s, cfg) == Rank(u, cfg) ==> s == u
  {
  }

  /** The entries try_send_next discards (with a recursive call instead of a
      send) while the firmware is not initialized. */
  predicate Droppable(s: Source) {
    s.Limit? || s.Sense? || s.TempCb? || s.Continue? || s.AutoSleep?
  }

  /** The buffer the frame for a source is built in. */
  function BufOf(s: Source): BufId {
    if s.Reply? || s.Pong? then ReplyBuf else OutBuf
  }

  // ---------------------------------------------------------------------
  // Which source is next
  // ---------------------------------------------------------------------

  /** The per-axis part of the scan from axis w on. */
  function AxisFrom(p: Pending, w: nat): Option<Source>
    requires |p.senseState| == |p.limits|
    decreases |p.limits| - w
  {
    if w >= |p.limits| then None
    else if p.limits[w].Some? then Some(Limit(w))
    else if p.senseState[w] & 1 != 0 then Some(Sense(w))
    else AxisFrom(p, w + 1)
  }

  /** The temp-callback loop over w from w on: the lowest slot below bound. */
  function LowestFrom(s: set<nat>, w: nat, bound: nat): Option<nat>
    decreases bound - w
  {
    if w >= bound then None
    else if w in s then Some(w)
    else LowestFrom(s, w + 1, bound)
  }

  /** The ping loop over b from b on: the lowest set bit. */
  function LowestBitFrom(x: bv8, b: nat): Option<nat>
    requires b <= 8
    decreases 8 - b
  {
    if b == 8 then None
    else if HasBit(x, b) then Some(b)
    else LowestBitFrom(x, b + 1)
  }

  /** The source try_send_next picks, in its order of tests. */
  function First(p: Pending, cfg: Config): Option<Source>
    requires WellFormed(p, cfg)
  {
    var axis := AxisFrom(p, 0);
    if axis.Some? then axis
    else if p.moveCbs != 0 then Some(MoveCb)
    else if p.tempCbs != {} then
      (match LowestFrom(p.tempCbs, 0, cfg.maxObject)
       case Some(w) => Some(TempCb(w))
       case None => None)
    else if p.replyReady then Some(Reply)
    else if p.continueCb & 1 != 0 then Some(Continue(0))
    else if p.continueCb & 2 != 0 then Some(Continue(1))
    else if p.autoSleep != 0 then Some(AutoSleep)
    else if p.ping != 0 then
      (match LowestBitFrom(p.ping, 0)
       case Some(b) => Some(Pong(b))
       case None => None)
    else None
  }

  /** No source ranked below up is pending. */
  ghost predicate QuietBelow(p: Pending, cfg: Config, up: nat)
    requires WellFormed(p, cfg)
  {
    forall s :: ValidSource(s, cfg) && Rank(s, cfg) < up ==> !Pend(p, s, cfg)
  }

  /** The source is pending and no source before it is. */
  ghost predicate IsFirst(p: Pending, s: Source, cfg: Config)
    requires WellFormed(p, cfg)
  {
    ValidSource(s, cfg) && Pend(p, s, cfg) && QuietBelow(p, cfg, Rank(s, cfg))
  }

  /** QuietBelow, one kind of source at a time. */
  lemma QuietFromParts(p: Pending, cfg: Config, up: nat)
    requires WellFormed(p, cfg)
    requires forall v :: 0 <= v < cfg.maxAxes && 2 * v < up ==> p.limits[v].None?
    requires forall v :: 0 <= v < cfg.maxAxes && 2 * v + 1 < up ==> p.senseState[v] & 1 == 0
    requires 2 * cfg.maxAxes < up ==> p.moveCbs == 0
    requires forall w :: w in p.tempCbs ==> 2 * cfg.maxAxes + 1 + w >= up
    requires 2 * cfg.maxAxes + 1 + cfg.maxObject < up ==> !p.replyReady
    requires 2 * cfg.maxAxes + 2 + cfg.maxObject < up ==> p.continueCb & 1 == 0
    requires 2 * cfg.maxAxes + 3 + cfg.maxObject < up ==> p.continueCb & 2 == 0
    requires 2 * cfg.maxAxes + 4 + cfg.maxObject < up ==> p.autoSleep == 0
    requires forall b :: 0 <= b < 8 && 2 * cfg.maxAxes + 5 + cfg.maxObject + b < up ==> !HasBit(p.ping, b)
    ensures QuietBelow(p, cfg, up)
  {
    forall s | ValidSource(s, cfg) && Rank(s, cfg) < up ensures !Pend(p, s, cfg) {
      match s
      case Continue(which) => assert HasBit(p.continueCb, which) == (p.continueCb & (if which == 0 then 1 else 2) != 0);
      case _ =>
    }
  }

  /** No limit and no sense flag of the axes lo .. hi - 1 is pending. */
  predicate AxisClear(p: Pending, lo: nat, hi: nat)
    requires hi <= |p.limits| == |p.senseState|
  {
    forall v :: lo <= v < hi ==> p.limits[v].None? && p.senseState[v] & 1 == 0
  }

  /** The axis scan from w finds the first axis from w on with a pending
      limit or sense flag, the limit first. */
  lemma {:induction false} AxisFromFinds(p: Pending, w: nat)
    requires |p.senseState| == |p.limits| && w <= |p.limits|
    ensures match AxisFrom(p, w)
      case None => AxisClear(p, w, |p.limits|)
      case Some(s) =>
        (s.Limit? || s.Sense?) && w <= s.w < |p.limits| && AxisClear(p, w, s.w)
        && (s.Limit? <==> p.limits[s.w].Some?) && (s.Sense? ==> p.senseState[s.w] & 1 != 0)
    decreases |p.limits| - w
  {
    if w < |p.limits| && p.limits[w].None? && p.senseState[w] & 1 == 0 {
      AxisFromFinds(p, w + 1);
    }
  }

  /** The temp-callback loop finds the lowest flagged slot from w on. */
  lemma {:induction false} LowestFromFinds(s: set<nat>, w: nat, bound: nat)
    ensures match LowestFrom(s, w, bound)
      case None => forall v :: w <= v < bound ==> v !in s
      case Some(v) => w <= v < bound && v in s && forall u :: w <= u < v ==> u !in s
    decreases bound - w
  {
    if w < bound && w !in s {
      LowestFromFinds(s, w + 1, bound);
    }
  }

  /** The ping loop finds the lowest set bit from b on. */
  lemma {:induction false} LowestBitFromFinds(x: bv8, b: nat)
    requires b <= 8
    ensures match LowestBitFrom(x, b)
      case None => forall c :: b <= c < 8 ==> !HasBit(x, c)
      case Some(c) => b <= c < 8 && HasBit(x, c) && forall u :: b <= u < c ==> !HasBit(x, u)
    decreases 8 - b
  {
    if b < 8 && !HasBit(x, b) {
      LowestBitFromFinds(x, b + 1);
    }
  }

  /** One past the last position of the scan. */
  function End(cfg: Config): (r: nat)
    ensures forall s :: ValidSource(s, cfg) ==> Rank(s, cfg) < r
  {
    2 * cfg.maxAxes + 13 + cfg.maxObject
  }

  /** Nothing at all is pending. */
  ghost predicate AllQuiet(p: Pending, cfg: Config)
    requires WellFormed(p, cfg)
  {
    QuietBelow(p, cfg, End(cfg))
  }

  /** The branches of FirstIsFirst, one scan position at a time. */
  lemma FirstAxis(p: Pending, cfg: Config)
    requires WellFormed(p, cfg) && AxisFrom(p, 0).Some?
    ensures IsFirst(p, AxisFrom(p, 0).value, cfg)
  {
    AxisFromFinds(p, 0);
    QuietFromParts(p, cfg, Rank(AxisFrom(p, 0).value, cfg));
  }

  lemma FirstAfterAxes(p: Pending, cfg: Config, s: Source)
    requires WellFormed(p, cfg) && AxisFrom(p, 0).None? && ValidSource(s, cfg) && Pend(p, s, cfg)
    requires s.MoveCb? || s.Reply? || s == Continue(0)
    requires !s.MoveCb? ==> p.moveCbs == 0 && p.tempCbs == {}
    requires s.Continue? ==> !p.replyReady
    ensures IsFirst(p, s, cfg)
  {
    AxisFromFinds(p, 0);
    QuietFromParts(p, cfg, Rank(s, cfg));
  }

  lemma FirstTempCb(p: Pending, cfg: Config)
    requires WellFormed(p, cfg) && AxisFrom(p, 0).None? && p.moveCbs == 0 && p.tempCbs != {}
    ensures LowestFrom(p.tempCbs, 0, cfg.maxObject).Some?
    ensures IsFirst(p, TempCb(LowestFrom(p.tempCbs, 0, cfg.maxObject).value), cfg)
  {
    AxisFromFinds(p, 0);
    LowestFromFinds(p.tempCbs, 0, cfg.maxObject);
    var v :| v in p.tempCbs;
    QuietFromParts(p, cfg, Rank(TempCb(LowestFrom(p.tempCbs, 0, cfg.maxObject).value), cfg));
  }

  lemma FirstLate(p: Pending, cfg: Config, s: Source)
    requires WellFormed(p, cfg) && AxisFrom(p, 0).None? && p.moveCbs == 0 && p.tempCbs == {} && !p.replyReady
    requires ValidSource(s, cfg) && Pend(p, s, cfg)
    requires s == Continue(1) || s == AutoSleep
    requires p.continueCb & 1 == 0 && (s == AutoSleep ==> p.continueCb & 2 == 0)
    ensures IsFirst(p, s, cfg)
  {
    AxisFromFinds(p, 0);
    QuietFromParts(p, cfg, Rank(s, cfg));
  }

  lemma FirstPong(p: Pending, cfg: Config)
    requires WellFormed(p, cfg) && AxisFrom(p, 0).None? && p.moveCbs == 0 && p.tempCbs == {} && !p.replyReady
    requires p.continueCb & 1 == 0 && p.continueCb & 2 == 0 && p.autoSleep == 0
    ensures p.ping != 0 ==> LowestBitFrom(p.ping, 0).Some? && IsFirst(p, Pong(LowestBitFrom(p.ping, 0).value), cfg)
    ensures p.ping == 0 ==> AllQuiet(p, cfg)
  {
    AxisFromFinds(p, 0);
    LowestBitFromFinds(p.ping, 0);
    if p.ping != 0 {
      if LowestBitFrom(p.ping, 0).None? {
        NoBitIsZero(p.ping);
      }
      QuietFromParts(p, cfg, Rank(Pong(LowestBitFrom(p.ping, 0).value), cfg));
    } else {
      assert forall b :: 0 <= b < 8 ==> !HasBit(p.ping, b);
      QuietFromParts(p, cfg, End(cfg));
    }
  }

  /** A pending source means something is pending. */
  lemma FirstNotQuiet(p: Pending, s: Source, cfg: Config)
    requires WellFormed(p, cfg) && IsFirst(p, s, cfg)
    ensures !AllQuiet(p, cfg)
  {
  }

  /** try_send_next's order of tests picks the pending source of lowest
      rank, and finds none exactly when nothing is pending. */
  lemma FirstIsFirst(p: Pending, cfg: Config)
    requires WellFormed(p, cfg)
    ensures First(p, cfg).Some? ==> IsFirst(p, First(p, cfg).value, cfg)
    ensures First(p, cfg).None? <==> AllQuiet(p, cfg)
  {
    if AxisFrom(p, 0).Some? {
      FirstAxis(p, cfg);
    } else if p.moveCbs != 0 {
      FirstAfterAxes(p, cfg, MoveCb);
    } else if p.tempCbs != {} {
      FirstTempCb(p, cfg);
    } else if p.replyReady {
      FirstAfterAxes(p, cfg, Reply);
    } else if p.continueCb & 1 != 0 {
      assert HasBit(p.continueCb, 0);
      FirstAfterAxes(p, cfg, Continue(0));
    } else if p.continueCb & 2 != 0 {
      assert HasBit(p.continueCb, 1);
      FirstLate(p, cfg, Continue(1));
    } else if p.autoSleep != 0 {
      FirstLate(p, cfg, AutoSleep);
    } else {
      FirstPong(p, cfg);
    }
    if First(p, cfg).Some? {
      FirstNotQuiet(p, First(p, cfg).value, cfg);
    }
  }

  // ---------------------------------------------------------------------
  // Clearing a flag
  // ---------------------------------------------------------------------

  /** What try_send_next does to the flag of the source it takes: the limit
      becomes NaN, bit 0 of the sense state, the chosen temp-callback, continue
      or ping bit is cleared, and the move-callback count and the autosleep
      byte become 0. */
  function Clear(p: Pending, src: Source, cfg: Config): (r: Pending)
    requires WellFormed(p, cfg) && ValidSource(src, cfg)
    ensures WellFormed(r, cfg)
  {
    match src
    case Limit(w) => p.(limits := p.limits[w := None])
    case Sense(w) => p.(senseState := p.senseState[w := p.senseState[w] & 0xfe])
    case MoveCb => p.(moveCbs := 0)
    case TempCb(w) => p.(tempCbs := p.tempCbs - {w})
    case Reply => p.(replyReady := false)
    case Continue(which) => p.(continueCb := p.continueCb & !BitOf(which))
    case AutoSleep => p.(autoSleep := 0)
    case Pong(b) => p.(ping := p.ping & !BitOf(b))
  }

  /** Clearing bit 0 of a sense state keeps bit 7, which the frame reports. */
  lemma ClearSense(x: bv8)
    ensures (x & 0xfe) & 1 == 0 && (x & 0xfe) & 0x80 == x & 0x80
  {
  }

  /** Clearing the flag of a source stops that source, and only that one,
      from being pending. */
  lemma ClearOnly(p: Pending, src: Source, s: Source, cfg: Config)
    requires WellFormed(p, cfg) && ValidSource(src, cfg) && ValidSource(s, cfg)
    ensures Pend(Clear(p, src, cfg), s, cfg) <==> Pend(p, s, cfg) && s != src
  {
    match src
    case Limit(w) => ClearOnlyLimit(p, w, s, cfg);
    case Sense(w) => ClearOnlySense(p, w, s, cfg);
    case Continue(which) => if s.Continue? { ClearOnlyContinue(p, which, s, cfg); }
    case Pong(b) => if s.Pong? { ClearOnlyPong(p, b, s, cfg); }
    case _ =>
  }

  lemma ClearOnlyLimit(p: Pending, w: nat, s: Source, cfg: Config)
    requires WellFormed(p, cfg) && w < cfg.maxAxes && ValidSource(s, cfg)
    ensures Pend(Clear(p, Limit(w), cfg), s, cfg) <==> Pend(p, s, cfg) && s != Limit(w)
  {
  }

  lemma ClearOnlySense(p: Pending, w: nat, s: Source, cfg: Config)
    requires WellFormed(p, cfg) && w < cfg.maxAxes && ValidSource(s, cfg)
    ensures Pend(Clear(p, Sense(w), cfg), s, cfg) <==> Pend(p, s, cfg) && s != Sense(w)
  {
    ClearSense(p.senseState[w]);
  }

  lemma ClearOnlyContinue(p: Pending, which: nat, s: Source, cfg: Config)
    requires WellFormed(p, cfg) && which < 2 && ValidSource(s, cfg) && s.Continue?
    ensures Pend(Clear(p, Continue(which), cfg), s, cfg) <==> Pend(p, s, cfg) && s != Continue(which)
  {
    ClearBit(p.continueCb, which, s.which);
  }

  lemma ClearOnlyPong(p: Pending, b: nat, s: Source, cfg: Config)
    requires WellFormed(p, cfg) && b < 8 && ValidSource(s, cfg) && s.Pong?
    ensures Pend(Clear(p, Pong(b), cfg), s, cfg) <==> Pend(p, s, cfg) && s != Pong(b)
  {
    ClearBit(p.ping, b, s.b);
  }

  /** The same, for every source at once. */
  lemma ClearOnlyAll(p: Pending, src: Source, cfg: Config)
    requires WellFormed(p, cfg) && ValidSource(src, cfg)
    ensures forall s :: ValidSource(s, cfg) ==>
      (Pend(Clear(p, src, cfg), s, cfg) <==> Pend(p, s, cfg) && s != src)
  {
    forall s | ValidSource(s, cfg)
      ensures Pend(Clear(p, src, cfg), s, cfg) <==> Pend(p, s, cfg) && s != src
    {
      ClearOnly(p, src, s, cfg);
    }
  }

  // ---------------------------------------------------------------------
  // Termination of the recursion
  // ---------------------------------------------------------------------

  function CountLimits(l: seq<Option<seq<bv8>>>): nat {
    if l == [] then 0 else CountLimits(l[..|l| - 1]) + (if l[|l| - 1].Some? then 1 else 0)
  }

  function CountSense(s: seq<bv8>): nat {
    if s == [] then 0 else CountSense(s[..|s| - 1]) + (if s[|s| - 1] & 1 != 0 then 1 else 0)
  }

  /** Making one pending limit NaN lowers the count of pending limits by one. */
  lemma {:induction false} CountLimitsClear(l: seq<Option<seq<bv8>>>, w: nat)
    requires w < |l| && l[w].Some?
    ensures CountLimits(l[w := None]) + 1 == CountLimits(l)
    decreases |l|
  {
    var n := |l| - 1;
    if w < n {
      assert l[w := None][..n] == l[..n][w := None];
      CountLimitsClear(l[..n], w);
    } else {
      assert l[w := None][..n] == l[..n];
    }
  }

  /** Clearing one pending sense flag lowers the count of sense flags by one. */
  lemma {:induction false} CountSenseClear(s: seq<bv8>, w: nat)
    requires w < |s| && s[w] & 1 != 0
    ensures CountSense(s[w := s[w] & 0xfe]) + 1 == CountSense(s)
    decreases |s|
  {
    var n := |s| - 1;
    ClearSense(s[w]);
    if w < n {
      assert s[w := s[w] & 0xfe][..n] == s[..n][w := s[w] & 0xfe];
      CountSenseClear(s[..n], w);
    } else {
      assert s[w := s[w] & 0xfe][..n] == s[..n];
    }
  }

  /** The number of pending entries try_send_next may drop. */
  function Weight(p: Pending): nat {
    CountLimits(p.limits) + CountSense(p.senseState) + |p.tempCbs|
    + (if p.continueCb & 1 != 0 then 1 else 0) + (if p.continueCb & 2 != 0 then 1 else 0)
    + (if p.autoSleep != 0 then 1 else 0)
  }

  /** Dropping a pending entry lowers the weight: the recursion of
      try_send_next ends. */
  lemma WeightDrops(p: Pending, src: Source, cfg: Config)
    requires WellFormed(p, cfg) && ValidSource(src, cfg) && Droppable(src) && Pend(p, src, cfg)
    ensures Weight(Clear(p, src, cfg)) < Weight(p)
  {
    match src
    case Limit(w) => CountLimitsClear(p.limits, w);
    case Sense(w) => CountSenseClear(p.senseState, w);
    case Continue(which) =>
      var c := p.continueCb;
      assert which == 0 ==> c & !BitOf(which) == c & 0xfe && c & 1 != 0;
      assert which == 1 ==> c & !BitOf(which) == c & 0xfd && c & 2 != 0;
    case _ =>
  }

  // ---------------------------------------------------------------------
  // The bytes each source puts in its buffer
  // ---------------------------------------------------------------------

  /** The first bytes try_send_next writes for a source: the length byte,
      the command code and the argument; a limit or sense frame carries the
      four bytes of the position after them.  The reply is built elsewhere
      and is sent as it stands. */
  function Payload(p: Pending, src: Source, cfg: Config): (r: seq<bv8>)
    requires WellFormed(p, cfg) && ValidSource(src, cfg) && Pend(p, src, cfg)
    ensures src.Reply? <==> r == []
    ensures !src.Reply? ==> (|r| == 3 || |r| == 7) && r[0] == |r| as bv8
  {
    match src
    case Limit(w) => [7, cfg.cmdLimit, w as bv8] + p.limits[w].value
    case Sense(w) => [7, cfg.cmdSense, (w as bv8) | (p.senseState[w] & 0x80)] + p.sensePos[w]
    case MoveCb => [3, cfg.cmdMoveCb, p.moveCbs]
    case TempCb(w) => [3, cfg.cmdTempCb, w as bv8]
    case Reply => []
    case Continue(which) => [3, cfg.cmdContinue, which as bv8]
    case AutoSleep => [3, cfg.cmdAutoSleep, p.autoSleep]
    case Pong(b) => [3, cfg.cmdPong, b as bv8]
  }

  /** A buffer after its first bytes are written. */
  function Overwrite(b: seq<bv8>, head: seq<bv8>): (r: seq<bv8>)
    requires |head| <= |b|
    ensures |r| == |b| && r[..|head|] == head && r[|head|..] == b[|head|..]
  {
    head + b[|head|..]
  }

  /** Clearing another source's flag does not change a source's bytes. */
  lemma PayloadKeeps(p: Pending, other: Source, src: Source, cfg: Config)
    requires WellFormed(p, cfg) && ValidSource(other, cfg) && ValidSource(src, cfg) && other != src
    requires Pend(p, src, cfg)
    ensures Pend(Clear(p, other, cfg), src, cfg)
    ensures Payload(Clear(p, other, cfg), src, cfg) == Payload(p, src, cfg)
  {
    ClearOnly(p, other, src, cfg);
    if other.Sense? && src.Sense? { ClearSense(p.senseState[other.w]); }
  }

  // ---------------------------------------------------------------------
  // One call of try_send_next
  // ---------------------------------------------------------------------

  /** What a call leaves behind: the flags, the two buffers, and the source
      whose frame was sent, if any. */
  datatype Outcome = Outcome(pending: Pending, out: seq<bv8>, reply: seq<bv8>, sent: Option<Source>)

  /** try_send_next when not busy: take the first pending source, write its
      bytes and clear its flag; then send its buffer, or, for an entry that is
      dropped while not initialized, start over. */
  function Schedule(p: Pending, out: seq<bv8>, reply: seq<bv8>, cfg: Config, initialized: bool): (r: Outcome)
    requires WellFormed(p, cfg) && |out| >= 7 && |reply| >= 3
    ensures WellFormed(r.pending, cfg) && |r.out| == |out| && |r.reply| == |reply|
    decreases Weight(p)
  {
    FirstIsFirst(p, cfg);
    match First(p, cfg)
    case None => Outcome(p, out, reply, None)
    case Some(src) =>
      var q := Clear(p, src, cfg);
      var out' := if BufOf(src) == OutBuf then Overwrite(out, Payload(p, src, cfg)) else out;
      var reply' := if src.Pong? then Overwrite(reply, Payload(p, src, cfg)) else reply;
      if Droppable(src) && !initialized then
        WeightDrops(p, src, cfg);
        Schedule(q, out', reply', cfg, initialized)
      else Outcome(q, out', reply', Some(src))
  }

  /** What Schedule promises about the flags. */
  ghost predicate ScheduleFlags(p: Pending, r: Outcome, cfg: Config, initialized: bool)
    requires WellFormed(p, cfg) && WellFormed(r.pending, cfg)
  {
    match r.sent
    case Some(src) =>
      // the source sent was pending, and is the first one that is not dropped
      ValidSource(src, cfg) && Pend(p, src, cfg) && (!initialized ==> !Droppable(src))
      && (forall s :: ValidSource(s, cfg) && Pend(p, s, cfg) && Rank(s, cfg) < Rank(src, cfg) ==>
            !initialized && Droppable(s))
      // every flag up to and including it is cleared, the later ones are kept
      && (forall s :: ValidSource(s, cfg) ==>
            (Pend(r.pending, s, cfg) <==> Pend(p, s, cfg) && Rank(s, cfg) > Rank(src, cfg)))
    case None =>
      // nothing was sent: everything pending was dropped
      AllQuiet(r.pending, cfg)
      && (forall s :: ValidSource(s, cfg) && Pend(p, s, cfg) ==> !initialized && Droppable(s))
  }

  /** The step that sends: the flags left are the ones after the source. */
  lemma SendStep(p: Pending, src: Source, cfg: Config)
    requires WellFormed(p, cfg) && IsFirst(p, src, cfg)
    ensures forall s :: ValidSource(s, cfg) ==>
      (Pend(Clear(p, src, cfg), s, cfg) <==> Pend(p, s, cfg) && Rank(s, cfg) > Rank(src, cfg))
  {
    ClearOnlyAll(p, src, cfg);
    forall s | ValidSource(s, cfg) ensures Pend(p, s, cfg) && s != src <==> Pend(p, s, cfg) && Rank(s, cfg) > Rank(src, cfg) {
      RankInjective(s, src, cfg);
    }
  }

  /** The step that drops: whatever the rest of the scan does, the dropped
      source was the first pending one and is droppable. */
  lemma DropStep(p: Pending, src: Source, r: Outcome, cfg: Config, initialized: bool)
    requires WellFormed(p, cfg) && IsFirst(p, src, cfg) && Droppable(src) && !initialized
    requires WellFormed(r.pending, cfg)
    requires ScheduleFlags(Clear(p, src, cfg), r, cfg, initialized)
    ensures ScheduleFlags(p, r, cfg, initialized)
  {
    var q := Clear(p, src, cfg);
    ClearOnlyAll(p, src, cfg);
    match r.sent
    case Some(next) =>
      RankInjective(next, src, cfg);
      assert Rank(next, cfg) > Rank(src, cfg);
      forall s | ValidSource(s, cfg) && Pend(p, s, cfg) && Rank(s, cfg) < Rank(next, cfg)
        ensures Droppable(s)
      {
        if s != src { assert Pend(q, s, cfg); }
      }
    case None =>
  }

  /** One unfolding of Schedule. */
  lemma ScheduleUnfold(p: Pending, out: seq<bv8>, reply: seq<bv8>, cfg: Config, initialized: bool)
    requires WellFormed(p, cfg) && |out| >= 7 && |reply| >= 3
    ensures First(p, cfg).None? ==> Schedule(p, out, reply, cfg, initialized) == Outcome(p, out, reply, None)
    ensures First(p, cfg).Some? ==>
      var src := First(p, cfg).value;
      IsFirst(p, src, cfg) &&
      var q := Clear(p, src, cfg);
      var out' := if BufOf(src) == OutBuf then Overwrite(out, Payload(p, src, cfg)) else out;
      var reply' := if src.Pong? then Overwrite(reply, Payload(p, src, cfg)) else reply;
      Schedule(p, out, reply, cfg, initialized) ==
        if Droppable(src) && !initialized then Schedule(q, out', reply', cfg, initialized)
        else Outcome(q, out', reply', Some(src))
  {
    FirstIsFirst(p, cfg);
  }

  /** try_send_next sends the first pending source that is not dropped,
      after dropping every pending source before it, and clears exactly the
      flags up to it. */
  lemma {:induction false} ScheduleSpec(p: Pending, out: seq<bv8>, reply: seq<bv8>, cfg: Config, initialized: bool)
    requires WellFormed(p, cfg) && |out| >= 7 && |reply| >= 3
    ensures ScheduleFlags(p, Schedule(p, out, reply, cfg, initialized), cfg, initialized)
    decreases Weight(p)
  {
    ScheduleUnfold(p, out, reply, cfg, initialized);
    FirstIsFirst(p, cfg);
    if First(p, cfg).Some? {
      var src := First(p, cfg).value;
      var q := Clear(p, src, cfg);
      var out' := if BufOf(src) == OutBuf then Overwrite(out, Payload(p, src, cfg)) else out;
      var reply' := if src.Pong? then Overwrite(reply, Payload(p, src, cfg)) else reply;
      if Droppable(src) && !initialized {
        WeightDrops(p, src, cfg);
        ScheduleSpec(q, out', reply', cfg, initialized);
        DropStep(p, src, Schedule(q, out', reply', cfg, initialized), cfg, initialized);
      } else {
        SendStep(p, src, cfg);
      }
    }
  }

  /** The buffer a source's frame is sent from. */
  function BufferOf(r: Outcome, id: BufId): seq<bv8> {
    if id == OutBuf then r.out else r.reply
  }

  /** The frame sent starts with the bytes of the source sent, taken from
      the flags as they were before the call, and only a pong writes into the
      reply buffer. */
  lemma {:induction false} ScheduleBuffers(p: Pending, out: seq<bv8>, reply: seq<bv8>, cfg: Config, initialized: bool)
    requires WellFormed(p, cfg) && |out| >= 7 && |reply| >= 3
    ensures var r := Schedule(p, out, reply, cfg, initialized);
      (r.sent.Some? ==>
        ValidSource(r.sent.value, cfg) && Pend(p, r.sent.value, cfg)
        && var head := Payload(p, r.sent.value, cfg);
        BufferOf(r, BufOf(r.sent.value))[..|head|] == head)
      && ((r.sent.Some? && r.sent.value.Pong?) || r.reply == reply)
    decreases Weight(p)
  {
    ScheduleUnfold(p, out, reply, cfg, initialized);
    ScheduleSpec(p, out, reply, cfg, initialized);
    if First(p, cfg).Some? {
      var src := First(p, cfg).value;
      var q := Clear(p, src, cfg);
      var out' := if BufOf(src) == OutBuf then Overwrite(out, Payload(p, src, cfg)) else out;
      var reply' := if src.Pong? then Overwrite(reply, Payload(p, src, cfg)) else reply;
      if Droppable(src) && !initialized {
        WeightDrops(p, src, cfg);
        ScheduleBuffers(q, out', reply', cfg, initialized);
        var r := Schedule(q, out', reply', cfg, initialized);
        if r.sent.Some? {
          ScheduleSpec(q, out', reply', cfg, initialized);
          PayloadKeeps(p, src, r.sent.value, cfg);
        }
      }
    }
  }
}

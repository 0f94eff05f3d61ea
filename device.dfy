/** The device side of the link as a state machine on values: one State
    holds every variable of firmware/serial.cpp that serial(),
    prepare_packet, send_packet and try_send_next read or write, and each
    of those routines is a function from the state before to the state
    after.  The class in serial.dfy runs the same routines in place and is
    proved to agree with these functions. */
module Device {
  import opened FirmwareConfig
  import opened Bits
  import opened Codec
  import opened Frame
  import opened Outbound
  import opened Firmware

  // ---------------------------------------------------------------------
  // Control bytes
  // ---------------------------------------------------------------------

  /** How serial() treats a byte read while no frame is in progress. */
  datatype FirstByte = AckByte | NackByte | IdByte | Illegal | Start

  /** The switch and the length test of serial.cpp:59-95, in their order. */
  function Classify(b: bv8, cfg: Config): FirstByte {
    if b == cfg.ack0 || b == cfg.ack1 then AckByte
    else if b == cfg.nack then NackByte
    else if b == cfg.id then IdByte
    else if b < 3 || b == 4 || b >= 0x80 then Illegal
    else Start
  }

  /** The acknowledgement written for the receive flip-flop ffIn: ACK0
      while ff_in is set, ACK1 while it is clear. */
  function AckFor(ffIn: bv8, cfg: Config): bv8 {
    if ffIn != 0 then cfg.ack0 else cfg.ack1
  }

  /** The same choice between the two ACKWAIT codes. */
  function AckWaitFor(ffIn: bv8, cfg: Config): bv8 {
    if ffIn != 0 then cfg.ackWait0 else cfg.ackWait1
  }

  /** The polarity test of serial.cpp:64, `!ff_out ^ (b == CMD_ACK1)`. */
  predicate AckAccepted(b: bv8, ffOut: bv8, cfg: Config) {
    (ffOut == 0) != (b == cfg.ack1)
  }

  // ---------------------------------------------------------------------
  // The state
  // ---------------------------------------------------------------------

  /** The receiving side: command_end, ff_in, last_micros, had_data and
      command[]. */
  datatype Rx = Rx(commandEnd: nat, ffIn: bv8, lastMicros: nat, hadData: bool, command: seq<bv8>)

  /** The sending side: ff_out, out_busy, out_time, last_packet, the
      pending flags, initialized and the two send buffers; `lastFrame` is
      the bytes of the frame in flight as send_packet wrote them. */
  datatype Tx = Tx(
    ffOut: bv8, outBusy: bool, outTime: nat, lastPacket: BufId,
    pending: Pending, initialized: bool,
    outBuffer: seq<bv8>, reply: seq<bv8>, lastFrame: seq<bv8>)

  /** Both sides and the serial line: `input` is the bytes available to
      read, oldest first, `output` every byte written so far, and
      `delivered` the frames handed to packet(), in order. */
  datatype State = State(rx: Rx, tx: Tx, input: seq<bv8>, output: seq<bv8>, delivered: seq<seq<bv8>>)

  /** The contents of send buffer id. */
  function BufIn(t: Tx, id: BufId): seq<bv8> {
    if id == OutBuf then t.outBuffer else t.reply
  }

  /** The sending side with buffer id replaced by b. */
  function WithBuf(t: Tx, id: BufId, b: seq<bv8>): (r: Tx)
    ensures BufIn(r, id) == b
  {
    if id == OutBuf then t.(outBuffer := b) else t.(reply := b)
  }

  /** The receiving side keeps command[] within bounds: no more than
      COMMAND_SIZE bytes are held, and a partial frame has a legal length
      byte and fewer bytes than its frame. */
  predicate RxShape(x: Rx, cfg: Config) {
    |x.command| == cfg.commandSize && cfg.commandSize >= 1
    && x.commandEnd <= cfg.commandSize
    && (x.commandEnd > 0 ==>
          x.command[0] < 0x80 && LegalLen(LenOf(x.command)) && x.commandEnd < FrameLen(LenOf(x.command)))
  }

  /** The send buffers hold the longest frame and the flags have their
      shape. */
  predicate TxShape(t: Tx, cfg: Config) {
    |t.outBuffer| >= BUF_SIZE && |t.reply| >= BUF_SIZE && WellFormed(t.pending, cfg)
  }

  /** What the routines need to be defined. */
  predicate Shape(s: State, cfg: Config) {
    Valid(cfg) && RxShape(s.rx, cfg) && TxShape(s.tx, cfg)
  }

  /** What holds between calls: besides the shape, both flip-flops are 0 or
      0x80, both times are unsigned long values, and while a frame is
      unacknowledged its buffer still holds the bytes that were sent. */
  predicate Inv(s: State, cfg: Config) {
    Shape(s, cfg)
    && (s.rx.ffIn == 0 || s.rx.ffIn == 0x80) && (s.tx.ffOut == 0 || s.tx.ffOut == 0x80)
    && s.rx.lastMicros < TIME_WRAP && s.tx.outTime < TIME_WRAP
    && (s.tx.outBusy ==> Sent(BufIn(s.tx, s.tx.lastPacket)) == s.tx.lastFrame)
  }

  // ---------------------------------------------------------------------
  // The sending side
  // ---------------------------------------------------------------------

  /** send_packet (serial.cpp:259-270) on buffer id: its frame is written
      and the line is busy with it. */
  function Send(s: State, id: BufId, now: nat): State
    requires |BufIn(s.tx, id)| >= BUF_SIZE
  {
    var frame := Sent(BufIn(s.tx, id));
    s.(tx := s.tx.(lastPacket := id, outBusy := true, outTime := now, lastFrame := frame),
       output := s.output + frame)
  }

  /** prepare_packet (serial.cpp:217-256) on buffer id. */
  function Prepare(t: Tx, id: BufId, cfg: Config): (r: Tx)
    requires |BufIn(t, id)| >= BUF_SIZE
    ensures |BufIn(r, id)| == |BufIn(t, id)|
  {
    WithBuf(t, id, Prepared(BufIn(t, id), t.ffOut, cfg.commandSize))
  }

  /** try_send_next (serial.cpp:273-456): nothing while a frame is in
      flight; otherwise the scan of Schedule, and the frame it settles on,
      if any, prepared and sent.  The receiving side is not touched. */
  function SendNext(s: State, cfg: Config, now: nat): (r: State)
    requires TxShape(s.tx, cfg)
    ensures TxShape(r.tx, cfg) && r.tx.ffOut == s.tx.ffOut
    ensures r.rx == s.rx && r.input == s.input && r.delivered == s.delivered
  {
    if s.tx.outBusy then s
    else
      var o := Schedule(s.tx.pending, s.tx.outBuffer, s.tx.reply, cfg, s.tx.initialized);
      var t1 := s.tx.(pending := o.pending, outBuffer := o.out, reply := o.reply);
      match o.sent
      case None => s.(tx := t1)
      case Some(src) => Send(s.(tx := Prepare(t1, BufOf(src), cfg)), BufOf(src), now)
  }

  /** One branch of try_send_next once its source src is found: the
      source's bytes go into its buffer and its flag is cleared. */
  function Load(t: Tx, src: Source, cfg: Config): (r: Tx)
    requires WellFormed(t.pending, cfg) && ValidSource(src, cfg) && Pend(t.pending, src, cfg)
    requires |t.outBuffer| >= 7 && |t.reply| >= 3
    ensures |r.outBuffer| == |t.outBuffer| && |r.reply| == |t.reply| && WellFormed(r.pending, cfg)
  {
    var head := Payload(t.pending, src, cfg);
    t.(pending := Clear(t.pending, src, cfg),
       outBuffer := if BufOf(src) == OutBuf then Overwrite(t.outBuffer, head) else t.outBuffer,
       reply := if src.Pong? then Overwrite(t.reply, head) else t.reply)
  }

  // try_send_next one test at a time: with nothing pending it does
  // nothing; otherwise the first pending source is loaded and then either
  // dropped, with the scan starting over, or prepared and sent.

  lemma SendNextNothing(s: State, cfg: Config, now: nat)
    requires TxShape(s.tx, cfg) && !s.tx.outBusy && First(s.tx.pending, cfg).None?
    ensures SendNext(s, cfg, now) == s
  {
    ScheduleUnfold(s.tx.pending, s.tx.outBuffer, s.tx.reply, cfg, s.tx.initialized);
  }

  lemma SendNextDrops(s: State, cfg: Config, now: nat)
    requires TxShape(s.tx, cfg) && !s.tx.outBusy && First(s.tx.pending, cfg).Some?
    requires Droppable(First(s.tx.pending, cfg).value) && !s.tx.initialized
    ensures var src := First(s.tx.pending, cfg).value;
      ValidSource(src, cfg) && Pend(s.tx.pending, src, cfg) &&
      var t1 := Load(s.tx, src, cfg);
      TxShape(t1, cfg) && Weight(t1.pending) < Weight(s.tx.pending)
      && SendNext(s, cfg, now) == SendNext(s.(tx := t1), cfg, now)
  {
    ScheduleUnfold(s.tx.pending, s.tx.outBuffer, s.tx.reply, cfg, s.tx.initialized);
    WeightDrops(s.tx.pending, First(s.tx.pending, cfg).value, cfg);
  }

  lemma SendNextLoads(s: State, cfg: Config, now: nat)
    requires TxShape(s.tx, cfg) && !s.tx.outBusy && First(s.tx.pending, cfg).Some?
    requires !(Droppable(First(s.tx.pending, cfg).value) && !s.tx.initialized)
    ensures var src := First(s.tx.pending, cfg).value;
      ValidSource(src, cfg) && Pend(s.tx.pending, src, cfg) &&
      var t1 := Load(s.tx, src, cfg);
      TxShape(t1, cfg)
      && SendNext(s, cfg, now) == Send(s.(tx := Prepare(t1, BufOf(src), cfg)), BufOf(src), now)
  {
    ScheduleUnfold(s.tx.pending, s.tx.outBuffer, s.tx.reply, cfg, s.tx.initialized);
  }

  /** write_ack (serial.cpp:458-461). */
  function WriteAckOf(s: State, cfg: Config): State {
    s.(output := s.output + [AckFor(s.rx.ffIn, cfg)])
  }

  /** write_ackwait (serial.cpp:463-466). */
  function WriteAckWaitOf(s: State, cfg: Config): State {
    s.(output := s.output + [AckWaitFor(s.rx.ffIn, cfg)])
  }

  // ---------------------------------------------------------------------
  // serial(): the first byte
  // ---------------------------------------------------------------------

  /** An ACK (serial.cpp:61-72): only the one the frame in flight waits for
      flips ff_out, frees the line and starts the next frame. */
  function OnAck(s: State, b: bv8, cfg: Config, now: nat): (r: State)
    requires TxShape(s.tx, cfg)
    ensures TxShape(r.tx, cfg) && r.rx == s.rx && r.input == s.input
  {
    if s.tx.outBusy && AckAccepted(b, s.tx.ffOut, cfg) then
      SendNext(s.(tx := s.tx.(ffOut := s.tx.ffOut ^ 0x80, outBusy := false)), cfg, now)
    else s
  }

  /** A NACK (serial.cpp:73-78): the frame in flight is sent again. */
  function OnNack(s: State, now: nat): State
    requires |s.tx.outBuffer| >= BUF_SIZE && |s.tx.reply| >= BUF_SIZE
  {
    if s.tx.outBusy then Send(s, s.tx.lastPacket, now) else s
  }

  /** An ID request (serial.cpp:79-86): CMD_ID and the printer id. */
  function OnId(s: State, cfg: Config): State {
    s.(output := s.output + [cfg.id] + cfg.printerId)
  }

  /** One pass of the loop at serial.cpp:45-97: read a byte into command[0]
      and dispatch on it. */
  function ReadFirst(s: State, cfg: Config, now: nat): (r: State)
    requires Shape(s, cfg) && s.rx.commandEnd == 0 && s.input != []
    ensures Shape(r, cfg) && r.input == s.input[1..]
  {
    var b := s.input[0];
    var s1 := Received(s);
    match Classify(b, cfg)
    case AckByte => OnAck(s1, b, cfg, now)
    case NackByte => OnNack(s1, now)
    case IdByte => OnId(s1, cfg)
    case Illegal => s1.(output := s1.output + [cfg.nack])
    case Start =>
      ClassifyStart(b, cfg);
      LenOfSmall(s1.rx.command);
      s1.(rx := s1.rx.(commandEnd := 1, lastMicros := now))
  }

  /** serial.cpp:53-54: the next byte is read into command[0]. */
  function Received(s: State): (r: State)
    requires |s.rx.command| > 0 && s.input != []
    ensures |r.rx.command| == |s.rx.command| && r.rx.command[0] == s.input[0]
  {
    s.(rx := s.rx.(command := s.rx.command[0 := s.input[0]], hadData := true), input := s.input[1..])
  }

  /** The loop at serial.cpp:45-97: bytes are taken one at a time until one
      starts a frame or none is left. */
  function ScanFirst(s: State, cfg: Config, now: nat): (r: State)
    requires Shape(s, cfg)
    ensures Shape(r, cfg)
    ensures r.rx.commandEnd == 0 ==> r.input == []
    decreases |s.input|
  {
    if s.rx.commandEnd != 0 || s.input == [] then s
    else ScanFirst(ReadFirst(s, cfg, now), cfg, now)
  }

  // ---------------------------------------------------------------------
  // serial(): the rest of a frame
  // ---------------------------------------------------------------------

  /** The number of bytes the read at serial.cpp:118-123 takes: what is
      available, clamped so that neither command[] nor the frame is
      overrun. */
  function Chunk(avail: nat, end: nat, size: nat, n: nat): (len: nat)
    requires end <= size && end <= n
    ensures len <= avail && end + len <= size && end + len <= n
    ensures len == avail || end + len == size || end + len == n
  {
    var a := if avail + end > size then size - end else avail;
    if end + a > n then n - end else a
  }

  /** readBytes into b at position at. */
  function Fill(b: seq<bv8>, at: nat, bytes: seq<bv8>): (r: seq<bv8>)
    requires at + |bytes| <= |b|
    ensures |r| == |b| && r[..at] == b[..at] && r[at..at + |bytes|] == bytes
    ensures r[at + |bytes|..] == b[at + |bytes|..]
  {
    b[..at] + bytes + b[at + |bytes|..]
  }

  /** A whole frame is in command[] (serial.cpp:143-201): a bad checksum is
      NACKed; a good frame with the old flip-flop was already taken and is
      only ACKed again; a good new frame flips ff_in, has bit 7 of its
      command byte cleared and goes to packet(). */
  function Process(s: State, cfg: Config): State
    requires |s.rx.command| > 0 && LegalLen(LenOf(s.rx.command))
    requires FrameLen(LenOf(s.rx.command)) <= |s.rx.command|
  {
    var c := s.rx.command;
    var L := LenOf(c);
    LegalFits(c, L);
    if !FrameOk(c, L) then s.(output := s.output + [cfg.nack])
    else if c[1] & 0x80 != s.rx.ffIn then s.(output := s.output + [AckFor(s.rx.ffIn, cfg)])
    else
      var cmd := c[1 := c[1] & 0x7f];
      s.(rx := s.rx.(ffIn := s.rx.ffIn ^ 0x80, command := cmd), delivered := s.delivered + [cmd[..L]])
  }

  /** The bytes read by readBytes go into command[] after the ones already
      there (serial.cpp:124-129). */
  function Collect(x: Rx, bytes: seq<bv8>, now: nat): (r: Rx)
    requires 0 < x.commandEnd && x.commandEnd + |bytes| <= |x.command|
    ensures |r.command| == |x.command| && r.command[0] == x.command[0]
    ensures r.commandEnd == x.commandEnd + |bytes| && r.ffIn == x.ffIn && r.lastMicros == now
  {
    var cmd := Fill(x.command, x.commandEnd, bytes);
    PrefixAt(cmd, x.command, x.commandEnd, 0);
    x.(hadData := true, command := cmd, lastMicros := now, commandEnd := x.commandEnd + |bytes|)
  }

  /** serial.cpp:108-114: with nothing to read, a frame unacknowledged for
      200 ms is sent again. */
  function Timeout(s: State, now: nat): State
    requires |s.tx.outBuffer| >= BUF_SIZE && |s.tx.reply| >= BUF_SIZE
  {
    if s.tx.outBusy && Elapsed(now, s.tx.outTime) >= 200000 then Send(s, s.tx.lastPacket, now) else s
  }

  /** serial.cpp:118-201: read what fits, and process the frame once all
      of it is there. */
  function Take(s: State, cfg: Config, now: nat): State
    requires Shape(s, cfg) && s.rx.commandEnd > 0 && s.input != []
  {
    var n := FrameLen(LenOf(s.rx.command));
    var len := Chunk(|s.input|, s.rx.commandEnd, cfg.commandSize, n);
    var x := Collect(s.rx, s.input[..len], now);
    assert LenOf(x.command) == LenOf(s.rx.command);
    if x.commandEnd < n then s.(rx := x, input := s.input[len..])
    else Process(s.(rx := x.(commandEnd := 0), input := s.input[len..]), cfg)
  }

  /** serial.cpp:99-201, once a frame is in progress: with nothing to read,
      the resend timeout; otherwise read what fits. */
  function ReadRest(s: State, cfg: Config, now: nat): State
    requires Shape(s, cfg) && s.rx.commandEnd > 0
  {
    if s.input == [] then Timeout(s, now) else Take(s, cfg, now)
  }

  /** serial.cpp:36-44: a partial frame is dropped when the previous call
      saw no data and 100 ms have passed since its last byte. */
  function Abandon(x: Rx, now: nat): Rx {
    var drop := !x.hadData && x.commandEnd > 0 && Elapsed(now, x.lastMicros) >= 100000;
    x.(commandEnd := if drop then 0 else x.commandEnd, hadData := false)
  }

  /** One call of serial() at time now. */
  function SerialStep(s: State, cfg: Config, now: nat): State
    requires Shape(s, cfg)
  {
    var s1 := ScanFirst(s.(rx := Abandon(s.rx, now)), cfg, now);
    if s1.rx.commandEnd == 0 then s1 else ReadRest(s1, cfg, now)
  }

  /** The three outcomes of Process, by the firmware's own test. */
  lemma ProcessNack(s: State, cfg: Config)
    requires |s.rx.command| > 0 && LegalLen(LenOf(s.rx.command))
    requires FrameLen(LenOf(s.rx.command)) <= |s.rx.command|
    requires Fits(s.rx.command, LenOf(s.rx.command)) && !FrameOk(s.rx.command, LenOf(s.rx.command))
    ensures Process(s, cfg) == s.(output := s.output + [cfg.nack])
  {
  }

  lemma ProcessDuplicate(s: State, cfg: Config)
    requires |s.rx.command| > 0 && LegalLen(LenOf(s.rx.command))
    requires FrameLen(LenOf(s.rx.command)) <= |s.rx.command|
    requires Fits(s.rx.command, LenOf(s.rx.command)) && FrameOk(s.rx.command, LenOf(s.rx.command))
    requires s.rx.command[1] & 0x80 != s.rx.ffIn
    ensures Process(s, cfg) == s.(output := s.output + [AckFor(s.rx.ffIn, cfg)])
  {
  }

  lemma ProcessNew(s: State, cfg: Config)
    requires |s.rx.command| > 0 && LegalLen(LenOf(s.rx.command))
    requires FrameLen(LenOf(s.rx.command)) <= |s.rx.command|
    requires Fits(s.rx.command, LenOf(s.rx.command)) && FrameOk(s.rx.command, LenOf(s.rx.command))
    requires s.rx.command[1] & 0x80 == s.rx.ffIn
    ensures var cmd := s.rx.command[1 := s.rx.command[1] & 0x7f];
      Process(s, cfg) == s.(rx := s.rx.(ffIn := s.rx.ffIn ^ 0x80, command := cmd),
                            delivered := s.delivered + [cmd[..LenOf(s.rx.command)]])
  {
  }

  // ---------------------------------------------------------------------
  // Facts the functions above rely on
  // ---------------------------------------------------------------------

  /** Control codes are never lengths, so the first byte of a frame is
      exactly a legal length. */
  lemma ClassifyStart(b: bv8, cfg: Config)
    requires Valid(cfg)
    ensures Classify(b, cfg) == Start <==> b < 0x80 && LegalLen(b as nat)
  {
  }

  /** A length byte below 0x80 is its own length. */
  lemma LenOfSmall(b: seq<bv8>)
    requires |b| > 0 && b[0] < 0x80
    ensures LenOf(b) == b[0] as nat
  {
  }

  // ---------------------------------------------------------------------
  // The invariant is kept by every routine
  // ---------------------------------------------------------------------

  lemma SendInv(s: State, id: BufId, cfg: Config, now: nat)
    requires Inv(s, cfg) && now < TIME_WRAP
    ensures Inv(Send(s, id, now), cfg)
  {
  }

  /** Loading a source while the line is free keeps the invariant. */
  lemma LoadInv(s: State, src: Source, cfg: Config)
    requires Inv(s, cfg) && !s.tx.outBusy && ValidSource(src, cfg) && Pend(s.tx.pending, src, cfg)
    ensures Inv(s.(tx := Load(s.tx, src, cfg)), cfg)
  {
  }

  /** try_send_next keeps the invariant. */
  lemma SendNextInv(s: State, cfg: Config, now: nat)
    requires Inv(s, cfg) && now < TIME_WRAP
    ensures Inv(SendNext(s, cfg, now), cfg)
  {
    if !s.tx.outBusy {
      var o := Schedule(s.tx.pending, s.tx.outBuffer, s.tx.reply, cfg, s.tx.initialized);
      var t1 := s.tx.(pending := o.pending, outBuffer := o.out, reply := o.reply);
      if o.sent.Some? {
        var id := BufOf(o.sent.value);
        SendInv(s.(tx := Prepare(t1, id, cfg)), id, cfg, now);
      }
    }
  }

  lemma OnAckInv(s: State, b: bv8, cfg: Config, now: nat)
    requires Inv(s, cfg) && now < TIME_WRAP
    ensures Inv(OnAck(s, b, cfg, now), cfg)
  {
    if s.tx.outBusy && AckAccepted(b, s.tx.ffOut, cfg) {
      SendNextInv(s.(tx := s.tx.(ffOut := s.tx.ffOut ^ 0x80, outBusy := false)), cfg, now);
    }
  }

  lemma ReadFirstInv(s: State, cfg: Config, now: nat)
    requires Inv(s, cfg) && s.rx.commandEnd == 0 && s.input != [] && now < TIME_WRAP
    ensures Inv(ReadFirst(s, cfg, now), cfg)
  {
    var b := s.input[0];
    var s1 := Received(s);
    ReceivedInv(s, cfg);
    match Classify(b, cfg)
    case AckByte => OnAckInv(s1, b, cfg, now);
    case NackByte => if s1.tx.outBusy { SendInv(s1, s1.tx.lastPacket, cfg, now); }
    case IdByte =>
    case Illegal =>
    case Start =>
  }

  lemma ReceivedInv(s: State, cfg: Config)
    requires Inv(s, cfg) && s.rx.commandEnd == 0 && s.input != []
    ensures Inv(Received(s), cfg)
  {
  }

  /** The ACK that frees the line keeps the invariant up to the call of
      try_send_next. */
  lemma FreedInv(s: State, cfg: Config)
    requires Inv(s, cfg)
    ensures Inv(s.(tx := s.tx.(ffOut := s.tx.ffOut ^ 0x80, outBusy := false)), cfg)
  {
  }

  lemma {:induction false} ScanFirstInv(s: State, cfg: Config, now: nat)
    requires Inv(s, cfg) && now < TIME_WRAP
    ensures Inv(ScanFirst(s, cfg, now), cfg)
    decreases |s.input|
  {
    if s.rx.commandEnd == 0 && s.input != [] {
      ReadFirstInv(s, cfg, now);
      ScanFirstInv(ReadFirst(s, cfg, now), cfg, now);
    }
  }

  lemma ProcessInv(s: State, cfg: Config)
    requires Inv(s, cfg) && s.rx.commandEnd == 0
    requires LegalLen(LenOf(s.rx.command)) && FrameLen(LenOf(s.rx.command)) <= |s.rx.command|
    ensures Inv(Process(s, cfg), cfg)
  {
  }

  lemma ReadRestInv(s: State, cfg: Config, now: nat)
    requires Inv(s, cfg) && s.rx.commandEnd > 0 && now < TIME_WRAP
    ensures Inv(ReadRest(s, cfg, now), cfg)
  {
    if s.input == [] {
      if s.tx.outBusy && Elapsed(now, s.tx.outTime) >= 200000 { SendInv(s, s.tx.lastPacket, cfg, now); }
    } else {
      TakeInv(s, cfg, now);
    }
  }

  lemma TakeInv(s: State, cfg: Config, now: nat)
    requires Inv(s, cfg) && s.rx.commandEnd > 0 && s.input != [] && now < TIME_WRAP
    ensures Inv(Take(s, cfg, now), cfg)
  {
    var n := FrameLen(LenOf(s.rx.command));
    var len := Chunk(|s.input|, s.rx.commandEnd, cfg.commandSize, n);
    var x := Collect(s.rx, s.input[..len], now);
    if x.commandEnd >= n {
      CompleteInv(s, x, s.input[len..], cfg);
      ProcessInv(s.(rx := x.(commandEnd := 0), input := s.input[len..]), cfg);
    } else {
      CollectInv(s, x, s.input[len..], cfg);
    }
  }

  /** Once the last byte is in, the complete frame (command_end reset, as at
      serial.cpp:143) still satisfies the invariant. */
  lemma CompleteInv(s: State, x: Rx, rest: seq<bv8>, cfg: Config)
    requires Inv(s, cfg) && s.rx.commandEnd > 0 && x.lastMicros < TIME_WRAP
    requires |x.command| == |s.rx.command| && x.command[0] == s.rx.command[0] && x.ffIn == s.rx.ffIn
    requires FrameLen(LenOf(s.rx.command)) <= |x.command|
    ensures LegalLen(LenOf(x.command)) && FrameLen(LenOf(x.command)) <= |x.command|
    ensures Inv(s.(rx := x.(commandEnd := 0), input := rest), cfg)
  {
    assert LenOf(x.command) == LenOf(s.rx.command);
  }

  lemma CollectInv(s: State, x: Rx, rest: seq<bv8>, cfg: Config)
    requires Inv(s, cfg) && s.rx.commandEnd > 0 && x.lastMicros < TIME_WRAP
    requires |x.command| == |s.rx.command| && x.command[0] == s.rx.command[0] && x.ffIn == s.rx.ffIn
    requires 0 < x.commandEnd <= cfg.commandSize && x.commandEnd < FrameLen(LenOf(s.rx.command))
    ensures Inv(s.(rx := x, input := rest), cfg)
  {
    assert LenOf(x.command) == LenOf(s.rx.command);
  }

  /** serial() keeps the invariant: in particular command_end stays within
      COMMAND_SIZE and below the length of the frame in progress. */
  lemma SerialStepInv(s: State, cfg: Config, now: nat)
    requires Inv(s, cfg) && now < TIME_WRAP
    ensures Inv(SerialStep(s, cfg, now), cfg)
  {
    var s0 := s.(rx := Abandon(s.rx, now));
    ScanFirstInv(s0, cfg, now);
    var s1 := ScanFirst(s0, cfg, now);
    if s1.rx.commandEnd != 0 { ReadRestInv(s1, cfg, now); }
  }
}

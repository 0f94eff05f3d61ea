/** firmware/serial.cpp as it runs: the file-static and global variables as
    the fields of one object, command[], out_buffer and reply as arrays
    updated in place, and each routine a method proved to have the effect
    of the function of module Device that specifies it. */
module Serial {
  import opened FirmwareConfig
  import opened Bits
  import opened Codec
  import opened Frame
  import opened Outbound
  import opened Firmware
  import opened Device

  // ---------------------------------------------------------------------
  // Loops over one buffer
  // ---------------------------------------------------------------------

  /** prepare_packet (serial.cpp:217-256): unless byte 0 is COMMAND_SIZE or
      more, put ff into bit 7 of byte 1 and write the check bytes in order. */
  method PrepareBuffer(a: array<bv8>, ff: bv8, commandSize: nat)
    requires a.Length >= BUF_SIZE
    modifies a
    ensures a[..] == Prepared(old(a[..]), ff, commandSize)
  {
    if a[0] as nat >= commandSize {
      return;
    }
    a[1] := (a[1] & 0x7f) ^ ff;
    var L := (a[0] & 0x7f) as nat;
    PreparedIsStamp(old(a[..]), ff, commandSize, L);
    assert a[..] == old(a[..])[1 := (old(a[1]) & 0x7f) ^ ff];
    StampChecks(a, L);
  }

  /** The checksum loop of prepare_packet (serial.cpp:238-255): check byte t
      is computed from the buffer as it stands and written at L + t. */
  method StampChecks(a: array<bv8>, L: nat)
    requires Fits(a[..], L)
    modifies a
    ensures a[..] == Stamp(old(a[..]), L)
  {
    var t := 0;
    while t < (L + 2) / 3
      invariant t <= NumChecks(L) && Fits(a[..], L)
      invariant StampFrom(a[..], L, t) == Stamp(old(a[..]), L)
    {
      ghost var before := a[..];
      var sum := CheckByte(a, L, t);
      a[L + t] := sum;
      assert a[..] == StampOne(before, L, t);
      StampFromStep(before, L, t);
      t := t + 1;
    }
  }

  /** One pass of the checksum loop. */
  lemma StampFromStep(b: seq<bv8>, L: nat, t: nat)
    requires Fits(b, L) && t < NumChecks(L)
    ensures StampFrom(b, L, t) == StampFrom(StampOne(b, L, t), L, t + 1)
  {
  }

  /** Serial.readBytes into a at position at. */
  method ReadInto(a: array<bv8>, at: nat, bytes: seq<bv8>)
    requires at + |bytes| <= a.Length
    modifies a
    ensures a[..] == Fill(old(a[..]), at, bytes)
  {
    var i := 0;
    while i < |bytes|
      invariant i <= |bytes| && a[..] == Fill(old(a[..]), at, bytes[..i])
    {
      a[at + i] := bytes[i];
      i := i + 1;
    }
  }

  /** The first three bytes of a frame written into a buffer. */
  method Put3(a: array<bv8>, x0: bv8, x1: bv8, x2: bv8)
    requires a.Length >= 3
    modifies a
    ensures a[..] == Overwrite(old(a[..]), [x0, x1, x2])
  {
    a[0] := x0;
    a[1] := x1;
    a[2] := x2;
  }

  /** The first seven bytes of a frame written into a buffer: three header
      bytes and a four-byte float. */
  method Put7(a: array<bv8>, x0: bv8, x1: bv8, x2: bv8, f: seq<bv8>)
    requires a.Length >= 7 && |f| == 4
    modifies a
    ensures a[..] == Overwrite(old(a[..]), [x0, x1, x2] + f)
  {
    a[0] := x0;
    a[1] := x1;
    a[2] := x2;
    a[3] := f[0];
    a[4] := f[1];
    a[5] := f[2];
    a[6] := f[3];
  }

  /** The bytes one branch of try_send_next (serial.cpp:287-455) writes
      into its buffer before the call to send_packet. */
  method PutSource(a: array<bv8>, p: Pending, src: Source, cfg: Config)
    requires a.Length >= 7 && !src.Reply?
    requires WellFormed(p, cfg) && ValidSource(src, cfg) && Pend(p, src, cfg)
    modifies a
    ensures a[..] == Overwrite(old(a[..]), Payload(p, src, cfg))
  {
    match src {
      case Limit(w) => Put7(a, 7, cfg.cmdLimit, w as bv8, p.limits[w].value);
      case Sense(w) => Put7(a, 7, cfg.cmdSense, (w as bv8) | (p.senseState[w] & 0x80), p.sensePos[w]);
      case MoveCb => Put3(a, 3, cfg.cmdMoveCb, p.moveCbs);
      case TempCb(w) => Put3(a, 3, cfg.cmdTempCb, w as bv8);
      case Continue(which) => Put3(a, 3, cfg.cmdContinue, which as bv8);
      case AutoSleep => Put3(a, 3, cfg.cmdAutoSleep, p.autoSleep);
      case Pong(b) => Put3(a, 3, cfg.cmdPong, b as bv8);
    }
  }

  /** Serial.write of each byte in turn. */
  method WriteSeq(bytes: seq<bv8>, line: seq<bv8>) returns (r: seq<bv8>)
    ensures r == line + bytes
  {
    r := line;
    for i := 0 to |bytes|
      invariant r == line + bytes[..i]
    {
      r := r + [bytes[i]];
    }
  }

  /** The checksum test of serial() on a received frame. */
  method Verify(a: array<bv8>, L: nat) returns (ok: bool)
    requires Fits(a[..], L)
    ensures ok == FrameOk(a[..], L)
  {
    ok := FrameCheck(a, L);
  }

  /** The clamps of serial.cpp:118-123 on the number of bytes to read. */
  method ChunkLen(avail: nat, end: nat, size: nat, n: nat) returns (len: nat)
    requires end <= size && end <= n
    ensures len == Chunk(avail, end, size, n)
  {
    len := avail;
    if len + end > size {
      len := size - end;
    }
    if end + len > n {
      len := n - end;
    }
  }

  /** The loop of send_packet (serial.cpp:265-267): bytes 0 .. n - 1 of a
      written to the line, one Serial.write at a time. */
  method WriteBytes(a: array<bv8>, n: nat, line: seq<bv8>) returns (r: seq<bv8>)
    requires n <= a.Length
    ensures r == line + a[..n]
  {
    r := line;
    var t := 0;
    while t < n
      invariant t <= n && r == line + a[..t]
    {
      r := r + [a[t]];
      t := t + 1;
    }
  }

  /** The tests of try_send_next (serial.cpp:287-455), in their order: the
      source whose branch it enters. */
  method NextSource(p: Pending, cfg: Config) returns (next: Option<Source>)
    requires WellFormed(p, cfg)
    ensures next == First(p, cfg)
  {
    var w := 0;
    while w < cfg.maxAxes
      invariant w <= cfg.maxAxes && AxisFrom(p, w) == AxisFrom(p, 0)
    {
      if p.limits[w].Some? {
        return Some(Limit(w));
      }
      if p.senseState[w] & 1 != 0 {
        return Some(Sense(w));
      }
      w := w + 1;
    }
    if p.moveCbs != 0 {
      return Some(MoveCb);
    }
    if p.tempCbs != {} {
      w := 0;
      while w < cfg.maxObject
        invariant w <= cfg.maxObject
        invariant LowestFrom(p.tempCbs, w, cfg.maxObject) == LowestFrom(p.tempCbs, 0, cfg.maxObject)
      {
        if w in p.tempCbs {
          return Some(TempCb(w));
        }
        w := w + 1;
      }
      return None;
    }
    if p.replyReady {
      return Some(Reply);
    }
    if p.continueCb & 1 != 0 {
      return Some(Continue(0));
    }
    if p.continueCb & 2 != 0 {
      return Some(Continue(1));
    }
    if p.autoSleep != 0 {
      return Some(AutoSleep);
    }
    if p.ping != 0 {
      var b := 0;
      while b < 8
        invariant b <= 8 && LowestBitFrom(p.ping, b) == LowestBitFrom(p.ping, 0)
      {
        if HasBit(p.ping, b) {
          return Some(Pong(b));
        }
        b := b + 1;
      }
    }
    return None;
  }

  // ---------------------------------------------------------------------
  // The link
  // ---------------------------------------------------------------------

  class Link {
    const cfg: Config
    const command: array<bv8>
    const outBuffer: array<bv8>
    const reply: array<bv8>

    // serial()'s receiving state
    var commandEnd: nat
    var ffIn: bv8
    var lastMicros: nat
    var hadData: bool

    // the sending state
    var ffOut: bv8
    var outBusy: bool
    var outTime: nat
    var lastPacket: BufId
    var pending: Pending
    var initialized: bool

    /** The serial line: bytes not yet read, every byte written, and the
        frames handed to packet(). */
    var input: seq<bv8>
    var output: seq<bv8>
    var delivered: seq<seq<bv8>>

    /** The bytes of the frame in flight, as send_packet wrote them. */
    ghost var lastFrame: seq<bv8>

    /** The buffer last_packet points to. */
    function Buf(id: BufId): array<bv8> {
      if id == OutBuf then outBuffer else reply
    }

    ghost function RxOf(): Rx
      reads this, command
    {
      Rx(commandEnd, ffIn, lastMicros, hadData, command[..])
    }

    ghost function TxOf(): Tx
      reads this, outBuffer, reply
    {
      Tx(ffOut, outBusy, outTime, lastPacket, pending, initialized, outBuffer[..], reply[..], lastFrame)
    }

    /** The object as a value of the model. */
    ghost function St(): State
      reads this, command, outBuffer, reply
    {
      State(RxOf(), TxOf(), input, output, delivered)
    }

    ghost predicate Valid()
      reads this, command, outBuffer, reply
    {
      command != outBuffer && command != reply && outBuffer != reply && Inv(St(), cfg)
    }

    /** The state at power-up (serial.cpp:20-23): both flip-flops 0, no
        frame in progress and none in flight. */
    constructor (cfg: Config, pending: Pending, initialized: bool)
      requires FirmwareConfig.Valid(cfg) && cfg.commandSize >= 1 && WellFormed(pending, cfg)
      ensures Valid() && this.cfg == cfg
      ensures St() == State(
        Rx(0, 0, 0, false, command[..]),
        Tx(0, false, 0, OutBuf, pending, initialized, outBuffer[..], reply[..], []),
        [], [], [])
    {
      this.cfg := cfg;
      command := new bv8[cfg.commandSize];
      outBuffer := new bv8[BUF_SIZE];
      reply := new bv8[BUF_SIZE];
      commandEnd, ffIn, lastMicros, hadData := 0, 0, 0, false;
      ffOut, outBusy, outTime, lastPacket := 0, false, 0, OutBuf;
      this.pending, this.initialized := pending, initialized;
      input, output, delivered := [], [], [];
      lastFrame := [];
    }

    /** Bytes arriving on the serial line. */
    method Receive(bytes: seq<bv8>)
      requires Valid()
      modifies this
      ensures Valid() && St() == old(St()).(input := old(St()).input + bytes)
    {
      input := input + bytes;
    }

    /** write_ack (serial.cpp:458-461). */
    method WriteAck()
      requires Valid()
      modifies this
      ensures Valid() && St() == WriteAckOf(old(St()), cfg)
    {
      output := output + [if ffIn != 0 then cfg.ack0 else cfg.ack1];
    }

    /** write_ackwait (serial.cpp:463-466). */
    method WriteAckWait()
      requires Valid()
      modifies this
      ensures Valid() && St() == WriteAckWaitOf(old(St()), cfg)
    {
      output := output + [if ffIn != 0 then cfg.ackWait0 else cfg.ackWait1];
    }

    /** prepare_packet on buffer id. */
    method PreparePacket(id: BufId)
      requires Valid()
      modifies Buf(id)
      ensures St() == old(St()).(tx := Prepare(old(St()).tx, id, cfg))
    {
      PrepareBuffer(Buf(id), ffOut, cfg.commandSize);
    }

    /** send_packet (serial.cpp:259-270): write the frame in buffer id and
        wait for its ACK. */
    method SendPacket(id: BufId, now: nat)
      requires Buf(id).Length >= BUF_SIZE
      modifies this
      ensures St() == Send(old(St()), id, now)
    {
      var a := Buf(id);
      var L := LenOf(a[..]);
      SentIs(a[..], L);
      var line := WriteBytes(a, FrameLen(L), output);
      lastPacket, output, outBusy, outTime, lastFrame := id, line, true, now, a[..FrameLen(L)];
    }

    /** The branch of try_send_next for src: its bytes are written into its
        buffer and its flag is cleared. */
    method LoadSource(src: Source)
      requires command != outBuffer && command != reply && outBuffer != reply
      requires TxShape(TxOf(), cfg) && ValidSource(src, cfg) && Pend(pending, src, cfg)
      modifies this, outBuffer, reply
      ensures St() == old(St()).(tx := Load(old(TxOf()), src, cfg))
    {
      var p := pending;
      if src.Pong? {
        PutSource(reply, p, src, cfg);
      } else if !src.Reply? {
        PutSource(outBuffer, p, src, cfg);
      }
      pending := Clear(p, src, cfg);
    }

    /** try_send_next (serial.cpp:273-456): nothing while a frame is in
        flight; otherwise the first pending source's branch, which either
        sends its frame or, for an entry dropped while not initialized,
        starts over. */
    method TrySendNext(now: nat)
      requires Valid() && now < TIME_WRAP
      modifies this, outBuffer, reply
      ensures Valid() && St() == SendNext(old(St()), cfg, now)
      decreases Weight(pending)
    {
      SendNextInv(St(), cfg, now);
      if outBusy {
        return;
      }
      var next := NextSource(pending, cfg);
      if next.None? {
        SendNextNothing(St(), cfg, now);
        return;
      }
      var src := next.value;
      if Droppable(src) && !initialized {
        SendNextDrops(St(), cfg, now);
        LoadInv(St(), src, cfg);
        LoadSource(src);
        TrySendNext(now);
      } else {
        SendNextLoads(St(), cfg, now);
        SendSource(src, now);
      }
    }

    /** The branch of try_send_next that sends src's frame. */
    method SendSource(src: Source, now: nat)
      requires Valid() && !outBusy && ValidSource(src, cfg) && Pend(pending, src, cfg)
      modifies this, outBuffer, reply
      ensures St() == Send(old(St()).(tx := Prepare(Load(old(TxOf()), src, cfg), BufOf(src), cfg)), BufOf(src), now)
    {
      LoadSource(src);
      PreparePacket(BufOf(src));
      SendPacket(BufOf(src), now);
    }

    /** The ID answer (serial.cpp:84-86): CMD_ID, then the printer id one
        byte at a time. */
    method WriteId()
      modifies this
      ensures St() == OnId(old(St()), cfg)
    {
      var line := WriteSeq(cfg.printerId, output + [cfg.id]);
      output := line;
    }

    /** One pass of the loop at serial.cpp:45-97: the byte read decides
        which branch runs. */
    method ReadFirstByte(now: nat)
      requires Valid() && commandEnd == 0 && input != [] && now < TIME_WRAP
      modifies this, command, outBuffer, reply
      ensures Valid() && St() == ReadFirst(old(St()), cfg, now)
    {
      ReadFirstInv(St(), cfg, now);
      var b := input[0];
      if b == cfg.ack0 || b == cfg.ack1 {
        FirstAck(now);
      } else if b == cfg.nack {
        FirstNack(now);
      } else if b == cfg.id {
        FirstId(now);
      } else if b < 3 || b == 4 || b >= 0x80 {
        FirstIllegal(now);
      } else {
        FirstStart(now);
      }
    }

    /** serial.cpp:61-72: an ACK. */
    method FirstAck(now: nat)
      requires Valid() && commandEnd == 0 && input != [] && now < TIME_WRAP
      requires Classify(input[0], cfg) == AckByte
      modifies this, command, outBuffer, reply
      ensures St() == ReadFirst(old(St()), cfg, now)
    {
      var b := ReadByte();
      OnAckByte(b, now);
    }

    /** serial.cpp:73-78: a NACK. */
    method FirstNack(now: nat)
      requires Valid() && commandEnd == 0 && input != []
      requires Classify(input[0], cfg) == NackByte
      modifies this, command
      ensures St() == ReadFirst(old(St()), cfg, now)
    {
      var b := ReadByte();
      OnNackByte(now);
    }

    /** serial.cpp:79-86: CMD_ID. */
    method FirstId(now: nat)
      requires Valid() && commandEnd == 0 && input != []
      requires Classify(input[0], cfg) == IdByte
      modifies this, command
      ensures St() == ReadFirst(old(St()), cfg, now)
    {
      var b := ReadByte();
      WriteId();
    }

    /** serial.cpp:91-95: a length no frame can have. */
    method FirstIllegal(now: nat)
      requires Valid() && commandEnd == 0 && input != []
      requires Classify(input[0], cfg) == Illegal
      modifies this, command
      ensures St() == ReadFirst(old(St()), cfg, now)
    {
      var b := ReadByte();
      output := output + [cfg.nack];
    }

    /** serial.cpp:96-97: the first byte of a frame. */
    method FirstStart(now: nat)
      requires Valid() && commandEnd == 0 && input != []
      requires Classify(input[0], cfg) == Start
      modifies this, command
      ensures St() == ReadFirst(old(St()), cfg, now)
    {
      var b := ReadByte();
      commandEnd, lastMicros := 1, now;
    }

    /** serial.cpp:53-54: Serial.read into command[0]. */
    method ReadByte() returns (b: bv8)
      requires Valid() && commandEnd == 0 && input != []
      modifies this, command
      ensures b == old(input[0]) && Valid() && St() == Received(old(St()))
    {
      ReceivedInv(St(), cfg);
      b := input[0];
      command[0] := b;
      hadData, input := true, input[1..];
    }

    /** An ACK (serial.cpp:61-72). */
    method OnAckByte(b: bv8, now: nat)
      requires Valid() && now < TIME_WRAP
      modifies this, outBuffer, reply
      ensures St() == OnAck(old(St()), b, cfg, now)
    {
      if outBusy && AckAccepted(b, ffOut, cfg) {
        FreedInv(St(), cfg);
        ffOut, outBusy := ffOut ^ 0x80, false;
        TrySendNext(now);
      }
    }

    /** A NACK (serial.cpp:73-78). */
    method OnNackByte(now: nat)
      requires Valid()
      modifies this
      ensures St() == OnNack(old(St()), now)
    {
      if outBusy {
        SendPacket(lastPacket, now);
      }
    }

    /** serial.cpp:143-201 on a complete frame in command[]. */
    method ProcessFrame()
      requires command != outBuffer && command != reply && outBuffer != reply
      requires command.Length > 0 && LegalLen(LenOf(command[..]))
      requires FrameLen(LenOf(command[..])) <= command.Length
      modifies this, command
      ensures St() == Process(old(St()), cfg)
    {
      if command[0] <= 2 || command[0] == 4 {
        assert false;
      }
      var L := LenOf(command[..]);
      LegalFits(command[..], L);
      var ok := Verify(command, L);
      if !ok {
        Reject();
      } else if command[1] & 0x80 != ffIn {
        Repeat();
      } else {
        Accept(L);
      }
    }

    /** serial.cpp:152-176: a bad checksum is NACKed. */
    method Reject()
      requires command.Length > 0 && LegalLen(LenOf(command[..]))
      requires FrameLen(LenOf(command[..])) <= command.Length
      requires Fits(command[..], LenOf(command[..])) && !FrameOk(command[..], LenOf(command[..]))
      modifies this
      ensures St() == Process(old(St()), cfg)
    {
      ProcessNack(St(), cfg);
      output := output + [cfg.nack];
    }

    /** serial.cpp:181-193: a good frame with the old flip-flop is ACKed
        again and nothing else. */
    method Repeat()
      requires command.Length > 0 && LegalLen(LenOf(command[..]))
      requires FrameLen(LenOf(command[..])) <= command.Length
      requires Fits(command[..], LenOf(command[..])) && FrameOk(command[..], LenOf(command[..]))
      requires command[1] & 0x80 != ffIn
      modifies this
      ensures St() == Process(old(St()), cfg)
    {
      ProcessDuplicate(St(), cfg);
      output := output + [AckFor(ffIn, cfg)];
    }

    /** serial.cpp:195-201: a good new frame flips ff_in, has bit 7 of its
        command byte cleared and is handed to packet(). */
    method Accept(L: nat)
      requires command != outBuffer && command != reply
      requires command.Length > 0 && LegalLen(LenOf(command[..])) && L == LenOf(command[..])
      requires FrameLen(L) <= command.Length
      requires Fits(command[..], L) && FrameOk(command[..], L) && command[1] & 0x80 == ffIn
      modifies this, command
      ensures St() == Process(old(St()), cfg)
    {
      ProcessNew(St(), cfg);
      ffIn := ffIn ^ 0x80;
      command[1] := command[1] & 0x7f;
      delivered := delivered + [command[..L]];
    }

    /** serial.cpp:99-201, once a frame is in progress. */
    method ReadFrame(now: nat)
      requires Valid() && commandEnd > 0 && now < TIME_WRAP
      modifies this, command, outBuffer, reply
      ensures Valid() && St() == ReadRest(old(St()), cfg, now)
    {
      ReadRestInv(St(), cfg, now);
      if input == [] {
        Resend(now);
        return;
      }
      var n := ReadChunk(now);
      if commandEnd < n {
        return;
      }
      Complete();
    }

    /** serial.cpp:108-114: the resend timeout. */
    method Resend(now: nat)
      requires Valid()
      modifies this
      ensures St() == Timeout(old(St()), now)
    {
      if outBusy && Elapsed(now, outTime) >= 200000 {
        SendPacket(lastPacket, now);
      }
    }

    /** serial.cpp:118-129: as many bytes as fit in command[] and in the
        frame are read; n is the length of the whole frame. */
    method ReadChunk(now: nat) returns (n: nat)
      requires Valid() && commandEnd > 0 && input != []
      modifies this, command
      ensures n == FrameLen(LenOf(old(command[..])))
      ensures var len := Chunk(|old(input)|, old(commandEnd), cfg.commandSize, n);
        St() == old(St()).(rx := Collect(old(RxOf()), old(input)[..len], now), input := old(input)[len..])
    {
      n := FrameLen(LenOf(command[..]));
      var len := ChunkLen(|input|, commandEnd, cfg.commandSize, n);
      ReadInto(command, commandEnd, input[..len]);
      hadData, input, lastMicros, commandEnd := true, input[len..], now, commandEnd + len;
    }

    /** serial.cpp:143: the frame is complete; command_end is reset before
        it is checked. */
    method Complete()
      requires command != outBuffer && command != reply && outBuffer != reply
      requires command.Length > 0 && LegalLen(LenOf(command[..]))
      requires FrameLen(LenOf(command[..])) <= command.Length
      modifies this, command
      ensures St() == Process(old(St()).(rx := old(RxOf()).(commandEnd := 0)), cfg)
    {
      commandEnd := 0;
      ProcessFrame();
    }

    /** serial() (serial.cpp:34-202) at time now. */
    method Serial(now: nat)
      requires Valid() && now < TIME_WRAP
      modifies this, command, outBuffer, reply
      ensures Valid() && St() == SerialStep(old(St()), cfg, now)
    {
      AbandonStale(now);
      var started := Scan(now);
      if !started {
        return;
      }
      ReadFrame(now);
    }

    /** serial.cpp:36-45: a partial frame is dropped after 100 ms without
        data, and had_data is cleared. */
    method AbandonStale(now: nat)
      requires Valid()
      modifies this
      ensures Valid() && St() == old(St()).(rx := Abandon(old(RxOf()), now))
    {
      if !hadData && commandEnd > 0 && Elapsed(now, lastMicros) >= 100000 {
        commandEnd := 0;
      }
      hadData := false;
    }

    /** The loop at serial.cpp:45-97: it returns from serial() once nothing
        is left to read, and ends once a frame has started. */
    method Scan(now: nat) returns (started: bool)
      requires Valid() && now < TIME_WRAP
      modifies this, command, outBuffer, reply
      ensures Valid() && St() == ScanFirst(old(St()), cfg, now) && started == (commandEnd != 0)
    {
      ghost var s0 := St();
      while commandEnd == 0
        invariant Valid() && ScanFirst(St(), cfg, now) == ScanFirst(s0, cfg, now)
        decreases |input|
      {
        if input == [] {
          return false;
        }
        ReadFirstByte(now);
      }
      return true;
    }
  }
}

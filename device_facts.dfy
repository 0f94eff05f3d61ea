/** What serial(), send_packet and try_send_next promise, stated on the
    functions of module Device. */
module DeviceFacts {
  import opened FirmwareConfig
  import opened Codec
  import opened Frame
  import opened Outbound
  import opened Firmware
  import opened Device

  // ---------------------------------------------------------------------
  // Control bytes
  // ---------------------------------------------------------------------

  /** A byte read between frames is rejected exactly when it is no control
      code and no legal length (serial.cpp:91-95). */
  lemma ClassifyIllegal(b: bv8, cfg: Config)
    requires Valid(cfg)
    ensures Classify(b, cfg) == Illegal <==>
      b != cfg.ack0 && b != cfg.ack1 && b != cfg.nack && b != cfg.id && !(b < 0x80 && LegalLen(b as nat))
  {
    ClassifyStart(b, cfg);
  }

  /** For an ACK byte, the test of serial.cpp:64 accepts ACK0 while ff_out
      is clear and ACK1 while it is set. */
  lemma AckAcceptedIff(b: bv8, ffOut: bv8, cfg: Config)
    requires Valid(cfg) && (b == cfg.ack0 || b == cfg.ack1) && (ffOut == 0 || ffOut == 0x80)
    ensures AckAccepted(b, ffOut, cfg) <==> b == (if ffOut == 0 then cfg.ack0 else cfg.ack1)
  {
  }

  /** The two ends agree on the flip-flop: a receiver whose ff_in was f
      takes the frame sent with ff_out f, flips to f ^ 0x80 and answers with
      the ACK that sender accepts; the ACK it gave for the frame before
      (while its ff_in was still f) is refused. */
  lemma AckAgreement(f: bv8, cfg: Config)
    requires Valid(cfg) && (f == 0 || f == 0x80)
    ensures AckAccepted(AckFor(f ^ 0x80, cfg), f, cfg)
    ensures !AckAccepted(AckFor(f, cfg), f, cfg)
  {
  }

  // ---------------------------------------------------------------------
  // The first byte
  // ---------------------------------------------------------------------

  /** A byte that is neither a control code nor a legal length is answered
      with NACK and starts nothing. */
  lemma IllegalByteNacked(s: State, cfg: Config, now: nat)
    requires Shape(s, cfg) && s.rx.commandEnd == 0 && s.input != []
    requires var b := s.input[0];
      b != cfg.ack0 && b != cfg.ack1 && b != cfg.nack && b != cfg.id && !(b < 0x80 && LegalLen(b as nat))
    ensures var r := ReadFirst(s, cfg, now);
      r.output == s.output + [cfg.nack] && r.rx.commandEnd == 0 && r.tx == s.tx
      && r.delivered == s.delivered && r.input == s.input[1..]
  {
    ClassifyIllegal(s.input[0], cfg);
  }

  /** A legal length starts a frame: it is held in command[0] and
      command_end becomes 1; nothing is written. */
  lemma LengthStartsFrame(s: State, cfg: Config, now: nat)
    requires Shape(s, cfg) && s.rx.commandEnd == 0 && s.input != []
    requires s.input[0] < 0x80 && LegalLen(s.input[0] as nat)
    ensures var r := ReadFirst(s, cfg, now);
      r.rx.commandEnd == 1 && r.rx.command[0] == s.input[0] && r.rx.lastMicros == now
      && r.output == s.output && r.tx == s.tx && r.input == s.input[1..]
  {
    ClassifyStart(s.input[0], cfg);
  }

  /** CMD_ID is answered with CMD_ID and the printer id. */
  lemma IdAnswered(s: State, cfg: Config, now: nat)
    requires Shape(s, cfg) && s.rx.commandEnd == 0 && s.input != [] && s.input[0] == cfg.id
    ensures var r := ReadFirst(s, cfg, now);
      r.output == s.output + [cfg.id] + cfg.printerId && r.tx == s.tx && r.rx.commandEnd == 0
  {
  }

  /** An ACK that the frame in flight does not wait for, or one that comes
      while nothing is in flight, changes nothing on the sending side. */
  lemma StaleAckIgnored(s: State, cfg: Config, now: nat)
    requires Inv(s, cfg) && s.rx.commandEnd == 0 && s.input != []
    requires s.input[0] == (if s.tx.ffOut == 0 then cfg.ack1 else cfg.ack0) || !s.tx.outBusy
    requires s.input[0] == cfg.ack0 || s.input[0] == cfg.ack1
    ensures var r := ReadFirst(s, cfg, now);
      r.tx == s.tx && r.output == s.output && r.rx.commandEnd == 0
  {
  }

  /** The ACK the frame in flight waits for flips ff_out and frees the line
      for the next frame. */
  lemma AckReleases(s: State, cfg: Config, now: nat)
    requires Inv(s, cfg) && s.rx.commandEnd == 0 && s.input != [] && s.tx.outBusy
    requires s.input[0] == (if s.tx.ffOut == 0 then cfg.ack0 else cfg.ack1)
    ensures var r := ReadFirst(s, cfg, now);
      r.tx.ffOut == s.tx.ffOut ^ 0x80 && r.rx.commandEnd == 0
      && r == SendNext(s.(rx := r.rx, tx := s.tx.(ffOut := s.tx.ffOut ^ 0x80, outBusy := false), input := r.input), cfg, now)
  {
  }

  /** A NACK resends exactly the bytes of the frame in flight; without one
      in flight it is ignored. */
  lemma NackResends(s: State, now: nat, cfg: Config)
    requires Inv(s, cfg)
    ensures var r := OnNack(s, now);
      if s.tx.outBusy then r.output == s.output + s.tx.lastFrame && r.tx == s.tx.(outTime := now) && r.rx == s.rx
      else r == s
  {
  }

  // ---------------------------------------------------------------------
  // A whole frame
  // ---------------------------------------------------------------------

  /** The firmware's test on command[] is the test of the frame's own
      FrameLen(L) bytes: the check bytes are right exactly when FrameOk
      holds. */
  lemma FrameVerdict(c: seq<bv8>)
    requires |c| > 0 && LegalLen(LenOf(c)) && FrameLen(LenOf(c)) <= |c|
    ensures var L := LenOf(c); var f := c[..FrameLen(L)];
      Fits(c, L) && Fits(f, L) && (FrameOk(c, L) <==> FrameChecked(f, L))
      && f[1] == c[1] && f[..L] == c[..L]
  {
    var L := LenOf(c);
    LegalFits(c, L);
    LegalFrameFits(L);
    TruncateFrame(c, L);
    FrameOkIff(c, L);
  }

  /** The FrameLen(L) bytes f are an intact frame of length L. */
  ghost predicate Intact(f: seq<bv8>, L: nat) {
    Fits(f, L) && FrameChecked(f, L)
  }

  /** The bytes of the frame held in command[]. */
  function FrameIn(c: seq<bv8>): seq<bv8>
    requires |c| > 0 && FrameLen(LenOf(c)) <= |c|
  {
    c[..FrameLen(LenOf(c))]
  }

  /** A complete frame whose check bytes are wrong is NACKed and nothing
      else happens (serial.cpp:152-176). */
  lemma ProcessRejects(s: State, cfg: Config)
    requires |s.rx.command| > 0 && LegalLen(LenOf(s.rx.command))
    requires FrameLen(LenOf(s.rx.command)) <= |s.rx.command|
    requires !Intact(FrameIn(s.rx.command), LenOf(s.rx.command))
    ensures Process(s, cfg) == s.(output := s.output + [cfg.nack])
  {
    FrameVerdict(s.rx.command);
  }

  /** A single bit flipped on the line in an intact frame f is caught:
      the frame is NACKed and nothing is handed on.  The flipped byte can
      be any byte of the frame, the length byte too as long as the length
      read from it is still L (its bit 7). */
  lemma SingleBitNacked(s: State, cfg: Config, f: seq<bv8>, i: nat, e: bv8)
    requires |s.rx.command| > 0 && LegalLen(LenOf(s.rx.command))
    requires FrameLen(LenOf(s.rx.command)) <= |s.rx.command|
    requires Intact(f, LenOf(s.rx.command)) && OneBit(e) && i < |f|
    requires FrameIn(s.rx.command) == f[i := f[i] ^ e]
    ensures Process(s, cfg) == s.(output := s.output + [cfg.nack])
  {
    var L := LenOf(s.rx.command);
    LegalFrameFits(L);
    SingleBitFrame(f, L, i, e);
    ProcessRejects(s, cfg);
  }

  /** An intact frame whose flip-flop bit is not ff_in repeats the frame
      taken last: the ACK is sent again and nothing else happens
      (serial.cpp:181-193). */
  lemma ProcessRepeats(s: State, cfg: Config)
    requires |s.rx.command| > 0 && LegalLen(LenOf(s.rx.command))
    requires FrameLen(LenOf(s.rx.command)) <= |s.rx.command|
    requires Intact(FrameIn(s.rx.command), LenOf(s.rx.command))
    requires FrameIn(s.rx.command)[1] & 0x80 != s.rx.ffIn
    ensures Process(s, cfg) == s.(output := s.output + [AckFor(s.rx.ffIn, cfg)])
  {
    FrameVerdict(s.rx.command);
  }

  /** An intact new frame flips ff_in and is handed on, its first L bytes
      with bit 7 of the command byte cleared; nothing is written
      (serial.cpp:195-201). */
  lemma ProcessAccepts(s: State, cfg: Config)
    requires |s.rx.command| > 0 && LegalLen(LenOf(s.rx.command))
    requires FrameLen(LenOf(s.rx.command)) <= |s.rx.command|
    requires Intact(FrameIn(s.rx.command), LenOf(s.rx.command))
    requires FrameIn(s.rx.command)[1] & 0x80 == s.rx.ffIn
    ensures var f := FrameIn(s.rx.command); var r := Process(s, cfg);
      r.output == s.output && r.tx == s.tx && r.input == s.input
      && r.rx == s.rx.(ffIn := s.rx.ffIn ^ 0x80, command := s.rx.command[1 := f[1] & 0x7f])
      && r.delivered == s.delivered + [f[..LenOf(s.rx.command)][1 := f[1] & 0x7f]]
  {
    FrameVerdict(s.rx.command);
  }

  // ---------------------------------------------------------------------
  // The bytes after the first
  // ---------------------------------------------------------------------

  /** The bytes read are appended to the ones already held. */
  lemma CollectAppends(x: Rx, bytes: seq<bv8>, now: nat)
    requires 0 < x.commandEnd && x.commandEnd + |bytes| <= |x.command|
    ensures Collect(x, bytes, now).command[..x.commandEnd + |bytes|] == x.command[..x.commandEnd] + bytes
  {
    var c := Fill(x.command, x.commandEnd, bytes);
    assert c[..x.commandEnd + |bytes|] == c[..x.commandEnd] + c[x.commandEnd..x.commandEnd + |bytes|];
  }

  /** The bytes completing the frame: when they are available, exactly the
      bytes the frame lacks are read, and the frame in command[] is then the
      bytes held before followed by those. */
  lemma TakeReads(s: State, cfg: Config, now: nat)
    requires Shape(s, cfg) && s.rx.commandEnd > 0 && s.input != []
    requires FrameLen(LenOf(s.rx.command)) <= cfg.commandSize
    requires s.rx.commandEnd + |s.input| >= FrameLen(LenOf(s.rx.command))
    ensures var e := s.rx.commandEnd; var n := FrameLen(LenOf(s.rx.command));
      var len := Chunk(|s.input|, e, cfg.commandSize, n);
      var x := Collect(s.rx, s.input[..len], now);
      len == n - e && LenOf(x.command) == LenOf(s.rx.command)
      && FrameIn(x.command) == s.rx.command[..e] + s.input[..n - e]
  {
    var e := s.rx.commandEnd;
    var n := FrameLen(LenOf(s.rx.command));
    CollectAppends(s.rx, s.input[..n - e], now);
  }

  /** A completed frame f whose check bytes are wrong is NACKed. */
  lemma TakeRejects(s: State, cfg: Config, now: nat)
    requires Shape(s, cfg) && s.rx.commandEnd > 0 && s.input != []
    requires FrameLen(LenOf(s.rx.command)) <= cfg.commandSize
    requires s.rx.commandEnd + |s.input| >= FrameLen(LenOf(s.rx.command))
    requires var f := s.rx.command[..s.rx.commandEnd] + s.input[..FrameLen(LenOf(s.rx.command)) - s.rx.commandEnd]; !Intact(f, LenOf(s.rx.command))
    ensures var r := Take(s, cfg, now); var n := FrameLen(LenOf(s.rx.command));
      r.output == s.output + [cfg.nack] && r.delivered == s.delivered && r.tx == s.tx
      && r.rx.commandEnd == 0 && r.rx.ffIn == s.rx.ffIn && r.input == s.input[n - s.rx.commandEnd..]
  {
    var e := s.rx.commandEnd;
    var len := Chunk(|s.input|, e, cfg.commandSize, FrameLen(LenOf(s.rx.command)));
    TakeReads(s, cfg, now);
    ProcessRejects(s.(rx := Collect(s.rx, s.input[..len], now).(commandEnd := 0), input := s.input[len..]), cfg);
  }

  /** A completed intact frame f whose flip-flop bit is not ff_in is ACKed
      again and not handed on. */
  lemma TakeRepeats(s: State, cfg: Config, now: nat)
    requires Shape(s, cfg) && s.rx.commandEnd > 0 && s.input != []
    requires FrameLen(LenOf(s.rx.command)) <= cfg.commandSize
    requires s.rx.commandEnd + |s.input| >= FrameLen(LenOf(s.rx.command))
    requires var f := s.rx.command[..s.rx.commandEnd] + s.input[..FrameLen(LenOf(s.rx.command)) - s.rx.commandEnd]; Intact(f, LenOf(s.rx.command)) && f[1] & 0x80 != s.rx.ffIn
    ensures var r := Take(s, cfg, now); var n := FrameLen(LenOf(s.rx.command));
      r.output == s.output + [AckFor(s.rx.ffIn, cfg)] && r.delivered == s.delivered && r.tx == s.tx
      && r.rx.commandEnd == 0 && r.rx.ffIn == s.rx.ffIn && r.input == s.input[n - s.rx.commandEnd..]
  {
    var e := s.rx.commandEnd;
    var len := Chunk(|s.input|, e, cfg.commandSize, FrameLen(LenOf(s.rx.command)));
    TakeReads(s, cfg, now);
    ProcessRepeats(s.(rx := Collect(s.rx, s.input[..len], now).(commandEnd := 0), input := s.input[len..]), cfg);
  }

  /** A completed intact new frame f flips ff_in and is handed on, its
      first L bytes with bit 7 of the command byte cleared. */
  lemma TakeAccepts(s: State, cfg: Config, now: nat)
    requires Shape(s, cfg) && s.rx.commandEnd > 0 && s.input != []
    requires FrameLen(LenOf(s.rx.command)) <= cfg.commandSize
    requires s.rx.commandEnd + |s.input| >= FrameLen(LenOf(s.rx.command))
    requires var f := s.rx.command[..s.rx.commandEnd] + s.input[..FrameLen(LenOf(s.rx.command)) - s.rx.commandEnd]; Intact(f, LenOf(s.rx.command)) && f[1] & 0x80 == s.rx.ffIn
    ensures var f := s.rx.command[..s.rx.commandEnd] + s.input[..FrameLen(LenOf(s.rx.command)) - s.rx.commandEnd];
      var r := Take(s, cfg, now); var L := LenOf(s.rx.command);
      r.output == s.output && r.delivered == s.delivered + [f[..L][1 := f[1] & 0x7f]] && r.tx == s.tx
      && r.rx.commandEnd == 0 && r.rx.ffIn == s.rx.ffIn ^ 0x80 && r.input == s.input[FrameLen(L) - s.rx.commandEnd..]
  {
    var e := s.rx.commandEnd;
    var len := Chunk(|s.input|, e, cfg.commandSize, FrameLen(LenOf(s.rx.command)));
    TakeReads(s, cfg, now);
    ProcessAccepts(s.(rx := Collect(s.rx, s.input[..len], now).(commandEnd := 0), input := s.input[len..]), cfg);
  }

  /** Bytes that do not complete the frame are appended to it and nothing is
      written. */
  lemma TakePartial(s: State, cfg: Config, now: nat)
    requires Shape(s, cfg) && s.rx.commandEnd > 0 && s.input != []
    requires s.rx.commandEnd + |s.input| < FrameLen(LenOf(s.rx.command))
    requires s.rx.commandEnd + |s.input| <= cfg.commandSize
    ensures var e := s.rx.commandEnd; var r := Take(s, cfg, now);
      r.rx.commandEnd == e + |s.input| && r.rx.command[..e + |s.input|] == s.rx.command[..e] + s.input
      && r.rx.lastMicros == now && r.rx.ffIn == s.rx.ffIn
      && r.input == [] && r.output == s.output && r.tx == s.tx && r.delivered == s.delivered
  {
    var e := s.rx.commandEnd;
    var c := Fill(s.rx.command, e, s.input);
    assert c[..e + |s.input|] == c[..e] + c[e..e + |s.input|];
  }

  /** A length whose frame is longer than COMMAND_SIZE can never complete:
      the bytes are read up to COMMAND_SIZE and nothing else happens.  Only
      the abandon timer can end such a frame, and it never fires while
      bytes keep waiting (StalledFrameFixedPoint). */
  lemma TakeStalls(s: State, cfg: Config, now: nat)
    requires Shape(s, cfg) && s.rx.commandEnd > 0 && s.input != []
    requires FrameLen(LenOf(s.rx.command)) > cfg.commandSize
    ensures var r := Take(s, cfg, now);
      0 < r.rx.commandEnd <= cfg.commandSize && r.output == s.output && r.tx == s.tx && r.delivered == s.delivered
  {
  }

  /** Once command[] is full (command_end == COMMAND_SIZE) with bytes
      waiting, a call of serial() that does not abandon the frame reads
      nothing, writes nothing and only sets had_data and last_micros.  The
      state it leaves has had_data set, so the next call does not abandon
      the frame either: while input is waiting the receiver is stuck for
      good, and the resend timer, looked at only when nothing is waiting,
      is never consulted (serial.cpp:36-44, 116-129). */
  lemma StalledFrameFixedPoint(s: State, cfg: Config, now: nat)
    requires Shape(s, cfg) && s.rx.commandEnd == cfg.commandSize && s.input != []
    requires s.rx.hadData || Elapsed(now, s.rx.lastMicros) < 100000
    ensures SerialStep(s, cfg, now) == s.(rx := s.rx.(hadData := true, lastMicros := now))
  {
    var x := Abandon(s.rx, now);
    assert Fill(x.command, x.commandEnd, []) == x.command;
    assert s.input[0..] == s.input;
  }

  /** With nothing to read, a frame unacknowledged for 200 ms or more is
      sent again, byte for byte; otherwise nothing happens
      (serial.cpp:99-115). */
  lemma ResendOnTimeout(s: State, cfg: Config, now: nat)
    requires Inv(s, cfg) && s.rx.commandEnd > 0 && s.input == []
    ensures var r := ReadRest(s, cfg, now);
      if s.tx.outBusy && Elapsed(now, s.tx.outTime) >= 200000 then
        r.output == s.output + s.tx.lastFrame && r.tx == s.tx.(outTime := now) && r.rx == s.rx
      else r == s
  {
  }

  /** The resend timer is only looked at while a frame is being received:
      a call that finds no frame in progress and nothing to read writes
      nothing, however long the frame in flight has waited
      (serial.cpp:45-52). */
  lemma IdleNoResend(s: State, cfg: Config, now: nat)
    requires Shape(s, cfg) && s.input == [] && Abandon(s.rx, now).commandEnd == 0
    ensures SerialStep(s, cfg, now) == s.(rx := Abandon(s.rx, now))
  {
  }

  /** A partial frame survives a call without data only if the call before
      saw data or less than 100 ms have passed since its last byte
      (serial.cpp:36-45). */
  lemma AbandonRule(x: Rx, now: nat)
    requires x.commandEnd > 0
    ensures Abandon(x, now).commandEnd == 0 <==> !x.hadData && Elapsed(now, x.lastMicros) >= 100000
    ensures Abandon(x, now).commandEnd != 0 ==> Abandon(x, now) == x.(hadData := false)
  {
  }

  /** Two calls with nothing to read, the second 100 ms or more after the
      frame's last byte, always drop a partial frame. */
  lemma QuietFrameDropped(s: State, cfg: Config, t1: nat, t2: nat)
    requires Inv(s, cfg) && s.input == [] && Elapsed(t2, s.rx.lastMicros) >= 100000 && t1 < TIME_WRAP
    ensures var s1 := SerialStep(s, cfg, t1); Shape(s1, cfg) && SerialStep(s1, cfg, t2).rx.commandEnd == 0
  {
    SerialStepInv(s, cfg, t1);
  }

  /** A retry of a frame already taken is not handed on a second time: it
      is answered with the same ACK the receiver now waits to have
      accepted. */
  lemma RetryDeliveredOnce(s: State, cfg: Config)
    requires |s.rx.command| > 0 && LegalLen(LenOf(s.rx.command))
    requires FrameLen(LenOf(s.rx.command)) <= |s.rx.command|
    requires Intact(FrameIn(s.rx.command), LenOf(s.rx.command))
    requires FrameIn(s.rx.command)[1] & 0x80 == s.rx.ffIn
    ensures var s1 := Process(s, cfg);
      var s2 := Process(s1.(rx := s1.rx.(command := s.rx.command)), cfg);
      |s1.delivered| == |s.delivered| + 1 && s2.delivered == s1.delivered
      && s2.output == s1.output + [AckFor(s.rx.ffIn ^ 0x80, cfg)]
  {
    ProcessAccepts(s, cfg);
    var s1 := Process(s, cfg);
    ProcessRepeats(s1.(rx := s1.rx.(command := s.rx.command)), cfg);
  }

  // ---------------------------------------------------------------------
  // try_send_next
  // ---------------------------------------------------------------------

  /** While a frame is in flight try_send_next does nothing. */
  lemma SendNextWaits(s: State, cfg: Config, now: nat)
    requires TxShape(s.tx, cfg) && s.tx.outBusy
    ensures SendNext(s, cfg, now) == s
  {
  }

  /** Otherwise the flags and buffers become those of the scan of
      try_send_next, and when the scan settles on nothing, nothing is
      written and the line stays free. */
  lemma SendNextIdle(s: State, cfg: Config, now: nat)
    requires TxShape(s.tx, cfg) && !s.tx.outBusy
    requires Schedule(s.tx.pending, s.tx.outBuffer, s.tx.reply, cfg, s.tx.initialized).sent.None?
    ensures var o := Schedule(s.tx.pending, s.tx.outBuffer, s.tx.reply, cfg, s.tx.initialized);
      var r := SendNext(s, cfg, now);
      ScheduleFlags(s.tx.pending, o, cfg, s.tx.initialized)
      && r.tx == s.tx.(pending := o.pending, outBuffer := o.out, reply := o.reply) && r.output == s.output
  {
    ScheduleSpec(s.tx.pending, s.tx.outBuffer, s.tx.reply, cfg, s.tx.initialized);
  }

  /** When the scan settles on a source, its buffer is prepared and sent:
      the line is busy with the frame written, taken from that source's
      buffer after prepare_packet. */
  lemma SendNextSends(s: State, cfg: Config, now: nat)
    requires TxShape(s.tx, cfg) && !s.tx.outBusy
    requires Schedule(s.tx.pending, s.tx.outBuffer, s.tx.reply, cfg, s.tx.initialized).sent.Some?
    ensures var o := Schedule(s.tx.pending, s.tx.outBuffer, s.tx.reply, cfg, s.tx.initialized);
      var src := o.sent.value;
      var r := SendNext(s, cfg, now);
      ScheduleFlags(s.tx.pending, o, cfg, s.tx.initialized)
      && r.tx.pending == o.pending && r.tx.outBusy && r.tx.outTime == now && r.tx.lastPacket == BufOf(src)
      && r.tx.ffOut == s.tx.ffOut && r.output == s.output + r.tx.lastFrame
      && |BufferOf(o, BufOf(src))| >= BUF_SIZE
      && r.tx.lastFrame == Sent(Prepared(BufferOf(o, BufOf(src)), s.tx.ffOut, cfg.commandSize))
  {
    ScheduleSpec(s.tx.pending, s.tx.outBuffer, s.tx.reply, cfg, s.tx.initialized);
  }

  /** The frame it sends for every source but a reply is intact, carries
      ff_out in bit 7 of its command byte and starts with that source's
      bytes as they were when try_send_next was called. */
  lemma SendNextFrame(s: State, cfg: Config, now: nat)
    requires TxShape(s.tx, cfg) && !s.tx.outBusy && (s.tx.ffOut == 0 || s.tx.ffOut == 0x80)
    requires cfg.commandSize > 7
    requires var o := Schedule(s.tx.pending, s.tx.outBuffer, s.tx.reply, cfg, s.tx.initialized);
      o.sent.Some? && !o.sent.value.Reply?
    ensures var o := Schedule(s.tx.pending, s.tx.outBuffer, s.tx.reply, cfg, s.tx.initialized);
      var src := o.sent.value;
      ValidSource(src, cfg) && Pend(s.tx.pending, src, cfg) &&
      var head := Payload(s.tx.pending, src, cfg);
      var f := SendNext(s, cfg, now).tx.lastFrame;
      |f| == FrameLen(|head|) && Intact(f, |head|) && f[..|head|] == head[1 := (head[1] & 0x7f) | s.tx.ffOut]
  {
    var p := s.tx.pending;
    SendNextSends(s, cfg, now);
    ScheduleBuffers(p, s.tx.outBuffer, s.tx.reply, cfg, s.tx.initialized);
    var o := Schedule(p, s.tx.outBuffer, s.tx.reply, cfg, s.tx.initialized);
    var src := o.sent.value;
    PreparedPayload(BufferOf(o, BufOf(src)), Payload(p, src, cfg), s.tx.ffOut, cfg.commandSize);
  }
}

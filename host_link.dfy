/** The host's side of the link (printer3d.py, Printer.send_packet and
    Printer.recv_packet): the flip-flops, resending on NACK or silence,
    recognising a repeated frame, and the asynchronous events recv_packet
    consumes itself.  The serial port is a script of events: each byte the
    firmware sends, and Quiet where a read times out.  A read that finds
    the script exhausted ends the run as Starved, since the model does not
    say what the line does after its last event. */
module HostLink {
  import opened Codec
  import Outbound
  import opened HostCodec
  import opened Firmware

  // Single-byte codes (printer3d.py, Printer.single).
  const ACK: bv8 := 0x80
  const NACK: bv8 := 0xe1
  const ACKWAIT: bv8 := 0xd2
  const STALL: bv8 := 0xb3
  const RESET: bv8 := 0xf4
  const INIT: bv8 := 0x95
  const ACKRESET: bv8 := 0xa6
  const DEBUG: bv8 := 0xc7

  // Asynchronous replies recv_packet handles itself (Printer.rcommand).
  const MOVECB: bv8 := 0x16
  const TEMPCB: bv8 := 0x17
  const CONTINUE: bv8 := 0x18
  const LIMIT: bv8 := 0x19
  const MESSAGE: bv8 := 0x1a

  /** One thing the serial port yields: a byte, or a read timing out. */
  datatype Event = Byte(b: bv8) | Quiet

  /** The Printer fields the link uses, the events still to come and the
      bytes written so far. */
  datatype Host = Host(
    ffIn: bool, ffOut: bool, wait: bool, movewait: int,
    tempwait: set<int>, limits: map<int, int>,
    line: seq<Event>, output: seq<bv8>)

  /** The state __init__ sets up once the firmware has said INIT. */
  function Initial(line: seq<Event>): (h: Host)
    ensures !h.ffIn && !h.ffOut && !h.wait && h.movewait == 0
    ensures h.tempwait == {} && h.limits == map[] && h.output == [] && h.line == line
  {
    Host(false, false, false, 0, {}, map[], line, [])
  }

  /** How a call ends: it returns (send_packet returns nothing, modelled as
      the empty string), it raises, or the script runs out. */
  datatype Outcome = Returned(h: Host, data: seq<bv8>) | Raised(h: Host, error: HostError) | Starved(h: Host)

  /** What one received frame makes recv_packet do: start over, or end. */
  datatype Step = Again(h: Host) | Finish(o: Outcome)

  /** The state a step leaves. */
  function Reached(s: Step): Host {
    match s
    case Again(h) => h
    case Finish(o) => o.h
  }

  // ---------------------------------------------------------------------
  // The serial port
  // ---------------------------------------------------------------------

  /** handle_debug: skip up to and including a timeout or a zero byte. */
  function SkipDebug(line: seq<Event>): (r: Outbound.Option<seq<Event>>)
    ensures r.Some? ==> |r.value| < |line|
    ensures r.Some? ==> r.value == line[|line| - |r.value|..]
    ensures r.Some? ==> var k := |line| - |r.value| - 1;
      (line[k] == Quiet || line[k] == Byte(0))
      && forall i :: 0 <= i < k ==> line[i] != Quiet && line[i] != Byte(0)
    ensures r.None? ==> forall i :: 0 <= i < |line| ==> line[i] != Quiet && line[i] != Byte(0)
  {
    if line == [] then Outbound.None
    else if line[0] == Quiet || line[0] == Byte(0) then Outbound.Some(line[1..])
    else SkipDebug(line[1..])
  }

  /** The events by which the bytes s arrive. */
  function Bytes(s: seq<bv8>): (r: seq<Event>)
    ensures |r| == |s| && forall i :: 0 <= i < |s| ==> r[i] == Byte(s[i])
  {
    seq(|s|, i requires 0 <= i < |s| => Byte(s[i]))
  }

  /** read(n): bytes until n have come, or until a read times out (the
      timeout is consumed, and the bytes so far are returned). */
  function ReadUpTo(line: seq<Event>, n: nat): (r: Outbound.Option<(seq<bv8>, seq<Event>)>)
    requires n >= 1
    ensures r.Some? ==> |r.value.0| <= n && |r.value.1| < |line|
    ensures r.Some? ==> line == Bytes(r.value.0) + (if |r.value.0| < n then [Quiet] else []) + r.value.1
    decreases n
  {
    if line == [] then Outbound.None
    else
      match line[0]
      case Quiet => Outbound.Some(([], line[1..]))
      case Byte(b) =>
        if n == 1 then Outbound.Some(([b], line[1..]))
        else
          match ReadUpTo(line[1..], n - 1)
          case None => Outbound.None
          case Some(p) =>
            assert Bytes([b] + p.0) == [Byte(b)] + Bytes(p.0);
            Outbound.Some(([b] + p.0, p.1))
  }

  // ---------------------------------------------------------------------
  // The asynchronous replies
  // ---------------------------------------------------------------------

  /** The for loop over range(k) of a MOVECB reply: each pass asserts
      movewait > 0 and decrements it.  The flag says whether it completed. */
  function CountDown(m: int, k: nat): (int, bool) {
    if k == 0 then (m, true)
    else if m <= 0 then (m, false)
    else CountDown(m - 1, k - 1)
  }

  /** The value of four base-256 digits, least significant first. */
  function Unsigned(a0: int, a1: int, a2: int, a3: int): int {
    a0 + 256 * (a1 + 256 * (a2 + 256 * a3))
  }

  /** A 32-bit pattern read as two's complement, and back. */
  function Signed(u: int): int {
    if u >= 0x8000_0000 then u - 0x1_0000_0000 else u
  }

  function Unsign(v: int): int {
    if v < 0 then v + 0x1_0000_0000 else v
  }

  /** struct.unpack('<l', b): four bytes, little-endian, two's complement. */
  function Int32(b: seq<bv8>): int
    requires |b| == 4
  {
    Signed(Unsigned(b[0] as int, b[1] as int, b[2] as int, b[3] as int))
  }

  /** struct.pack('<l', v), for the values it accepts. */
  function PackInt32(v: int): (b: seq<bv8>)
    requires -0x8000_0000 <= v < 0x8000_0000
    ensures |b| == 4
  {
    var u := Unsign(v);
    [Chr(u % 256), Chr(u / 256 % 256), Chr(u / 0x1_0000 % 256), Chr(u / 0x100_0000)]
  }

  /** Where recv_packet goes after handling an asynchronous reply: back to
      the caller with '' when it wants any packet, else on reading. */
  function Async(h: Host, wantAny: bool): Step {
    if wantAny then Finish(Returned(h, [])) else Again(h)
  }

  /** TEMPCB as written: the key asserted and removed is ord(data[0]),
      which after the dispatch is always the code TEMPCB itself. */
  function TempCbAsWritten(h: Host, d: seq<bv8>, wantAny: bool): Step
    requires |d| >= 1
  {
    var key := d[0] as int;
    if key !in h.tempwait then Finish(Raised(h, AssertionError))
    else Async(h.(tempwait := h.tempwait - {key}), wantAny)
  }

  /** TEMPCB as intended: the channel whose wait has ended is data[1], the
      byte the firmware puts there and the key waittemp adds. */
  function TempCb(h: Host, d: seq<bv8>, wantAny: bool): Step
    requires |d| >= 1
  {
    if |d| < 2 then Finish(Raised(h, IndexError))
    else
      var channel := d[1] as int;
      if channel !in h.tempwait then Finish(Raised(h, AssertionError))
      else Async(h.(tempwait := h.tempwait - {channel}), wantAny)
  }

  /** Which TEMPCB handling recv_packet runs: the code as written (the
      Printer class below), or the intended reading of it. */
  datatype Mode = AsWritten | Intended

  /** recv_packet after accepting a new frame whose payload, flip-flop bit
      cleared, is d: the asynchronous replies, or returning d. */
  function Dispatch(h: Host, d: seq<bv8>, wantAny: bool, mode: Mode): (s: Step)
    requires |d| >= 1
    ensures Reached(s).line == h.line && Reached(s).ffOut == h.ffOut && Reached(s).output == h.output
  {
    if d[0] == MOVECB then
      if |d| < 2 then Finish(Raised(h, IndexError))
      else
        var (m, done) := CountDown(h.movewait, d[1] as nat);
        if !done then Finish(Raised(h.(movewait := m), AssertionError))
        else Async(h.(movewait := m), wantAny)
    else if d[0] == TEMPCB then
      if mode == AsWritten then TempCbAsWritten(h, d, wantAny) else TempCb(h, d, wantAny)
    else if d[0] == CONTINUE then Async(h.(wait := false), wantAny)
    else if d[0] == LIMIT then
      // The value is unpacked before data[1] is read.
      if |d| != 6 then Finish(Raised(h, StructError))
      else Async(h.(limits := h.limits[d[1] as int := Int32(d[2..6])]), wantAny)
    else if d[0] == MESSAGE then
      // self.messages is never initialised.
      Finish(Raised(h, AttributeError))
    else Finish(Returned(h, d))
  }

  /** The flip-flop bit of a payload. */
  function Flip(data: seq<bv8>): bool
    requires |data| >= 1
  {
    data[0] & 0x80 != 0
  }

  /** recv_packet on a complete buffer: NACK a bad frame, ACK and skip a
      repeat of the previous one, else ACK, clear the bit, toggle ff_in. */
  function Handle(h: Host, buffer: seq<bv8>, wantAny: bool, mode: Mode): (s: Step)
    ensures Reached(s).line == h.line && Reached(s).ffOut == h.ffOut && h.output <= Reached(s).output
  {
    match ParseFrame(buffer)
    case ParseRaises(e) => Finish(Raised(h, e))
    case Rejected => Again(h.(output := h.output + [NACK]))
    case Payload(data) => Take(h, data, wantAny, mode)
  }

  /** recv_packet on a payload that parsed. */
  function Take(h: Host, data: seq<bv8>, wantAny: bool, mode: Mode): (s: Step)
    ensures Reached(s).line == h.line && Reached(s).ffOut == h.ffOut && h.output <= Reached(s).output
  {
    if |data| == 0 then Finish(Raised(h, IndexError))
    else if Flip(data) != h.ffIn then Again(h.(output := h.output + [ACK]))
    else Dispatch(h.(ffIn := !h.ffIn, output := h.output + [ACK]), [data[0] & 0x7f] + data[1..], wantAny, mode)
  }

  // ---------------------------------------------------------------------
  // recv_packet and send_packet
  // ---------------------------------------------------------------------

  /** Where one pass of recv_packet leaves it: ended, or going on with
      a state and a buffer. */
  datatype Move = Done(o: Outcome) | Continue(h: Host, buffer: seq<bv8>)

  /** One pass of recv_packet: an empty buffer waits for a first byte
      (NACK on a timeout, skip debug text, no INIT and no byte with bit 7);
      a short one reads the rest (NACK and start over on a timeout); a
      complete one is handled.  Every pass reads the line, except the
      handling of a complete buffer, which empties it. */
  function RecvStep(h: Host, buffer: seq<bv8>, wantAny: bool, mode: Mode): (m: Move)
    ensures m.Continue? ==>
      (|m.h.line| < |h.line| || (m.h.line == h.line && buffer != [] && m.buffer == []))
      && m.h.ffOut == h.ffOut && h.output <= m.h.output
    ensures m.Done? ==> |m.o.h.line| <= |h.line| && m.o.h.ffOut == h.ffOut && h.output <= m.o.h.output
  {
    if buffer == [] then
      if h.line == [] then Done(Starved(h))
      else
        var rest := h.line[1..];
        match h.line[0]
        case Quiet => Continue(h.(line := rest, output := h.output + [NACK]), [])
        case Byte(r) =>
          if r == DEBUG then
            match SkipDebug(rest)
            case None => Done(Starved(h.(line := [])))
            case Some(after) => Continue(h.(line := after), [])
          else if r == INIT || r & 0x80 != 0 then Done(Raised(h.(line := rest), AssertionError))
          else Continue(h.(line := rest), [r])
    else if |buffer| < FrameLen(buffer[0] as nat) then
      match ReadUpTo(h.line, FrameLen(buffer[0] as nat) - |buffer|)
      case None => Done(Starved(h.(line := [])))
      case Some(p) =>
        if p.0 == [] then Continue(h.(line := p.1, output := h.output + [NACK]), [])
        else Continue(h.(line := p.1), buffer + p.0)
    else
      match Handle(h, buffer, wantAny, mode)
      case Again(h1) => Continue(h1, [])
      case Finish(o) => Done(o)
  }

  /** recv_packet(buffer, want_any): passes until one ends it.  It never
      touches ff_out and only appends to what it has written. */
  function Recv(h: Host, buffer: seq<bv8>, wantAny: bool, mode: Mode): (o: Outcome)
    ensures |o.h.line| <= |h.line| && o.h.ffOut == h.ffOut && h.output <= o.h.output
    decreases |h.line|, if buffer == [] then 0 else 1
  {
    match RecvStep(h, buffer, wantAny, mode)
    case Done(o) => o
    case Continue(h1, next) => Recv(h1, next, wantAny, mode)
  }

  /** send_packet's loop once `frame` has been written: read the reply;
      resend on a timeout or NACK; stop on ACK or ACKWAIT; raise on the
      codes the host must never see; NACK any other byte with bit 7; and
      take anything else as the start of an asynchronous frame, which must
      leave recv_packet returning ''. */
  function Await(h: Host, frame: seq<bv8>, mode: Mode): (o: Outcome)
    ensures o.h.ffOut == h.ffOut && h.output <= o.h.output
    decreases |h.line|
  {
    if h.line == [] then Starved(h)
    else
      var h1 := h.(line := h.line[1..]);
      match h.line[0]
      case Quiet => Await(h1.(output := h1.output + frame), frame, mode)
      case Byte(r) =>
        if r == DEBUG then
          match SkipDebug(h1.line)
          case None => Starved(h.(line := []))
          case Some(after) => Await(h.(line := after), frame, mode)
        else if r == ACK then Returned(h1, [])
        else if r == NACK then Await(h1.(output := h1.output + frame), frame, mode)
        else if r == ACKWAIT then Returned(h1.(wait := true), [])
        else if r == STALL || r == RESET || r == INIT || r == ACKRESET then Raised(h1, AssertionError)
        else if r & 0x80 != 0 then Await(h1.(output := h1.output + [NACK]), frame, mode)
        else
          match Recv(h1, [r], true, mode)
          case Returned(h2, reply) => if reply == [] then Await(h2, frame, mode) else Raised(h2, AssertionError)
          case Raised(h2, e) => Raised(h2, e)
          case Starved(h2) => Starved(h2)
  }

  /** The payload send_packet frames: bit 7 of the command byte set when
      ff_out is. */
  function Flagged(ffOut: bool, data: seq<bv8>): seq<bv8>
    requires ffOut ==> |data| >= 1
  {
    if ffOut then [data[0] | 0x80] + data[1..] else data
  }

  /** send_packet(data): flag, toggle ff_out once, frame, write, await. */
  function Send(h: Host, data: seq<bv8>, mode: Mode): (o: Outcome)
    ensures !(h.ffOut && data == []) ==> o.h.ffOut == !h.ffOut
    ensures h.output <= o.h.output
  {
    if h.ffOut && |data| == 0 then Raised(h, IndexError)
    else
      var h1 := h.(ffOut := !h.ffOut);
      match MakeFrame(Flagged(h.ffOut, data))
      case MakeRaises(e) => Raised(h1, e)
      case Made(frame) => Await(h1.(output := h1.output + frame), frame, mode)
  }

  // ---------------------------------------------------------------------
  // The Printer object
  // ---------------------------------------------------------------------

  /** What a method of Printer hands back: a string, an exception, or
      nothing because the script ran out. */
  datatype Reply = Data(data: seq<bv8>) | Error(error: HostError) | NoInput

  /** A reply together with the state it leaves. */
  function Conclude(r: Reply, h: Host): (o: Outcome)
    ensures o.h == h
  {
    match r
    case Data(d) => Returned(h, d)
    case Error(e) => Raised(h, e)
    case NoInput => Starved(h)
  }

  /** A reply of a method that handles one frame, with its "start over"
      flag. */
  function AsStep(again: bool, r: Reply, h: Host): Step {
    if again then Again(h) else Finish(Conclude(r, h))
  }

  /** The part of a Printer the link layer uses, and its serial port: the
      events still to be read and the bytes written so far. */
  class Printer {
    var ffIn: bool
    var ffOut: bool
    var wait: bool
    var movewait: int
    var tempwait: set<int>
    var limits: map<int, int>
    var line: seq<Event>
    var output: seq<bv8>

    /** The fields as one value. */
    function St(): Host
      reads this
    {
      Host(ffIn, ffOut, wait, movewait, tempwait, limits, line, output)
    }

    /** The state __init__ leaves once the firmware has booted. */
    constructor (script: seq<Event>)
      ensures St() == Initial(script)
    {
      ffIn := false;
      ffOut := false;
      limits := map[];
      wait := false;
      movewait := 0;
      tempwait := {};
      line := script;
      output := [];
    }

    /** read(1), except that an exhausted script yields None. */
    method ReadEvent() returns (ev: Outbound.Option<Event>)
      modifies this
      ensures old(line) == [] ==> ev.None? && St() == old(St())
      ensures old(line) != [] ==> ev == Outbound.Some(old(line)[0]) && St() == old(St()).(line := old(line)[1..])
    {
      if line == [] { return Outbound.None; }
      ev := Outbound.Some(line[0]);
      line := line[1..];
    }

    /** read(n) for n >= 1. */
    method Read(n: nat) returns (r: Outbound.Option<seq<bv8>>)
      requires n >= 1
      modifies this
      ensures r.Some? == ReadUpTo(old(line), n).Some?
      ensures r.Some? ==> r.value == ReadUpTo(old(line), n).value.0
      ensures St() == old(St()).(line := if r.Some? then ReadUpTo(old(line), n).value.1 else [])
    {
      var got := ReadUpTo(line, n);
      if got.None? {
        line := [];
        return Outbound.None;
      }
      line := got.value.1;
      return Outbound.Some(got.value.0);
    }

    /** handle_debug: read until a timeout or a zero byte.  False when the
        script runs out first. */
    method HandleDebug() returns (ok: bool)
      modifies this
      ensures ok == SkipDebug(old(line)).Some?
      ensures St() == old(St()).(line := if ok then SkipDebug(old(line)).value else [])
    {
      while true
        invariant SkipDebug(line) == SkipDebug(old(line))
        invariant St() == old(St()).(line := line)
        decreases |line|
      {
        var ev := ReadEvent();
        if ev.None? { return false; }
        if ev.value == Quiet || ev.value == Byte(0) { return true; }
      }
    }

    /** The for loop of a MOVECB reply: false when its assertion fails. */
    method CountMoves(k: nat) returns (done: bool)
      modifies this
      ensures (movewait, done) == CountDown(old(movewait), k)
      ensures St() == old(St()).(movewait := movewait)
    {
      var i := 0;
      while i < k
        invariant 0 <= i <= k
        invariant CountDown(movewait, k - i) == CountDown(old(movewait), k)
        invariant St() == old(St()).(movewait := movewait)
      {
        if movewait <= 0 { return false; }
        movewait := movewait - 1;
        i := i + 1;
      }
      return true;
    }

    /** The asynchronous replies of recv_packet, on a new payload whose
        flip-flop bit is cleared. */
    method Deliver(d: seq<bv8>, wantAny: bool) returns (again: bool, r: Reply)
      requires |d| >= 1
      modifies this
      ensures AsStep(again, r, St()) == Dispatch(old(St()), d, wantAny, AsWritten)
    {
      if d[0] == MOVECB {
        if |d| < 2 { return false, Error(IndexError); }
        var done := CountMoves(d[1] as nat);
        if !done { return false, Error(AssertionError); }
      } else if d[0] == TEMPCB {
        var key := d[0] as int;
        if key !in tempwait { return false, Error(AssertionError); }
        tempwait := tempwait - {key};
      } else if d[0] == CONTINUE {
        wait := false;
      } else if d[0] == LIMIT {
        if |d| != 6 { return false, Error(StructError); }
        limits := limits[d[1] as int := Int32(d[2..6])];
      } else if d[0] == MESSAGE {
        return false, Error(AttributeError);
      } else {
        return false, Data(d);
      }
      if wantAny { return false, Data([]); }
      return true, Data([]);
    }

    /** recv_packet once the buffer holds a whole frame. */
    method Accept(buffer: seq<bv8>, wantAny: bool) returns (again: bool, r: Reply)
      modifies this
      ensures AsStep(again, r, St()) == Handle(old(St()), buffer, wantAny, AsWritten)
    {
      var parsed := ParsePacket(buffer);
      match parsed {
        case ParseRaises(e) =>
          return false, Error(e);
        case Rejected =>
          output := output + [NACK];
          return true, Data([]);
        case Payload(data) =>
          again, r := TakePayload(data, wantAny);
      }
    }

    /** recv_packet on a payload that parsed: a repeat is ACKed and
        dropped; a new one is ACKed, ff_in toggles, and it is delivered. */
    method TakePayload(data: seq<bv8>, wantAny: bool) returns (again: bool, r: Reply)
      modifies this
      ensures AsStep(again, r, St()) == Take(old(St()), data, wantAny, AsWritten)
    {
      if |data| == 0 { return false, Error(IndexError); }
      if Flip(data) != ffIn {
        output := output + [ACK];
        return true, Data([]);
      }
      output := output + [ACK];
      ffIn := !ffIn;
      again, r := Deliver([data[0] & 0x7f] + data[1..], wantAny);
    }

    /** recv_packet's first inner loop, one pass: a timeout is NACKed,
        debug text skipped, and any other byte starts the buffer. */
    method AwaitFirst(wantAny: bool) returns (done: bool, r: Reply, buffer: seq<bv8>)
      modifies this
      ensures done ==> RecvStep(old(St()), [], wantAny, AsWritten) == Done(Conclude(r, St()))
      ensures !done ==> RecvStep(old(St()), [], wantAny, AsWritten) == Continue(St(), buffer)
    {
      buffer := [];
      var ev := ReadEvent();
      if ev.None? { return true, NoInput, []; }
      match ev.value {
        case Quiet =>
          output := output + [NACK];
        case Byte(b) =>
          if b == DEBUG {
            var ok := HandleDebug();
            if !ok { return true, NoInput, []; }
          } else if b == INIT || b & 0x80 != 0 {
            return true, Error(AssertionError), [];
          } else {
            buffer := [b];
          }
      }
      return false, Data([]), buffer;
    }

    /** recv_packet's second inner loop, one pass: read what the frame
        still lacks; a timeout with nothing read is NACKed and empties the
        buffer. */
    method ReadRest(buffer: seq<bv8>, wantAny: bool) returns (done: bool, r: Reply, next: seq<bv8>)
      requires buffer != [] && |buffer| < FrameLen(buffer[0] as nat)
      modifies this
      ensures done ==> RecvStep(old(St()), buffer, wantAny, AsWritten) == Done(Conclude(r, St()))
      ensures !done ==> RecvStep(old(St()), buffer, wantAny, AsWritten) == Continue(St(), next)
    {
      var chunk := Read(FrameLen(buffer[0] as nat) - |buffer|);
      if chunk.None? { return true, NoInput, buffer; }
      if chunk.value == [] {
        output := output + [NACK];
        return false, Data([]), [];
      }
      return false, Data([]), buffer + chunk.value;
    }

    /** recv_packet(buffer, want_any).  Each pass of the loop is one pass
        of one of the source's two inner loops (awaiting the first byte,
        reading the rest) or the handling of a complete buffer. */
    method RecvPacket(start: seq<bv8>, wantAny: bool) returns (r: Reply)
      modifies this
      ensures Conclude(r, St()) == Recv(old(St()), start, wantAny, AsWritten)
    {
      var buffer := start;
      while true
        invariant Recv(St(), buffer, wantAny, AsWritten) == Recv(old(St()), start, wantAny, AsWritten)
        decreases |line|, if buffer == [] then 0 else 1
      {
        var done;
        if buffer == [] {
          done, r, buffer := AwaitFirst(wantAny);
        } else if |buffer| < FrameLen(buffer[0] as nat) {
          done, r, buffer := ReadRest(buffer, wantAny);
        } else {
          var again;
          again, r := Accept(buffer, wantAny);
          done := !again;
          buffer := [];
        }
        if done { return; }
      }
    }

    /** One reply to a frame send_packet wrote: a timeout or NACK writes
        it again; ACK and ACKWAIT end the call; the codes the host must
        never see raise; another byte with bit 7 is NACKed; anything else
        starts an asynchronous frame, which must leave recv_packet
        returning ''. */
    method AwaitStep(frame: seq<bv8>) returns (done: bool, r: Reply)
      modifies this
      ensures done ==> Conclude(r, St()) == Await(old(St()), frame, AsWritten)
      ensures !done ==> |line| < |old(line)| && Await(St(), frame, AsWritten) == Await(old(St()), frame, AsWritten)
    {
      var ev := ReadEvent();
      if ev.None? { return true, NoInput; }
      match ev.value {
        case Quiet =>
          output := output + frame;
        case Byte(b) =>
          if b == DEBUG {
            var ok := HandleDebug();
            if !ok { return true, NoInput; }
          } else if b == ACK {
            return true, Data([]);
          } else if b == NACK {
            output := output + frame;
          } else if b == ACKWAIT {
            wait := true;
            return true, Data([]);
          } else if b == STALL || b == RESET || b == INIT || b == ACKRESET {
            return true, Error(AssertionError);
          } else if b & 0x80 != 0 {
            output := output + [NACK];
          } else {
            var reply := RecvPacket([b], true);
            if reply.Data? && reply.data != [] { return true, Error(AssertionError); }
            if !reply.Data? { return true, reply; }
          }
      }
      return false, Data([]);
    }

    /** send_packet's loop, the frame having been written once.  A resend
        is the source's outer loop writing the frame again. */
    method AwaitReply(frame: seq<bv8>) returns (r: Reply)
      modifies this
      ensures Conclude(r, St()) == Await(old(St()), frame, AsWritten)
    {
      while true
        invariant Await(St(), frame, AsWritten) == Await(old(St()), frame, AsWritten)
        decreases |line|
      {
        var done;
        done, r := AwaitStep(frame);
        if done { return; }
      }
    }

    /** send_packet(data). */
    method SendPacket(data: seq<bv8>) returns (r: Reply)
      modifies this
      ensures Conclude(r, St()) == Send(old(St()), data, AsWritten)
    {
      if ffOut && |data| == 0 { return Error(IndexError); }
      var d := data;
      if ffOut { d := [data[0] | 0x80] + data[1..]; }
      ffOut := !ffOut;
      var made := MakePacket(d);
      if made.MakeRaises? { return Error(made.error); }
      output := output + made.frame;
      r := AwaitReply(made.frame);
    }
  }

  // ---------------------------------------------------------------------
  // Properties
  // ---------------------------------------------------------------------

  /** A MOVECB reply for k moves lowers movewait by exactly k when it is at
      least k; otherwise the assertion fails once movewait has run down to
      zero (or at once, if it was not positive). */
  lemma {:induction false} CountDownExact(m: int, k: nat)
    ensures CountDown(m, k) ==
      if k == 0 || m >= k then (m - k, true)
      else ((if m > 0 then 0 else m), false)
    decreases k
  {
    if k > 0 && m > 0 { CountDownExact(m - 1, k - 1); }
  }

  /** One base-256 digit off the bottom of a number. */
  lemma Digit(a: int, q: int)
    requires 0 <= a < 256
    ensures (a + 256 * q) % 256 == a && (a + 256 * q) / 256 == q
  {
  }

  /** Dividing by 2^16 or 2^24 is dividing by 256 repeatedly. */
  lemma DivSteps(u: int)
    requires u >= 0
    ensures u / 0x1_0000 == u / 256 / 256 && u / 0x100_0000 == u / 0x1_0000 / 256
  {
  }

  /** The unsigned value of four little-endian digits, and the digits
      back from it. */
  lemma Digits(a0: int, a1: int, a2: int, a3: int, u: int)
    requires 0 <= a0 < 256 && 0 <= a1 < 256 && 0 <= a2 < 256 && 0 <= a3 < 256
    requires u == Unsigned(a0, a1, a2, a3)
    ensures 0 <= u < 0x1_0000_0000
    ensures u % 256 == a0 && u / 256 % 256 == a1
    ensures u / 0x1_0000 % 256 == a2 && u / 0x100_0000 == a3
  {
    var r2 := a2 + 256 * a3;
    var r1 := a1 + 256 * r2;
    Digit(a0, r1);
    Digit(a1, r2);
    Digit(a2, a3);
    DivSteps(u);
  }

  /** struct.unpack('<l') undoes struct.pack('<l'). */
  lemma Int32RoundTrip(v: int)
    requires -0x8000_0000 <= v < 0x8000_0000
    ensures Int32(PackInt32(v)) == v
  {
    PackValue(v);
  }

  /** The bytes struct.pack('<l', v) writes stand for v modulo 2^32. */
  lemma PackValue(v: int)
    requires -0x8000_0000 <= v < 0x8000_0000
    ensures var b := PackInt32(v); Unsigned(b[0] as int, b[1] as int, b[2] as int, b[3] as int) == Unsign(v)
  {
    var u := Unsign(v);
    DivSteps(u);
    Digit(u % 256, u / 256);
    Digit(u / 256 % 256, u / 0x1_0000);
    Digit(u / 0x1_0000 % 256, u / 0x100_0000);
  }

  /** ... and gives a signed 32-bit value from which struct.pack('<l')
      rebuilds the four bytes. */
  lemma Int32Range(b: seq<bv8>)
    requires |b| == 4
    ensures -0x8000_0000 <= Int32(b) < 0x8000_0000
    ensures PackInt32(Int32(b)) == b
  {
    var v := Int32(b);
    SignedUnsign(b);
    PackDigits(v, b[0], b[1], b[2], b[3]);
    assert b == [b[0], b[1], b[2], b[3]];
  }

  /** Int32 is in range and its pattern modulo 2^32 is the bytes' value. */
  lemma SignedUnsign(b: seq<bv8>)
    requires |b| == 4
    ensures -0x8000_0000 <= Int32(b) < 0x8000_0000
    ensures Unsign(Int32(b)) == Unsigned(b[0] as int, b[1] as int, b[2] as int, b[3] as int)
  {
    var u := Unsigned(b[0] as int, b[1] as int, b[2] as int, b[3] as int);
    Digits(b[0] as int, b[1] as int, b[2] as int, b[3] as int, u);
  }

  /** struct.pack('<l', v) is the four digits of v modulo 2^32. */
  lemma PackDigits(v: int, a0: bv8, a1: bv8, a2: bv8, a3: bv8)
    requires -0x8000_0000 <= v < 0x8000_0000
    requires Unsign(v) == Unsigned(a0 as int, a1 as int, a2 as int, a3 as int)
    ensures PackInt32(v) == [a0, a1, a2, a3]
  {
    Digits(a0 as int, a1 as int, a2 as int, a3 as int, Unsign(v));
    ChrOf(a0);
    ChrOf(a1);
    ChrOf(a2);
    ChrOf(a3);
  }

  /** chr(ord(x)) == x. */
  lemma ChrOf(x: bv8)
    ensures Chr(x as int) == x
  {
  }

  /** What send_packet writes first: a frame the receiver parses back to
      data, with bit 7 of the command byte set exactly when ff_out was, and
      ff_out toggled once before any resend. */
  lemma SendFlagsCommand(h: Host, data: seq<bv8>, mode: Mode)
    requires |data| >= 1 && data[0] & 0x80 == 0
    requires |data| + 1 == 3 || 5 <= |data| + 1 < 256
    ensures MakeFrame(Flagged(h.ffOut, data)).Made?
    ensures var d := Flagged(h.ffOut, data); var f := MakeFrame(d).frame;
      && ParseFrame(f) == Payload(d)
      && (Flip(d) <==> h.ffOut) && d[0] & 0x7f == data[0] && d[1..] == data[1..]
      && Send(h, data, mode) == Await(h.(ffOut := !h.ffOut, output := h.output + f), f, mode)
  {
    var d := Flagged(h.ffOut, data);
    HostRoundTrip(d);
  }

  /** The events a sender sees as "send it again". */
  predicate Resend(e: Event) {
    e == Quiet || e == Byte(NACK)
  }

  /** n copies of a frame. */
  function Repeat(frame: seq<bv8>, n: nat): (r: seq<bv8>)
    ensures |r| == n * |frame|
  {
    if n == 0 then [] else frame + Repeat(frame, n - 1)
  }

  /** Every timeout or NACK before the ACK makes send_packet write the same
      frame once more, and nothing else. */
  lemma {:induction false} ResendsSameFrame(h: Host, frame: seq<bv8>, resends: seq<Event>, rest: seq<Event>, mode: Mode)
    requires forall i :: 0 <= i < |resends| ==> Resend(resends[i])
    requires h.line == resends + [Byte(ACK)] + rest
    ensures Await(h, frame, mode) == Returned(h.(line := rest, output := h.output + Repeat(frame, |resends|)), [])
    decreases |resends|
  {
    if resends == [] {
      assert h.line[1..] == rest;
    } else {
      var h1 := h.(line := h.line[1..], output := h.output + frame);
      assert h1.line == resends[1..] + [Byte(ACK)] + rest;
      ResendsSameFrame(h1, frame, resends[1..], rest, mode);
      assert h.output + Repeat(frame, |resends|) == h1.output + Repeat(frame, |resends| - 1);
    }
  }

  /** A frame whose flip-flop bit differs from ff_in repeats the previous
      one (its ACK was lost): it is ACKed and dropped, ff_in is left as it
      is, and reading starts over. */
  lemma RecvDuplicate(h: Host, buffer: seq<bv8>, wantAny: bool, mode: Mode)
    requires ParseFrame(buffer).Payload?
    requires |ParseFrame(buffer).data| >= 1 && Flip(ParseFrame(buffer).data) != h.ffIn
    ensures Recv(h, buffer, wantAny, mode) == Recv(h.(output := h.output + [ACK]), [], wantAny, mode)
  {
    RecvComplete(h, buffer, wantAny, mode);
  }

  /** A frame carrying the other flip-flop value is new: it is ACKed, ff_in
      toggles, and, when it is no asynchronous reply, its payload returns
      with the flip-flop bit cleared. */
  lemma RecvNew(h: Host, buffer: seq<bv8>, wantAny: bool, mode: Mode)
    requires ParseFrame(buffer).Payload?
    requires var data := ParseFrame(buffer).data;
      |data| >= 1 && Flip(data) == h.ffIn
      && data[0] & 0x7f !in {MOVECB, TEMPCB, CONTINUE, LIMIT, MESSAGE}
    ensures var data := ParseFrame(buffer).data;
      Recv(h, buffer, wantAny, mode) == Returned(h.(ffIn := !h.ffIn, output := h.output + [ACK]), [data[0] & 0x7f] + data[1..])
  {
    RecvComplete(h, buffer, wantAny, mode);
    var data := ParseFrame(buffer).data;
    var d := [data[0] & 0x7f] + data[1..];
    var h1 := h.(ffIn := !h.ffIn, output := h.output + [ACK]);
    assert d[0] == data[0] & 0x7f;
    assert Dispatch(h1, d, wantAny, mode) == Finish(Returned(h1, d));
  }

  /** MOVECB with k = data[1]: movewait drops by exactly k, or the
      assertion fails when fewer than k moves were outstanding. */
  lemma DispatchMoveCb(h: Host, d: seq<bv8>, wantAny: bool, mode: Mode)
    requires |d| >= 1 && d[0] == MOVECB
    ensures |d| < 2 ==> Dispatch(h, d, wantAny, mode) == Finish(Raised(h, IndexError))
    ensures |d| >= 2 && (d[1] == 0 || h.movewait >= d[1] as int) ==>
      Dispatch(h, d, wantAny, mode) == Async(h.(movewait := h.movewait - d[1] as int), wantAny)
    ensures |d| >= 2 && d[1] != 0 && h.movewait < d[1] as int ==>
      Dispatch(h, d, wantAny, mode) == Finish(Raised(h.(movewait := if h.movewait > 0 then 0 else h.movewait), AssertionError))
  {
    if |d| >= 2 { CountDownExact(h.movewait, d[1] as nat); }
  }

  /** LIMIT: exactly a six-byte payload is accepted, and the limit stored
      for axis data[1] is the signed value its last four bytes pack. */
  lemma DispatchLimit(h: Host, d: seq<bv8>, wantAny: bool, v: int, mode: Mode)
    requires |d| >= 1 && d[0] == LIMIT
    ensures Dispatch(h, d, wantAny, mode) == Finish(Raised(h, StructError)) <==> |d| != 6
    ensures |d| == 6 && -0x8000_0000 <= v < 0x8000_0000 && d[2..] == PackInt32(v) ==>
      Dispatch(h, d, wantAny, mode) == Async(h.(limits := h.limits[d[1] as int := v]), wantAny)
  {
    if |d| == 6 {
      if -0x8000_0000 <= v < 0x8000_0000 && d[2..] == PackInt32(v) {
        assert d[2..6] == d[2..];
        Int32RoundTrip(v);
      }
      assert Async(h.(limits := h.limits[d[1] as int := Int32(d[2..6])]), wantAny) != Finish(Raised(h, StructError));
    }
  }

  /** MESSAGE always raises: the list it appends to is never created. */
  lemma DispatchMessage(h: Host, d: seq<bv8>, wantAny: bool, mode: Mode)
    requires |d| >= 1 && d[0] == MESSAGE
    ensures Dispatch(h, d, wantAny, mode).Finish? && Dispatch(h, d, wantAny, mode).o.Raised?
    ensures Dispatch(h, d, wantAny, mode).o.error == AttributeError
  {
  }

  /** As written, TEMPCB asserts that the code TEMPCB (23) is awaited,
      whatever channel the frame names: with only channel 0 awaited, the
      firmware's report for channel 0 raises AssertionError, where the
      intended handling ends the wait. */
  lemma TempCbAsWrittenRejects(h: Host, wantAny: bool)
    requires h.tempwait == {0}
    ensures Dispatch(h, [TEMPCB, 0], wantAny, AsWritten) == Finish(Raised(h, AssertionError))
    ensures Dispatch(h, [TEMPCB, 0], wantAny, Intended) == Async(h.(tempwait := {}), wantAny)
  {
    assert TEMPCB as int == 23;
    assert {0} - {0} == {};
  }

  /** As written the channel byte plays no part at all. */
  lemma TempCbAsWrittenIgnoresChannel(h: Host, c1: bv8, c2: bv8, wantAny: bool)
    ensures Dispatch(h, [TEMPCB, c1], wantAny, AsWritten) == Dispatch(h, [TEMPCB, c2], wantAny, AsWritten)
  {
  }

  /** As written, a TEMPCB reply, whatever its channel and even without
      one, ends the wait on 23, the code itself, and only on 23; when 23
      is not awaited it is an assertion failure. */
  lemma TempCbAsWrittenKey(h: Host, d: seq<bv8>, wantAny: bool)
    requires |d| >= 1 && d[0] == TEMPCB
    ensures match Dispatch(h, d, wantAny, AsWritten)
      case Again(h1) => !wantAny && 23 in h.tempwait && h1 == h.(tempwait := h.tempwait - {23})
      case Finish(o) =>
        if 23 in h.tempwait then wantAny && o == Returned(h.(tempwait := h.tempwait - {23}), [])
        else o == Raised(h, AssertionError)
  {
    assert d[0] as int == 23;
  }

  /** As intended, a TEMPCB for channel c ends the wait on c, and only on
      c; a report for a channel not awaited is an assertion failure. */
  lemma TempCbEndsWait(h: Host, d: seq<bv8>, wantAny: bool)
    requires |d| >= 2 && d[0] == TEMPCB
    ensures var c := d[1] as int;
      match Dispatch(h, d, wantAny, Intended)
      case Again(h1) => !wantAny && c in h.tempwait && h1 == h.(tempwait := h.tempwait - {c})
      case Finish(o) =>
        if c in h.tempwait then wantAny && o == Returned(h.(tempwait := h.tempwait - {c}), [])
        else o == Raised(h, AssertionError)
  {
  }

  /** read(n) on n bytes that arrive without a pause returns them all. */
  lemma {:induction false} ReadUpToBytes(s: seq<bv8>, rest: seq<Event>)
    requires |s| >= 1
    ensures ReadUpTo(Bytes(s) + rest, |s|) == Outbound.Some((s, rest))
    decreases |s|
  {
    var line := Bytes(s) + rest;
    assert line[0] == Byte(s[0]);
    if |s| > 1 {
      assert line[1..] == Bytes(s[1..]) + rest;
      ReadUpToBytes(s[1..], rest);
      assert [s[0]] + s[1..] == s;
    } else {
      assert line[1..] == rest && s == [s[0]];
    }
  }

  /** A first byte below 0x80 starts the buffer. */
  lemma RecvFirstByte(h: Host, b: bv8, wantAny: bool, mode: Mode)
    requires h.line != [] && h.line[0] == Byte(b) && b < 0x80
    ensures Recv(h, [], wantAny, mode) == Recv(h.(line := h.line[1..]), [b], wantAny, mode)
  {
  }

  /** The rest of a frame, arriving without a pause, is read by one
      read(n). */
  lemma RecvRestArrives(h: Host, b: bv8, s: seq<bv8>, rest: seq<Event>, wantAny: bool, mode: Mode)
    requires |s| >= 1 && 1 + |s| == FrameLen(b as nat)
    requires h.line == Bytes(s) + rest
    ensures Recv(h, [b], wantAny, mode) == Recv(h.(line := rest), [b] + s, wantAny, mode)
  {
    var buffer := [b];
    assert buffer != [] && buffer[0] == b && |buffer| < FrameLen(buffer[0] as nat);
    ReadUpToBytes(s, rest);
    assert FrameLen(buffer[0] as nat) - |buffer| == |s|;
  }

  /** The events of a frame: its first byte, then the rest. */
  lemma BytesCons(f: seq<bv8>, rest: seq<Event>)
    requires |f| >= 1
    ensures (Bytes(f) + rest)[0] == Byte(f[0])
    ensures (Bytes(f) + rest)[1..] == Bytes(f[1..]) + rest
  {
    assert Bytes(f) == [Byte(f[0])] + Bytes(f[1..]);
  }

  /** A frame that arrives without a pause is read whole, by one read(1)
      and one read(n), and then handled as a complete buffer. */
  lemma RecvFrameArrives(h: Host, f: seq<bv8>, rest: seq<Event>, wantAny: bool, mode: Mode)
    requires |f| >= 2 && f[0] < 0x80 && |f| == FrameLen(f[0] as nat)
    requires h.line == Bytes(f) + rest
    ensures Recv(h, [], wantAny, mode) == Recv(h.(line := rest), f, wantAny, mode)
  {
    BytesCons(f, rest);
    var h1 := h.(line := h.line[1..]);
    RecvFirstByte(h, f[0], wantAny, mode);
    RecvRestArrives(h1, f[0], f[1..], rest, wantAny, mode);
    assert [f[0]] + f[1..] == f;
    assert h1.(line := rest) == h.(line := rest);
  }

  /** A buffer holding a frame that parses goes straight to the payload's
      handling. */
  lemma RecvComplete(h: Host, f: seq<bv8>, wantAny: bool, mode: Mode)
    requires ParseFrame(f).Payload?
    ensures var s := Take(h, ParseFrame(f).data, wantAny, mode);
      Recv(h, f, wantAny, mode) == if s.Again? then Recv(s.h, [], wantAny, mode) else s.o
  {
    ParseFrameSpec(f);
  }

  /** The shape of a frame the firmware sends: a length byte below 0x80,
      the length it promises, and a payload that parses back with bit 7
      of the command byte the firmware's flip-flop. */
  lemma FirmwareFrameShape(b: seq<bv8>, ff: bv8, commandSize: nat, head: seq<bv8>)
    requires |b| >= BUF_SIZE && (|head| == 3 || |head| == 7) && head[0] == |head| as bv8
    requires b[..|head|] == head && ff & 0x7f == 0 && |head| < commandSize
    ensures var f := Sent(Prepared(b, ff, commandSize));
      && |f| >= 2 && f[0] < 0x80 && |f| == FrameLen(f[0] as nat)
      && ParseFrame(f) == Payload(head[1 := (head[1] & 0x7f) | ff][1..])
  {
    var f := Sent(Prepared(b, ff, commandSize));
    PreparedPayload(b, head, ff, commandSize);
    FirmwareFrameParsed(b, head, ff, commandSize);
    assert f[0] == f[..|head|][0] == head[0];
    assert f[0] < 0x80 by {
      if |head| == 3 { assert head[0] == 3; } else { assert head[0] == 7; }
    }
  }

  /** A TEMPCB frame for channel w with the flip-flop the host expects,
      arriving without a pause, is ACKed, toggles ff_in, and its payload
      [TEMPCB, w] is what ends the call. */
  lemma TempCbFrameArrives(h: Host, f: seq<bv8>, ff: bv8, w: bv8, rest: seq<Event>, mode: Mode)
    requires |f| >= 2 && f[0] < 0x80 && |f| == FrameLen(f[0] as nat)
    requires ParseFrame(f) == Payload([TEMPCB | ff, w])
    requires ff == (if h.ffIn then 0x80 else 0)
    requires h.line == Bytes(f) + rest
    ensures Dispatch(h.(ffIn := !h.ffIn, line := rest, output := h.output + [ACK]), [TEMPCB, w], true, mode)
      == Finish(Recv(h, [], true, mode))
  {
    RecvFrameArrives(h, f, rest, true, mode);
    RecvComplete(h.(line := rest), f, true, mode);
    TakeTempCb(h.(line := rest), ff, w, mode);
  }

  /** Take on the payload of a TEMPCB frame with the expected flip-flop:
      ACK, toggle ff_in, and dispatch [TEMPCB, w]. */
  lemma TakeTempCb(h: Host, ff: bv8, w: bv8, mode: Mode)
    requires ff == (if h.ffIn then 0x80 else 0)
    ensures Take(h, [TEMPCB | ff, w], true, mode) ==
      Dispatch(h.(ffIn := !h.ffIn, output := h.output + [ACK]), [TEMPCB, w], true, mode)
  {
    var data: seq<bv8> := [TEMPCB | ff, w];
    assert Flip(data) == h.ffIn;
    assert [data[0] & 0x7f] + data[1..] == [TEMPCB, w];
  }

  /** As intended, such a frame ends the wait on w. */
  lemma TempCbFrameEndsWait(h: Host, f: seq<bv8>, ff: bv8, w: bv8, rest: seq<Event>)
    requires |f| >= 2 && f[0] < 0x80 && |f| == FrameLen(f[0] as nat)
    requires ParseFrame(f) == Payload([TEMPCB | ff, w])
    requires ff == (if h.ffIn then 0x80 else 0) && w as int in h.tempwait
    requires h.line == Bytes(f) + rest
    ensures Recv(h, [], true, Intended) ==
      Returned(h.(ffIn := !h.ffIn, line := rest, output := h.output + [ACK], tempwait := h.tempwait - {w as int}), [])
  {
    TempCbFrameArrives(h, f, ff, w, rest, Intended);
    TempCbEndsWait(h.(ffIn := !h.ffIn, line := rest, output := h.output + [ACK]), [TEMPCB, w], true);
  }

  /** The firmware's TEMPCB frame for channel w, sent with the flip-flop
      the host expects, ends the host's wait on w with the intended
      handling. */
  lemma FirmwareTempCbEndsWait(h: Host, b: seq<bv8>, ff: bv8, commandSize: nat, w: bv8, rest: seq<Event>)
    requires |b| >= BUF_SIZE && b[..3] == [3, TEMPCB, w] && 3 < commandSize
    requires ff == (if h.ffIn then 0x80 else 0) && w as int in h.tempwait
    requires h.line == Bytes(Sent(Prepared(b, ff, commandSize))) + rest
    ensures Recv(h, [], true, Intended) ==
      Returned(h.(ffIn := !h.ffIn, line := rest, output := h.output + [ACK], tempwait := h.tempwait - {w as int}), [])
  {
    var head: seq<bv8> := [3, TEMPCB, w];
    FirmwareFrameShape(b, ff, commandSize, head);
    TempCbHead(ff, w);
    TempCbFrameEndsWait(h, Sent(Prepared(b, ff, commandSize)), ff, w, rest);
  }

  /** As written, the same frame ends the wait on 23 whatever w is, and
      raises AssertionError when 23 is not awaited, so the report for an
      awaited channel other than 23 fails. */
  lemma FirmwareTempCbAsWritten(h: Host, b: seq<bv8>, ff: bv8, commandSize: nat, w: bv8, rest: seq<Event>)
    requires |b| >= BUF_SIZE && b[..3] == [3, TEMPCB, w] && 3 < commandSize
    requires ff == (if h.ffIn then 0x80 else 0)
    requires h.line == Bytes(Sent(Prepared(b, ff, commandSize))) + rest
    ensures var h1 := h.(ffIn := !h.ffIn, line := rest, output := h.output + [ACK]);
      Recv(h, [], true, AsWritten) ==
        if 23 in h.tempwait then Returned(h1.(tempwait := h.tempwait - {23}), [])
        else Raised(h1, AssertionError)
  {
    var head: seq<bv8> := [3, TEMPCB, w];
    FirmwareFrameShape(b, ff, commandSize, head);
    TempCbHead(ff, w);
    var f := Sent(Prepared(b, ff, commandSize));
    TempCbFrameArrives(h, f, ff, w, rest, AsWritten);
    TempCbAsWrittenKey(h.(ffIn := !h.ffIn, line := rest, output := h.output + [ACK]), [TEMPCB, w], true);
  }

  /** The payload the firmware's TEMPCB head becomes. */
  lemma TempCbHead(ff: bv8, w: bv8)
    ensures var head: seq<bv8> := [3, TEMPCB, w];
      head[1 := (head[1] & 0x7f) | ff][1..] == [TEMPCB | ff, w]
  {
    var head: seq<bv8> := [3, TEMPCB, w];
    assert head[1] & 0x7f == TEMPCB;
  }

  /** A new frame that is no asynchronous reply, arriving without a pause,
      is returned to the caller of recv_packet, its flip-flop bit
      cleared. */
  lemma ReplyFrameReturned(h: Host, f: seq<bv8>, rest: seq<Event>, wantAny: bool, mode: Mode)
    requires |f| >= 2 && f[0] < 0x80 && |f| == FrameLen(f[0] as nat)
    requires ParseFrame(f).Payload?
    requires var data := ParseFrame(f).data;
      |data| >= 1 && Flip(data) == h.ffIn
      && data[0] & 0x7f !in {MOVECB, TEMPCB, CONTINUE, LIMIT, MESSAGE}
    requires h.line == Bytes(f) + rest
    ensures var data := ParseFrame(f).data;
      Recv(h, [], wantAny, mode) ==
      Returned(h.(ffIn := !h.ffIn, line := rest, output := h.output + [ACK]), [data[0] & 0x7f] + data[1..])
  {
    RecvFrameArrives(h, f, rest, wantAny, mode);
    RecvNew(h.(line := rest), f, wantAny, mode);
  }

  /** So a firmware frame that is no asynchronous reply, sent with the
      flip-flop the host expects, reaches the caller as the firmware
      wrote it. */
  lemma FirmwareReplyReturned(h: Host, b: seq<bv8>, ff: bv8, commandSize: nat, head: seq<bv8>, rest: seq<Event>, wantAny: bool, mode: Mode)
    requires |b| >= BUF_SIZE && (|head| == 3 || |head| == 7) && head[0] == |head| as bv8
    requires b[..|head|] == head && |head| < commandSize
    requires ff == (if h.ffIn then 0x80 else 0)
    requires head[1] & 0x7f !in {MOVECB, TEMPCB, CONTINUE, LIMIT, MESSAGE}
    requires h.line == Bytes(Sent(Prepared(b, ff, commandSize))) + rest
    ensures Recv(h, [], wantAny, mode) ==
      Returned(h.(ffIn := !h.ffIn, line := rest, output := h.output + [ACK]), head[1 := head[1] & 0x7f][1..])
  {
    FirmwareFrameShape(b, ff, commandSize, head);
    FlaggedHead(head, ff, h.ffIn);
    ReplyFrameReturned(h, Sent(Prepared(b, ff, commandSize)), rest, wantAny, mode);
  }

  /** The payload of a head sent with flip-flop ff: its bit 7 is ff, and
      clearing it gives the head's payload with bit 7 clear. */
  lemma FlaggedHead(head: seq<bv8>, ff: bv8, ffIn: bool)
    requires |head| >= 2 && ff == (if ffIn then 0x80 else 0)
    ensures var data := head[1 := (head[1] & 0x7f) | ff][1..];
      && |data| >= 1 && (Flip(data) <==> ffIn) && data[0] & 0x7f == head[1] & 0x7f
      && [data[0] & 0x7f] + data[1..] == head[1 := head[1] & 0x7f][1..]
  {
    var data := head[1 := (head[1] & 0x7f) | ff][1..];
    assert data[0] == (head[1] & 0x7f) | ff;
    assert data[0] & 0x7f == head[1] & 0x7f;
  }
}

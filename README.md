# Serial link of the 3D printer firmware and its host driver

This project models both ends of the serial protocol between a 3D printer
controller and the host that drives it. It also proves what each end promises
about frames, acknowledgements and retries.

- **The firmware side** (`firmware/serial.cpp`) covers these parts:
  - `serial()` reads control bytes between frames: ACK0/ACK1, NACK and ID.
  - The same routine collects a frame into `command[]`, checks its checksum
    and flip-flop bit, and hands a new frame to `packet()`.
  - `prepare_packet` stamps the check bytes and the outgoing flip-flop.
  - `send_packet` writes a frame and marks the line busy.
  - `try_send_next` chooses the next pending asynchronous report and sends it.
  - `write_ack` and `write_ackwait` answer with the receive flip-flop.
- **A frame** of length `L` is as follows:
  - It starts with a length byte `L` below 0x80.
  - `L - 1` payload bytes follow. The first of them is the command byte, and
    bit 7 of that byte carries the sender's flip-flop.
  - `(L + 2) / 3` check bytes end the frame. Check byte `t` holds `t & 7` in its
    low three bits, plus five parity bits over bytes `3t .. 3t+2` under the
    table `MASK`.
  - Lengths 1, 2 and 4 are not allowed. For them a group would read a check
    byte that has not been written yet.
- **The host side** (`firmware/printer3d.py`, class `Printer`) covers these parts:
  - `make_packet` and `parse_packet` are the host's encoder and decoder of the
    same frame format the firmware uses.
  - `send_packet` toggles `ff_out`, then writes and rewrites the frame until
    it sees ACK or ACKWAIT.
  - `recv_packet` reads, NACKs, de-duplicates by `ff_in` and ACKs frames. It
    also handles the asynchronous reports MOVECB, TEMPCB, CONTINUE, LIMIT and
    MESSAGE.

The modules follow the program's structure:

- `Config` holds the constants taken from `firmware.h`, which the model
  receives as parameters.
- `Bits` covers the flag bits used by `try_send_next`.
- `Codec` holds the check byte and both ends' group tests and encoders, on
  single bytes.
- `Frame` covers whole frames: stamping and verifying.
- `Outbound` covers the scan order of `try_send_next`: which source it takes,
  what it clears and what it writes.
- `Device` has the firmware state as a value, and every routine as a function
  of that state.
- `DeviceFacts` proves the protocol properties of those functions.
- `Firmware` holds the firmware's checksum loops as methods over arrays.
- `Serial` is the firmware as a class over arrays. Its methods are proved equal
  to the `Device` functions.
- `HostCodec` holds the host's framing.
- `HostLink` holds the host's link layer:
  - a value model (`Recv`, `Send`, `Await`), in two modes: `AsWritten`
    handles a TEMPCB reply as printer3d.py does, and `Intended` as it
    evidently means to (see "## Findings");
  - the class `Printer`, whose methods are proved equal to that model in
    the `AsWritten` mode;
  - the lemmas about it.

In the model, the serial line is explicit:

- **Firmware input** is the sequence of bytes available. Output is the
  sequence written.
- **Host input** is a script of `Event`s. `Byte(b)` is a byte that arrives,
  and `Quiet` is a read that times out.
- **Time** is one `micros()` value per call, as an `unsigned long` that wraps
  at 2^32.

## Model

| member | source | states |
|---|---|---|
| Bits.ClearBit | firmware/serial.cpp:397-451 | `x &= ~(1 << b)` on `continue_cb` (at 397 and 415) and on `ping` (at 451) clears flag b and leaves every other flag as it was |
| Bits.NoBitIsZero | firmware/serial.cpp:440-451 | a byte with no flag set is 0, so a non-zero `ping` has a set bit and the loop over b = 0 .. 7 finds one |
| Codec.FoldIsParity | firmware/serial.cpp:166-169 | the three shift-XOR steps leave bit 0 equal to the parity of the byte |
| Codec.OddXor | firmware/serial.cpp:163-169 | the parity of an XOR is the XOR of the parities, so a row's fold decides the parity of the selected bits |
| Codec.MaskRows | firmware/serial.cpp:26-31 | in the MASK table, row k's check-byte column sees parity bit k+3 and no other parity bit |
| Codec.CheckUnique | firmware/serial.cpp:151-175 | at most one byte is the check byte of a given group and tag |
| Codec.CoverRow | firmware/serial.cpp:26-31 | for every single bit of a data byte there is a row of MASK whose column for that byte selects it |
| Codec.FlipRow0 | firmware/serial.cpp:163-165 | flipping a bit of the group's byte 0 that a row selects flips that row's parity |
| Codec.FlipRow1 | firmware/serial.cpp:163-165 | the same for byte 1 |
| Codec.FlipRow2 | firmware/serial.cpp:163-165 | the same for byte 2 |
| Codec.Flip0Detected | firmware/serial.cpp:151-175 | one flipped bit in byte 0 of a group leaves its check byte wrong |
| Codec.Flip1Detected | firmware/serial.cpp:151-175 | one flipped bit in byte 1 of a group leaves its check byte wrong |
| Codec.Flip2Detected | firmware/serial.cpp:151-175 | one flipped bit in byte 2 of a group leaves its check byte wrong |
| Codec.FlipTagDetected | firmware/serial.cpp:155-160 | a check byte with a tag bit flipped is wrong |
| Codec.FlipParityDetected | firmware/serial.cpp:161-174 | a check byte with parity bit k flipped is wrong |
| Codec.FlipCheckDetected | firmware/serial.cpp:151-175 | one flipped bit in the check byte leaves it wrong |
| Codec.SingleBitDetected | firmware/serial.cpp:151-175 | every single-bit error in a group's bytes or its check byte is detected |
| Codec.CheckEven | firmware/serial.cpp:161-174 | the check byte makes every one of the five rows even |
| Codec.EvenIsCheck | firmware/serial.cpp:156-174 | a byte with the right tag that makes every row even is the check byte |
| Codec.CheckFirstIsRow | firmware/serial.cpp:163-165 | the verifier's XOR order (check byte first, then the group) computes the row's XOR |
| Codec.CheckLastIsRow | firmware/serial.cpp:244-247 | the encoder's XOR order (group first, then the check byte) computes the same row's XOR |
| Codec.GroupOkIff | firmware/serial.cpp:155-174 | the firmware's group test (tag, then five folded rows) passes exactly when the byte is the check byte |
| Codec.ParseGroupOkIff | firmware/printer3d.py:151-162 | the host's group test passes exactly when the byte is the check byte |
| Codec.PrepareIsCheck | firmware/serial.cpp:241-254 | the firmware's encoder (tag, then an OR of bit k+3 for each odd row) yields the check byte |
| Codec.MakeIsCheck | firmware/printer3d.py:130-140 | the host's encoder yields the same check byte |
| Codec.ReadsPrecedeIff | firmware/serial.cpp:233-239 | every group reads only bytes before its check byte exactly when L = 3 or L >= 5 |
| Codec.LegalFrameFits | firmware/serial.cpp:91-95 | every length the firmware lets start a frame has groups that read only data or earlier check bytes |
| Frame.LegalFits | firmware/serial.cpp:152-153 | a frame of a legal length has every group and check byte inside its FrameLen(L) bytes |
| Frame.FrameOkIff | firmware/serial.cpp:152-176 | the firmware's checksum loop accepts a frame exactly when every check byte is its group's check byte |
| Frame.FlipInGroup | firmware/serial.cpp:152-176 | one flipped bit in any of the four bytes of a group spoils that group's check |
| Frame.SingleBitFrame | firmware/serial.cpp:152-176 | one flipped bit anywhere in a checked frame makes the firmware's checksum loop refuse it |
| Frame.StampFromKeeps | firmware/serial.cpp:239-255 | the checksum loop writes only check-byte positions, and keeps earlier check bytes |
| Frame.StampStep | firmware/serial.cpp:239-255 | each pass writes the check byte of its group, and earlier groups stay checked |
| Frame.StampVerifies | firmware/serial.cpp:238-255 | for every allowed length, the frame prepare_packet stamps passes the firmware's own test; data and later bytes are unchanged |
| Frame.TruncateFrame | firmware/serial.cpp:152-176 | both the stamp and the test depend only on the frame's FrameLen(L) bytes |
| Outbound.RankInjective | firmware/serial.cpp:287-455 | the scan order of try_send_next puts no two sources at one position |
| Outbound.AxisFromFinds | firmware/serial.cpp:287-337 | the axis loop finds the first axis with a pending limit or sense report, testing the limit first |
| Outbound.LowestFromFinds | firmware/serial.cpp:358-367 | the temperature-callback loop finds the lowest flagged slot |
| Outbound.LowestBitFromFinds | firmware/serial.cpp:442-454 | the ping loop finds the lowest set bit |
| Outbound.FirstIsFirst | firmware/serial.cpp:287-455 | try_send_next's chain of tests picks the pending source of lowest rank, and picks none exactly when nothing is pending |
| Outbound.ClearOnly | firmware/serial.cpp:303-451 | clearing the taken source's flag stops that source being pending and leaves every other source as it was |
| Outbound.ClearOnlyAll | firmware/serial.cpp:303-451 | the same, for all sources at once |
| Outbound.ClearSense | firmware/serial.cpp:320-327 | clearing bit 0 of a sense state keeps bit 7, which the frame reports |
| Outbound.CountLimitsClear | firmware/serial.cpp:289-303 | setting a pending limit to NaN lowers the number of pending limits by one |
| Outbound.CountSenseClear | firmware/serial.cpp:313-327 | clearing a pending sense flag lowers the number of pending sense reports by one |
| Outbound.WeightDrops | firmware/serial.cpp:304-437 | dropping a pending entry while not initialized lowers the count of droppable entries, so the recursive call ends |
| Outbound.Payload | firmware/serial.cpp:294-448 | the reply is built elsewhere and has no bytes here; every other source writes a head whose first byte is its own length, 7 for a limit or sense report and 3 otherwise |
| Outbound.PayloadKeeps | firmware/serial.cpp:303-451 | clearing another source's flag does not change a source's bytes |
| Outbound.ScheduleSpec | firmware/serial.cpp:287-455 | try_send_next sends the first pending source that is not dropped. Every pending source before it is dropped, and exactly the flags up to it are cleared. |
| Outbound.ScheduleBuffers | firmware/serial.cpp:287-455 | the frame sent starts with the sent source's bytes as they stood at the call; only a pong writes into the reply buffer |
| Device.SendNext | firmware/serial.cpp:273-456 | try_send_next keeps the sending side's shape and ff_out, and leaves the receiving side, the input and the frames handed on untouched |
| Device.OnAck | firmware/serial.cpp:61-72 | an ACK keeps the sending side's shape and never touches the receiving side or the input |
| Device.Chunk | firmware/serial.cpp:118-123 | the bytes read never overrun COMMAND_SIZE or the frame's length |
| Device.ReadFirst | firmware/serial.cpp:53-97 | one pass of the byte loop consumes exactly one input byte and keeps the state's shape |
| Device.ScanFirst | firmware/serial.cpp:45-97 | the loop ends with a frame started or with no input left |
| Device.Received | firmware/serial.cpp:53-54 | Serial.read puts the next input byte into command[0] |
| Device.Fill | firmware/serial.cpp:124 | readBytes writes the bytes at the given position and leaves the rest of the buffer as it was |
| Device.Collect | firmware/serial.cpp:124-129 | command_end advances by the bytes read, last_micros becomes now, and the length byte and ff_in are kept |
| Device.ProcessNack | firmware/serial.cpp:152-176 | a complete frame that fails the checksum test only writes NACK |
| Device.LenOfSmall | firmware/serial.cpp:120 | a length byte below 0x80 is its own length under COMMAND_LEN_MASK |
| Device.LoadInv | firmware/serial.cpp:287-448 | writing a source's bytes and clearing its flag while the line is free keeps the invariant |
| Device.FreedInv | firmware/serial.cpp:64-69 | the ACK that frees the line keeps the invariant |
| Device.CompleteInv | firmware/serial.cpp:129-143 | once the last byte is in and command_end is reset, the invariant still holds |
| Device.ClassifyStart | firmware/serial.cpp:59-96 | no control code is a length, so a byte starts a frame exactly when it is a legal length |
| Device.SendNextInv | firmware/serial.cpp:273-456 | try_send_next keeps the invariant |
| Device.SerialStepInv | firmware/serial.cpp:34-202 | serial() keeps the invariant; command_end stays within COMMAND_SIZE and below the frame's length |
| DeviceFacts.ClassifyIllegal | firmware/serial.cpp:91-95 | a byte between frames is NACKed exactly when it is no control code and no legal length |
| DeviceFacts.AckAcceptedIff | firmware/serial.cpp:64 | the polarity test accepts ACK0 while ff_out is 0 and ACK1 while it is 0x80 |
| DeviceFacts.AckAgreement | firmware/serial.cpp:458-461 | after taking the frame sent with flip-flop f a receiver's ff_in is f ^ 0x80, and the ACK write_ack then gives is the one a sender with ff_out f accepts; the ACK it gave before, while ff_in was f, that sender rejects |
| DeviceFacts.IllegalByteNacked | firmware/serial.cpp:91-95 | an illegal byte writes NACK and starts no frame |
| DeviceFacts.LengthStartsFrame | firmware/serial.cpp:96-97 | a legal length is kept in command[0], command_end becomes 1, and nothing is written |
| DeviceFacts.IdAnswered | firmware/serial.cpp:79-86 | CMD_ID is answered with CMD_ID and the printer id |
| DeviceFacts.StaleAckIgnored | firmware/serial.cpp:61-72 | an ACK that is not awaited leaves the sending side unchanged |
| DeviceFacts.AckReleases | firmware/serial.cpp:64-70 | the awaited ACK flips ff_out and frees the line for the next frame |
| DeviceFacts.NackResends | firmware/serial.cpp:73-78 | a NACK rewrites exactly the bytes of the frame in flight; without one it is ignored |
| DeviceFacts.FrameVerdict | firmware/serial.cpp:152-176 | the test on command[] is the test of the frame's own bytes |
| DeviceFacts.ProcessRejects | firmware/serial.cpp:152-176 | a frame with a wrong check byte writes NACK and changes nothing else |
| DeviceFacts.SingleBitNacked | firmware/serial.cpp:152-176 | an intact frame with one bit flipped on the line is NACKed and nothing is handed on |
| DeviceFacts.ProcessRepeats | firmware/serial.cpp:181-193 | an intact frame with the old flip-flop is ACKed again and not handed on |
| DeviceFacts.ProcessAccepts | firmware/serial.cpp:195-201 | an intact new frame flips ff_in and is handed on, bit 7 cleared; nothing is written |
| DeviceFacts.CollectAppends | firmware/serial.cpp:124-129 | the bytes read are appended after those already held |
| DeviceFacts.TakeReads | firmware/serial.cpp:118-129 | when available, exactly the bytes the frame lacks are read |
| DeviceFacts.TakeRejects | firmware/serial.cpp:143-176 | a completed frame with a wrong check byte is NACKed |
| DeviceFacts.TakeRepeats | firmware/serial.cpp:181-193 | a completed intact repeat is ACKed again and not handed on |
| DeviceFacts.TakeAccepts | firmware/serial.cpp:195-201 | a completed intact new frame is handed on with bit 7 cleared |
| DeviceFacts.TakePartial | firmware/serial.cpp:130-138 | bytes that do not complete the frame are appended and nothing is written |
| DeviceFacts.TakeStalls | firmware/serial.cpp:118-123 | a frame longer than COMMAND_SIZE never completes: reading stops at COMMAND_SIZE and nothing is written or handed on |
| DeviceFacts.StalledFrameFixedPoint | firmware/serial.cpp:36-44 | with command[] full and bytes waiting, a call that keeps the frame reads and writes nothing and only sets had_data and last_micros, so the next call keeps it too: the receiver is stuck while input waits |
| DeviceFacts.ResendOnTimeout | firmware/serial.cpp:99-115 | with nothing to read, a frame unacknowledged for 200 ms or more is rewritten byte for byte; otherwise nothing happens |
| DeviceFacts.IdleNoResend | firmware/serial.cpp:45-52 | with no frame in progress and nothing to read, nothing is written, however long the frame in flight has waited |
| DeviceFacts.AbandonRule | firmware/serial.cpp:36-45 | a partial frame survives a call without data only when the call before saw data or less than 100 ms have passed |
| DeviceFacts.QuietFrameDropped | firmware/serial.cpp:36-52 | two calls without data, the second 100 ms after the last byte, always drop a partial frame |
| DeviceFacts.RetryDeliveredOnce | firmware/serial.cpp:181-201 | a retry of a frame already taken is not handed on again, and is answered with the ACK the sender waits for |
| DeviceFacts.SendNextWaits | firmware/serial.cpp:278-285 | while a frame is in flight, try_send_next does nothing |
| DeviceFacts.SendNextIdle | firmware/serial.cpp:287-456 | when the scan finds nothing, nothing is written and the line stays free |
| DeviceFacts.SendNextSends | firmware/serial.cpp:287-455 | when the scan settles on a source, its buffer is prepared and sent |
| DeviceFacts.SendNextFrame | firmware/serial.cpp:287-455 | the frame sent for any source but the reply is intact, carries ff_out in bit 7 of its command byte and starts with the source's bytes |
| Firmware.Elapsed | firmware/serial.cpp:36 | `micros () - last_micros` on unsigned long: the difference modulo 2^32, which is the plain difference when no wrap happened in between |
| Firmware.FoldBits | firmware/serial.cpp:166-168 | after the fold, bit 0 is the parity of the row value |
| Firmware.GroupXor | firmware/serial.cpp:164-165 | the byte loop XORs the three group bytes under the row's masks into its start value |
| Firmware.RowOdd | firmware/serial.cpp:163-169 | true exactly when the bits the row selects from the group and the check byte have odd parity |
| Firmware.RowParity | firmware/serial.cpp:244-250 | the parity of the row over the group and the check byte built so far |
| Firmware.CheckByte | firmware/serial.cpp:241-254 | the byte the loop builds is the check byte of the group |
| Firmware.GroupCheck | firmware/serial.cpp:155-174 | accepts exactly when the byte is the group's check byte |
| Firmware.FrameCheck | firmware/serial.cpp:152-176 | accepts exactly the frames whose every check byte is right |
| Firmware.StampedFrame | firmware/serial.cpp:238-255 | the first FrameLen(L) bytes of a stamped buffer pass the firmware's check and keep their first L bytes |
| Firmware.PreparedPayload | firmware/serial.cpp:217-256 | a try_send_next frame, once prepared, passes the firmware's own check and carries ff_out in bit 7 of its command byte |
| Serial.PrepareBuffer | firmware/serial.cpp:217-256 | the array afterwards is the prepared buffer: flip-flop in byte 1, check bytes stamped |
| Serial.StampChecks | firmware/serial.cpp:238-255 | the loop leaves the array equal to the stamped frame |
| Serial.WriteBytes | firmware/serial.cpp:265-267 | the line receives exactly bytes 0 .. n-1 of the array |
| Serial.ChunkLen | firmware/serial.cpp:118-123 | the clamped count equals Device.Chunk |
| Serial.NextSource | firmware/serial.cpp:287-455 | the branch chosen is that of the lowest-ranked pending source, or none when nothing is pending |
| Serial.PutSource | firmware/serial.cpp:294-448 | the buffer is overwritten with the source's payload and nothing else changes |
| Serial.Verify | firmware/serial.cpp:152-176 | true exactly when the frame in command[] passes FrameOk |
| Serial.ReadInto | firmware/serial.cpp:124 | Serial.readBytes leaves the array equal to Device.Fill of it |
| Serial.Put3 | firmware/serial.cpp:344-346 | the array starts with the three header bytes and is otherwise unchanged |
| Serial.Put7 | firmware/serial.cpp:294-302 | the array starts with the header bytes and the four float bytes and is otherwise unchanged |
| Serial.WriteSeq | firmware/serial.cpp:84-86 | the line receives exactly the bytes, in order |
| Serial.Link.constructor | firmware/serial.cpp:20-23 | both flip-flops 0, no frame in progress, none in flight, and the invariant holds |
| Serial.Link.Receive | firmware/serial.cpp:47-54 | bytes arriving on the line are appended to the input and nothing else changes |
| Serial.Link.WriteAck | firmware/serial.cpp:458-461 | writes ACK0 while ff_in is set and ACK1 while it is clear |
| Serial.Link.WriteAckWait | firmware/serial.cpp:463-466 | writes the ACKWAIT code chosen by ff_in |
| Serial.Link.PreparePacket | firmware/serial.cpp:217-256 | the buffer becomes Device.Prepare of it; nothing else changes |
| Serial.Link.SendPacket | firmware/serial.cpp:259-270 | the state becomes Device.Send: the frame's bytes written, busy since now |
| Serial.Link.TrySendNext | firmware/serial.cpp:273-456 | the state becomes Device.SendNext and the invariant holds |
| Serial.Link.LoadSource | firmware/serial.cpp:287-448 | the source's branch writes its bytes and clears its flag, equal to Device.Load |
| Serial.Link.SendSource | firmware/serial.cpp:304-386 | the source's buffer is loaded, prepared and sent, equal to Device.Send after Device.Prepare |
| Serial.Link.WriteId | firmware/serial.cpp:84-86 | writes CMD_ID and the printer id, equal to Device.OnId |
| Serial.Link.ReadFirstByte | firmware/serial.cpp:53-97 | one pass of the byte loop, equal to Device.ReadFirst |
| Serial.Link.ReadByte | firmware/serial.cpp:53-54 | returns the first input byte, which is now in command[0] and no longer in the input |
| Serial.Link.FirstAck | firmware/serial.cpp:61-72 | the pass for an ACK byte equals Device.ReadFirst |
| Serial.Link.FirstNack | firmware/serial.cpp:73-78 | the pass for a NACK byte equals Device.ReadFirst |
| Serial.Link.FirstId | firmware/serial.cpp:79-86 | the pass for CMD_ID equals Device.ReadFirst |
| Serial.Link.FirstIllegal | firmware/serial.cpp:91-95 | the pass for an illegal byte equals Device.ReadFirst |
| Serial.Link.FirstStart | firmware/serial.cpp:96-97 | the pass for a frame's first byte equals Device.ReadFirst |
| Serial.Link.OnAckByte | firmware/serial.cpp:64-71 | the state becomes Device.OnAck |
| Serial.Link.OnNackByte | firmware/serial.cpp:76-77 | the state becomes Device.OnNack |
| Serial.Link.ProcessFrame | firmware/serial.cpp:143-201 | the state becomes Device.Process |
| Serial.Link.Reject | firmware/serial.cpp:152-176 | a frame failing the checksum test: the state becomes Device.Process |
| Serial.Link.Repeat | firmware/serial.cpp:181-193 | an intact repeat: the state becomes Device.Process |
| Serial.Link.Accept | firmware/serial.cpp:195-201 | an intact new frame: the state becomes Device.Process |
| Serial.Link.Complete | firmware/serial.cpp:143-201 | command_end is reset and the state becomes Device.Process of that |
| Serial.Link.ReadFrame | firmware/serial.cpp:99-201 | the state becomes Device.ReadRest and the invariant holds |
| Serial.Link.Resend | firmware/serial.cpp:108-114 | the resend timeout, equal to Device.Timeout |
| Serial.Link.ReadChunk | firmware/serial.cpp:118-129 | reads Device.Chunk bytes into command[] after command_end |
| Serial.Link.Serial | firmware/serial.cpp:34-202 | one call of serial() equals Device.SerialStep and keeps the invariant |
| Serial.Link.AbandonStale | firmware/serial.cpp:36-45 | the receive side becomes Device.Abandon of it |
| Serial.Link.Scan | firmware/serial.cpp:45-97 | the loop equals Device.ScanFirst, and reports whether a frame has started |
| HostCodec.Chr | firmware/printer3d.py:128 | chr(n) for n < 256 is the byte of value n |
| HostCodec.MakePacket | firmware/printer3d.py:127-143 | the method's result is the frame MakeFrame specifies (ValueError, IndexError or the bytes) |
| HostCodec.ParsePacket | firmware/printer3d.py:144-163 | the method's result is ParseFrame of the buffer |
| HostCodec.MakeCheck | firmware/printer3d.py:130-140 | the loop's byte is that group's check byte |
| HostCodec.ParseStep | firmware/printer3d.py:150-162 | one pass over check byte t ends with None or IndexError, or goes on, as CheckFrom says |
| HostCodec.RowXor | firmware/printer3d.py:133-134 | the byte loop XORs the three group bytes under the row's masks into its start value |
| HostCodec.MakeRow | firmware/printer3d.py:132-137 | the row is folded from the check byte so far and the group: true when its parity is odd |
| HostCodec.ParseRow | firmware/printer3d.py:155-160 | the row folded over the four bytes of group and check byte: true when its parity is odd |
| HostCodec.ParseRows | firmware/printer3d.py:154-162 | true exactly when all five rows are even |
| HostCodec.Slice3 | firmware/printer3d.py:151 | Python's slice data[3t:3t+3]: at most three bytes, clipped at the end, each the byte at its place |
| HostCodec.ExtendShape | firmware/printer3d.py:129-140 | when reads precede writes, the loop never raises, keeps the bytes so far and ends with FrameLen(L) bytes |
| HostCodec.ExtendAppends | firmware/printer3d.py:129-140 | byte L + j of the frame is the check computed over the frame's own bytes 3j .. 3j+2 |
| HostCodec.MakeShort | firmware/printer3d.py:129-134 | for lengths 1, 2 and 4 make_packet raises IndexError |
| HostCodec.CheckFromNoRaise | firmware/printer3d.py:150-163 | for L >= 2 the loop never raises: it returns data[1:L] or None |
| HostCodec.CheckFromRejects | firmware/printer3d.py:150-162 | one wrong check byte makes parse_packet return None |
| HostCodec.CheckFromPayload | firmware/printer3d.py:150-163 | right check bytes make the loop return data[1:L] |
| HostCodec.CheckFromStep | firmware/printer3d.py:150-162 | one pass goes on exactly when check byte t is right, and otherwise returns None |
| HostCodec.MakeFrameOutcome | firmware/printer3d.py:127-143 | ValueError exactly when |data| + 1 >= 256; IndexError exactly for lengths 1, 2 and 4; a frame otherwise |
| HostCodec.MakeFrameLayout | firmware/printer3d.py:127-143 | the frame has FrameLen(L) bytes, starts with L and the data, and holds every group's check byte |
| HostCodec.ParseFrameSpec | firmware/printer3d.py:144-163 | IndexError on an empty buffer, and on a length-1 frame whose check byte has the right tag; returns data[1:L] exactly when the buffer has FrameLen(L) bytes for L >= 2 and every check byte is right; None otherwise |
| HostCodec.ParseChecked | firmware/printer3d.py:144-163 | a frame with length L >= 2 and correct check bytes parses to data[1:L] |
| HostCodec.HostRoundTrip | firmware/printer3d.py:127-163 | parse_packet(make_packet(data)) == data for every length make_packet accepts |
| HostCodec.HostFrameAccepted | firmware/serial.cpp:152-176 | a frame make_packet builds for a legal length passes the firmware's checksum test and carries its length in the low seven bits of byte 0 |
| HostCodec.FirmwareFrameParsed | firmware/printer3d.py:144-163 | a frame try_send_next builds and send_packet writes parses on the host to its payload, with the flip-flop in bit 7 of the command byte |
| HostLink.Initial | firmware/printer3d.py:99-104 | both flip-flops false, no wait, nothing awaited, no limits |
| HostLink.Bytes | firmware/printer3d.py:228 | the events by which bytes arrive: one Byte event per byte, in order |
| HostLink.PackInt32 | firmware/printer3d.py:286 | struct.pack('<l') gives four bytes |
| HostLink.SkipDebug | firmware/printer3d.py:309-318 | drops the events up to and including the first timeout or zero byte; None exactly when the script ends first |
| HostLink.ReadUpTo | firmware/printer3d.py:228 | read(n): the bytes returned, then a consumed timeout when fewer than n came, then the rest is exactly the script |
| HostLink.ReadUpToBytes | firmware/printer3d.py:228 | n bytes arriving without a pause are returned whole by one read(n) |
| HostLink.CountDownExact | firmware/printer3d.py:259-261 | k moves lower movewait by exactly k when it is at least k; otherwise the assertion fails once movewait reaches 0, or at once when it was not positive |
| HostLink.Int32RoundTrip | firmware/printer3d.py:286 | struct.unpack('<l') undoes struct.pack('<l') on every signed 32-bit value |
| HostLink.Int32Range | firmware/printer3d.py:286 | the unpacked value is a signed 32-bit value, and packing it gives the four bytes back |
| HostLink.Dispatch | firmware/printer3d.py:258-299 | in either mode the asynchronous replies change only their own fields; the line, ff_out and output stay |
| HostLink.DispatchMoveCb | firmware/printer3d.py:258-267 | MOVECB with k = data[1]: movewait drops by k, or AssertionError when fewer than k moves are outstanding; IndexError on a short payload |
| HostLink.DispatchLimit | firmware/printer3d.py:285-292 | LIMIT: StructError exactly when the payload is not 6 bytes; otherwise axis data[1] is set to the signed value its last four bytes pack |
| HostLink.DispatchMessage | firmware/printer3d.py:293-296 | MESSAGE always raises AttributeError |
| HostLink.TempCbAsWrittenRejects | firmware/printer3d.py:269-270 | with only channel 0 awaited, the firmware's TEMPCB for channel 0 raises as written but ends the wait as intended |
| HostLink.TempCbAsWrittenIgnoresChannel | firmware/printer3d.py:269-270 | as written, the outcome does not depend on the channel byte |
| HostLink.TempCbAsWrittenKey | firmware/printer3d.py:268-276 | as written, a TEMPCB reply, whatever its channel and even without one, ends the wait on 23 (the TEMPCB code) and only on it; AssertionError when 23 is not awaited |
| HostLink.TempCbEndsWait | firmware/printer3d.py:268-276 | as intended, a TEMPCB for channel c ends the wait on c and only on c; an unawaited channel raises |
| HostLink.Handle | firmware/printer3d.py:236-256 | handling a complete buffer reads nothing from the line, never changes ff_out and only appends to the output |
| HostLink.RecvStep | firmware/printer3d.py:208-299 | one pass consumes script or empties the buffer, never touches ff_out and only appends to the output |
| HostLink.Recv | firmware/printer3d.py:205-299 | recv_packet never changes ff_out, never grows the script and only appends to what it wrote |
| HostLink.RecvDuplicate | firmware/printer3d.py:244-249 | a frame whose flip-flop differs from ff_in is ACKed and dropped, ff_in unchanged, and reading starts over |
| HostLink.RecvNew | firmware/printer3d.py:250-256 | a new frame is ACKed and ff_in toggles; a non-async payload is returned with bit 7 cleared |
| HostLink.RecvFrameArrives | firmware/printer3d.py:209-243 | a frame that arrives without a pause is read by one read(1) and one read(n), then handled whole |
| HostLink.RecvFirstByte | firmware/printer3d.py:209-225 | a first byte below 0x80 starts the buffer and is consumed |
| HostLink.RecvRestArrives | firmware/printer3d.py:226-235 | the rest of a frame arriving without a pause is read by one read(n) |
| HostLink.RecvComplete | firmware/printer3d.py:236-256 | a buffer that parses goes straight to the payload's handling |
| HostLink.Take | firmware/printer3d.py:244-299 | handling a parsed payload keeps the line and ff_out and only appends to the output |
| HostLink.TakeTempCb | firmware/printer3d.py:250-276 | a TEMPCB payload with the expected flip-flop is ACKed, toggles ff_in and is dispatched as [TEMPCB, w], in either mode |
| HostLink.TempCbFrameArrives | firmware/printer3d.py:205-276 | a TEMPCB frame with the expected flip-flop, arriving whole, ends recv_packet as the dispatch of [TEMPCB, w] after the ACK and the toggle of ff_in |
| HostLink.TempCbFrameEndsWait | firmware/printer3d.py:205-276 | as intended, such a frame ends the wait on its channel and returns '' |
| HostLink.FirmwareFrameShape | firmware/serial.cpp:259-270 | a frame the firmware sends has a length byte below 0x80, FrameLen of it bytes, and parses on the host to its payload with the flip-flop bit set from ff_out |
| HostLink.FirmwareTempCbEndsWait | firmware/printer3d.py:205-276 | the firmware's TEMPCB frame for channel w, with the expected flip-flop, ends the host's wait on w (intended handling) |
| HostLink.FirmwareTempCbAsWritten | firmware/printer3d.py:205-276 | as written, the same frame ends the wait on 23 whatever w is, and raises AssertionError when 23 is not awaited |
| HostLink.ReplyFrameReturned | firmware/printer3d.py:205-299 | a new non-async frame arriving whole is returned to the caller with bit 7 cleared |
| HostLink.FirmwareReplyReturned | firmware/printer3d.py:205-299 | a reply the firmware prepares and sends with the expected flip-flop reaches the caller as the firmware wrote it, flip-flop cleared |
| HostLink.Send | firmware/printer3d.py:165-203 | ff_out toggles exactly once unless the call raises at once on empty data, and output only grows |
| HostLink.Await | firmware/printer3d.py:172-203 | the reply loop never changes ff_out and only appends output |
| HostLink.SendFlagsCommand | firmware/printer3d.py:165-174 | the first frame written parses back to data with bit 7 of the command byte set exactly when ff_out was; ff_out toggled once before any resend |
| HostLink.ResendsSameFrame | firmware/printer3d.py:172-187 | every timeout or NACK before the ACK rewrites the same frame and nothing else |
| HostLink.Printer.constructor | firmware/printer3d.py:99-104 | the object's state is Initial of the script |
| HostLink.Printer.ReadEvent | firmware/printer3d.py:176 | read(1): the next event is taken from the script; an exhausted script yields None and changes nothing |
| HostLink.Printer.Read | firmware/printer3d.py:228 | the bytes and remaining script are ReadUpTo's |
| HostLink.Printer.HandleDebug | firmware/printer3d.py:309-318 | the loop leaves the script where SkipDebug says; false exactly when the script runs out |
| HostLink.Printer.CountMoves | firmware/printer3d.py:259-261 | the loop's movewait and success flag are CountDown's |
| HostLink.Printer.Deliver | firmware/printer3d.py:258-299 | the step taken equals Dispatch as written: TEMPCB asserts and removes ord(data[0]) |
| HostLink.Printer.Accept | firmware/printer3d.py:236-256 | the step taken equals Handle as written |
| HostLink.Printer.TakePayload | firmware/printer3d.py:244-299 | the step taken equals Take as written |
| HostLink.Printer.AwaitFirst | firmware/printer3d.py:209-225 | one pass of the first inner loop equals RecvStep |
| HostLink.Printer.ReadRest | firmware/printer3d.py:226-235 | one pass of the second inner loop equals RecvStep |
| HostLink.Printer.RecvPacket | firmware/printer3d.py:205-299 | the reply and the new state are those of Recv as written |
| HostLink.Printer.AwaitStep | firmware/printer3d.py:175-203 | one reply to the frame equals a step of Await |
| HostLink.Printer.AwaitReply | firmware/printer3d.py:172-203 | the reply and new state are those of Await |
| HostLink.Printer.SendPacket | firmware/printer3d.py:165-203 | the reply and new state are those of Send as written |

## Left out

- The `end_time` parameter of recv_packet and its setTimeout calls are not
  modelled. Every call has no deadline, so a timeout is answered with NACK.
- handle_debug: the debug text it gathers and prints is not kept. Only how
  far it reads is modelled.
- Python's read(1) and read(n) on a real port become the event script. A
  script that runs out ends the model's call with `Starved`, where the real
  port would go on timing out; the model does not follow a call past the end
  of its script.
- `micros()` is read once per call of a firmware routine. The model passes that
  value in as `now`. Watchdog resets and debug output are left out.
- Floating point is not modelled. A limit in `limits_pos` is either NaN
  (`None`) or its four bytes, and `sense_pos` is four bytes.
- The firmware sends a LIMIT report as the four bytes of a float. The host
  decodes them with `struct.unpack('<l')`: those bytes read as a signed
  integer. The model does the same as the source.
- The firmware's `char` buffers are unsigned bytes. `packet()` and the rest of
  the firmware's command handling are not part of this model. `packet()`
  becomes a log of the frames handed on.
- firmware.h is not part of this model. Its constants arrive as a `Config`
  value. These include the CMD_* codes, COMMAND_SIZE, MAXAXES, MAXOBJECT,
  ID_SIZE and the printer id. The types and compile-time choices that
  firmware.h makes are fixed in the model instead, on the next three
  lines.
- Firmware.BUF_SIZE is 170, the size of `out_buffer` and `reply`: the longest
  frame, FrameLen(127). The model assumes firmware.h declares the buffers at
  least that large.
- Firmware.LenOf reads the length as `command[0] & 0x7f`: it assumes
  COMMAND_LEN_MASK is 0x7f, the mask the checksum loop writes out as `~0x80`
  at firmware/serial.cpp:152.
- Outbound.Pending fixes three choices firmware.h makes. (a) `num_movecbs`,
  `continue_cb`, `which_autosleep`, `ping` and each `axis[w].sense_state`
  are 8-bit (`bv8`). A wider `num_movecbs` would be truncated by
  `out_buffer[2] = num_movecbs` at firmware/serial.cpp:346, and the model
  does not show that. (b) `which_tempcbs` is a set of slot numbers
  (`set<nat>`), not an integer tested with `1 << w` at
  firmware/serial.cpp:360 and 365. Its width is not modelled, so a slot at or
  past that width, which the source cannot flag, is still sent by the model.
  (c) The TEMPCB branch is always present; the source compiles it only under
  `#if MAXTEMPS > 0 || MAXEXTRUDERS > 0` at firmware/serial.cpp:352.
- Outbound.WellFormed assumes that no temperature-callback slot at or above
  MAXOBJECT is flagged in `which_tempcbs` (Pending.tempCbs). The code that sets
  those flags is outside serial.cpp. Without this assumption, try_send_next's
  loop over the slots finds none of them and never clears the flag. An
  initialized link would then resend a stale `out_buffer`, and an
  uninitialized one would recurse without end. The model does not capture
  either.
- Device.Process requires a legal length, so it leaves out the size test at
  firmware/serial.cpp:146-150. That test can never fail: firmware/serial.cpp:91-95
  refuses the same lengths before a frame starts, and Device.SerialStepInv
  keeps a legal length byte in command[0] while a frame is in progress.
- Device.Inv's resend property (a NACK or timeout resends exactly the frame
  in flight) relies on nothing outside serial.cpp rewriting `reply` or
  `out_buffer` while their frame waits for an ACK. `packet()` writes `reply`
  and is not part of this model; the model assumes it leaves `reply` alone
  while a reply or pong frame is unacknowledged.
- The ACK for a new frame is not written by serial(). It is left to
  `packet()`, which is not part of this model. The routines that write it,
  write_ack and write_ackwait, are modelled (Serial.Link.WriteAck and
  Serial.Link.WriteAckWait). They answer with the flipped ff_in.
- DeviceFacts.SendNextFrame: the model requires COMMAND_SIZE to be larger than
  7 so that prepare_packet stamps the frame. A smaller COMMAND_SIZE makes
  prepare_packet skip the stamp, and the frame goes out unchecked.
- DeviceFacts.TakeStalls: a FrameLen(L) above COMMAND_SIZE never completes.
  While bytes keep waiting, serial() reads none of them but sets had_data, so
  the abandon timer never fires. The receiver is then stuck for good
  (DeviceFacts.StalledFrameFixedPoint). Whether this can happen depends on
  COMMAND_SIZE, which firmware.h sets. So it is proved, but not logged as a
  finding.
- The firmware's resend after 200 ms happens only while a frame is partly
  received. Without one, serial() returns at firmware/serial.cpp:51 first. A protocol
  description that promises a resend in every idle call differs from the code.
  The model follows the code (DeviceFacts.IdleNoResend).
- The host's mask table is the same literal as the firmware's MASK. It is one
  definition in the model.
- recv_packet's `assert r != INIT` at firmware/printer3d.py:223 is implied by the bit-7
  assertion after it. Both raise AssertionError, which the model reports as
  one failure.
- `__init__`'s port scan, boot handshake and `begin()` are not modelled. The
  host model starts in the state that `__init__` sets up (firmware/printer3d.py:99-104).
- HostLink.DispatchMessage: `self.messages` is never created, so MESSAGE always
  raises AttributeError, and the appended message is not modelled.
- HostLink.Take: the branch for an empty payload (Python's IndexError at
  `data[0]`) cannot happen after a successful parse_packet. It is kept for
  totality.
- Time wrap: `micros()` differences are modulo 2^32, as in the firmware. The
  host's wall-clock time is not modelled.

## Findings

| source | as written | input that shows it | evidently intended | confidence | as-written member | corrected member |
|---|---|---|---|---|---|---|
| firmware/printer3d.py:269-270 | the TEMPCB handler asserts that ord(data[0]) is in tempwait and removes it, but data[0] is always the TEMPCB code (0x17) | tempwait == {0} and the firmware's TEMPCB frame for channel 0 (payload [0x17, 0]): the assertion fails | the channel data[1], the byte the firmware writes at firmware/serial.cpp:364 and the key waittemp adds at firmware/printer3d.py:445-454, is asserted and removed | not executed | HostLink.Dispatch in mode AsWritten (HostLink.TempCbAsWritten, run by HostLink.Printer.Deliver), shown by HostLink.TempCbAsWrittenRejects and HostLink.FirmwareTempCbAsWritten | HostLink.Dispatch in mode Intended (HostLink.TempCb), proved by HostLink.TempCbEndsWait and HostLink.FirmwareTempCbEndsWait |

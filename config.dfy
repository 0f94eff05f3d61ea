/** The constants firmware/serial.cpp takes from firmware.h, which is not
    part of this model: the single-byte control codes, the command codes of
    the frames the firmware sends, the buffer size and the table sizes.  They
    are parameters of the model rather than fixed values. */
module FirmwareConfig {

  datatype Config = Config(
    ack0: bv8, ack1: bv8, nack: bv8, id: bv8, ackWait0: bv8, ackWait1: bv8,
    cmdLimit: bv8, cmdSense: bv8, cmdMoveCb: bv8, cmdTempCb: bv8,
    cmdContinue: bv8, cmdAutoSleep: bv8, cmdPong: bv8,
    commandSize: nat,       // COMMAND_SIZE, the size of command[]
    maxAxes: nat,           // MAXAXES
    maxObject: nat,         // MAXOBJECT, the number of temp-callback slots
    printerId: seq<bv8>)    // printerid[0 .. ID_SIZE - 1]

  /** What the firmware relies on: the four codes serial() dispatches on are
      distinct case labels and, like every single-byte code, have bit 7 set
      so that they cannot be taken for the length byte of a frame
      (serial.cpp:11-13); the axis and object indices are counted by uint8_t
      loop variables, so both tables have fewer than 256 entries. */
  predicate Valid(c: Config) {
    c.ack0 != c.ack1 && c.ack0 != c.nack && c.ack0 != c.id
    && c.ack1 != c.nack && c.ack1 != c.id && c.nack != c.id
    && c.ack0 >= 0x80 && c.ack1 >= 0x80 && c.nack >= 0x80 && c.id >= 0x80
    && c.maxAxes < 0x100 && c.maxObject < 0x100
  }
}

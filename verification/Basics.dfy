/** Types shared by every part of the model. */
module Basics {

  /** An unsigned octet (`uint8_t`). */
  type Byte = b: int | 0 <= b < 0x100

  /** A `uint16_t`. */
  type Word16 = w: int | 0 <= w < 0x1_0000

  /** A `uint32_t`. */
  type Word32 = w: int | 0 <= w < 0x1_0000_0000

  /** The `MOSQ_ERR_*` codes that the modelled functions return. */
  datatype Rc =
    | Success
    | Inval
    | Protocol
    | NoMem
    | NoConn
    | ConnLost
    | NotFound
    | PayloadSize
    | MalformedUtf8
    | MalformedPacket
    | DuplicateProperty
    | OversizePacket
    | ConnRefused
    | Errno

  /** A return code that reports a failure. */
  type ErrorCode = rc: Rc | rc != Success witness Inval

  datatype Option<+T> = None | Some(value: T)
}

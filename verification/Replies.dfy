/** Negative responses and their codes. */
module Replies {
  import opened Bytes

  const NRC_LENGTH := 0x13
  const NRC_TOO_LONG := 0x14
  const NRC_CONDITIONS := 0x22
  const NRC_SEQUENCE := 0x24
  const NRC_RANGE := 0x31
  const NRC_SECURITY := 0x33

  /** The SDU of a negative response. */
  function Nrc(sid: byte, code: byte): seq<byte> { [0x7F, sid, code] }
}

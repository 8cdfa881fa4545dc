/** Constants shared by the wire format and the system model. */
module Constants {

  /** One more than the largest value of a 32-bit word. */
  const U32_RANGE: nat := 0x1_0000_0000

  /** MessageType::CMD_SET_MODE (include/core/message/MessageType.hpp). */
  const CMD_SET_MODE: bv16 := 0x1003
}

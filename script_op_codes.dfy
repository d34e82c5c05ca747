/** The opcodes of `ScriptOpCodes` that the chunk codec refers to. */
module ScriptOpCodes {

  /** Push an empty byte array. */
  const OP_0: int := 0x00
  /** Push with a 1-byte length prefix. */
  const OP_PUSHDATA1: int := 0x4c
  /** Push with a 2-byte little-endian length prefix. */
  const OP_PUSHDATA2: int := 0x4d
  /** Push with a 4-byte little-endian length prefix. */
  const OP_PUSHDATA4: int := 0x4e
  /** Push the number -1. */
  const OP_1NEGATE: int := 0x4f
  /** Push the number 1; OP_2 .. OP_16 follow consecutively. */
  const OP_1: int := 0x51
  /** Push the number 16. */
  const OP_16: int := 0x60
}

/** The fixed sizes of the JTAG test. */
module JtagSizes {

  const MAX_TDO_SIZE: nat := 2048
  const MAX_TAPS_SUPPORTED: nat := 16
  const MAX_IR_SHIFT_SIZE: nat := 0x400
}

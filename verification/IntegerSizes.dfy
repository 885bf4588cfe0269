/** The sizes of the code's fixed-width unsigned integers. */
module IntegerSizes {
  const TWO_32 := 0x1_0000_0000
  const TWO_64 := 0x1_0000_0000_0000_0000
}

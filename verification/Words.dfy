/** The sizes of 64-bit machine words. */
module Words {
  const TWO_63: nat := 0x8000_0000_0000_0000
  const TWO_64: nat := 0x1_0000_0000_0000_0000
}

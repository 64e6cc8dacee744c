/** The width of the machine words that addresses and counters live in. */
module Machine {
  const U64: nat := 0x1_0000_0000_0000_0000
}

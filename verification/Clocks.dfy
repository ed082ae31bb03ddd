/** Instants and spans in unix milliseconds, as the store's 64-bit arithmetic holds them. */
module Clocks {
  const U64_MAX: nat := 0xFFFF_FFFF_FFFF_FFFF

  type U64 = n: nat | n <= U64_MAX

  function SaturatingAdd(a: U64, b: U64): U64 {
    if a + b <= U64_MAX then a + b else U64_MAX
  }

  /** The expiry an interval past now fixes. */
  function Expiry(now: U64, interval: U64): U64 {
    SaturatingAdd(now, interval)
  }
}

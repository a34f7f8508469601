/** Rust's 64-bit unsigned integers: their bound and their saturating operations. */
module Machine {

  const U64_MAX: nat := 0xFFFF_FFFF_FFFF_FFFF

  const USIZE_MAX: nat := U64_MAX

  function Saturated(n: nat): nat { if n <= U64_MAX then n else U64_MAX }

  function SaturatingAdd(a: nat, b: nat): nat { Saturated(a + b) }

  function SaturatingInc(n: nat): nat { if n < U64_MAX then n + 1 else n }

  function SaturatingSub(a: nat, b: nat): nat { if a < b then 0 else a - b }
}

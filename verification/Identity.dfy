/** Process identity (crates/running-process-probe-daemon/src/registry.rs:39-52). */
module Identity {

  /** A pid alone is recycled by the OS; the start time and the boot id pin one
      process instance. */
  datatype ProcessKey = ProcessKey(pid: nat, startedAt: nat, bootId: string)

  const U64_MAX: nat := 0xFFFF_FFFF_FFFF_FFFF

  function SaturatingAdd(a: nat, b: nat): nat {
    if a + b > U64_MAX then U64_MAX else a + b
  }

  function SaturatingSub(a: nat, b: nat): nat {
    if a >= b then a - b else 0
  }

  /** Sums and differences of 64-bit numbers are exact as long as they are 64-bit numbers,
      and stop at the largest and the smallest one. */
  lemma SaturationMeans(a: nat, b: nat)
    ensures a + b < 0x1_0000_0000_0000_0000 ==> SaturatingAdd(a, b) == a + b
    ensures a + b >= 0x1_0000_0000_0000_0000 ==> SaturatingAdd(a, b) == 0xFFFF_FFFF_FFFF_FFFF
    ensures b <= a ==> SaturatingSub(a, b) + b == a
    ensures b > a ==> SaturatingSub(a, b) == 0
  {
  }
}

/**
 * The CPU mask that pins a thread to one CPU. The mask is the byte form of a
 * Linux CPU set: CPU k is bit k % 8 of byte k / 8, lowest bit first, which is
 * also how `BitSet.valueOf` reads bytes back.
 */
module Affinity {
  import opened Bytes
  import opened Wrappers

  function Pow2(k: nat): (r: nat)
    ensures r >= 1
  {
    if k == 0 then 1 else 2 * Pow2(k - 1)
  }

  /** Bit j (0 = lowest) of byte b. */
  predicate BitSet(b: byte, j: nat) {
    (b as int / Pow2(j)) % 2 == 1
  }

  /**
   * `setAffinity(int cpu)`: a zero-filled array of `cpu >> 3` + 1 bytes whose
   * last byte is `1 << (cpu & 7)`. For a negative cpu the array is either of
   * negative size or has no byte at index -1, so the call throws: None.
   */
  function CpuMask(cpu: int): (r: Option<seq<byte>>)
    ensures r.None? <==> cpu < 0
    ensures r.Some? ==> |r.value| == cpu / 8 + 1
  {
    if cpu < 0 then None
    else
      var slot := cpu / 8;
      SingleBit(cpu % 8, 0);
      Some(seq(slot + 1, i => if i == slot then Pow2(cpu % 8) as byte else 0))
  }

  /** The CPUs a mask selects: bit k % 8 of byte k / 8 set. */
  function MaskCpus(mask: seq<byte>): (cpus: set<int>)
    ensures forall k :: k in cpus ==> 0 <= k < 8 * |mask|
  {
    set k | 0 <= k < 8 * |mask| && BitSet(mask[k / 8], k % 8)
  }

  /** A single-bit byte has exactly that bit set. */
  lemma SingleBit(i: nat, j: nat)
    requires i < 8 && j < 8
    ensures Pow2(i) < 256
    ensures BitSet(Pow2(i) as byte, j) <==> i == j
  {
    assert Pow2(1) == 2 && Pow2(2) == 4 && Pow2(3) == 8;
    assert Pow2(4) == 16 && Pow2(5) == 32 && Pow2(6) == 64 && Pow2(7) == 128;
  }

  /** The mask byte for CPU cpu is the only nonzero byte and has exactly bit cpu % 8 set. */
  lemma CpuMaskBytes(cpu: int)
    requires cpu >= 0
    ensures var m := CpuMask(cpu).value;
            && (forall i :: 0 <= i < |m| && i != cpu / 8 ==> m[i] == 0)
            && (forall j :: 0 <= j < 8 ==> (BitSet(m[cpu / 8], j) <==> j == cpu % 8))
  {
    var m := CpuMask(cpu).value;
    forall j | 0 <= j < 8
      ensures BitSet(m[cpu / 8], j) <==> j == cpu % 8
    {
      SingleBit(cpu % 8, j);
    }
  }

  /** Reading the mask back as a CPU set gives exactly {cpu}. */
  lemma CpuMaskSelectsOnlyCpu(cpu: int)
    requires cpu >= 0
    ensures MaskCpus(CpuMask(cpu).value) == {cpu}
  {
    var m := CpuMask(cpu).value;
    CpuMaskBytes(cpu);
    forall k | 0 <= k < 8 * |m|
      ensures BitSet(m[k / 8], k % 8) <==> k == cpu
    {
      if k / 8 != cpu / 8 {
        assert m[k / 8] == 0;
        assert Pow2(k % 8) >= 1;
        assert k != cpu;
      }
    }
    assert cpu in MaskCpus(m);
  }
}

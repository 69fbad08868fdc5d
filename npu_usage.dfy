/** Per-process NPU usage samples (AMD XDNA driver). */
module NpuUsage {
  import opened Wrappers
  import opened Counters

  datatype NpuUsageStats = AmdxdnaStats(usageNs: nat, memBytes: nat)

  /** `delta_ns`: busy nanoseconds over the elapsed milliseconds (as nanoseconds), undefined
      for an empty interval. */
  function DeltaNs(a: nat, b: nat, timeDelta: nat): (r: Option<Quotient>)
    ensures r.None? <==> timeDelta == 0
    ensures r.Some? ==> r.value.denominator == timeDelta * 1_000_000 > 0
    ensures r.Some? && a <= b ==> r.value.numerator == 0
    ensures r.Some? && a >= b ==> r.value.numerator == a - b
  {
    if timeDelta == 0 then None
    else Some(Quotient(SaturatingSub(a, b), timeDelta * 1_000_000))
  }

  /** `usage_fraction`: the NPU's share of the interval between the two samples. */
  function UsageFraction(s: NpuUsageStats, prev: NpuUsageStats, timeDelta: nat): (r: Option<Quotient>)
    ensures r.None? <==> timeDelta == 0
    ensures r.Some? ==> r.value.numerator <= s.usageNs
  {
    DeltaNs(s.usageNs, prev.usageNs, timeDelta)
  }

  /** `mem`: always reported. */
  function Mem(s: NpuUsageStats): (r: Option<nat>)
    ensures r == Some(s.memBytes)
  {
    Some(s.memBytes)
  }

  /** `greater`: the counter-wise maximum. */
  function Greater(a: NpuUsageStats, b: NpuUsageStats): (r: NpuUsageStats)
    ensures r.usageNs >= a.usageNs && r.usageNs >= b.usageNs
    ensures r.memBytes >= a.memBytes && r.memBytes >= b.memBytes
    ensures r.usageNs == a.usageNs || r.usageNs == b.usageNs
    ensures r.memBytes == a.memBytes || r.memBytes == b.memBytes
  {
    AmdxdnaStats(Max(a.usageNs, b.usageNs), Max(a.memBytes, b.memBytes))
  }

  /** The memory a merged sample reports is the larger of the two samples' memory, so the
      process's NPU memory is that of the device's largest sample. */
  lemma MemOfGreater(a: NpuUsageStats, b: NpuUsageStats)
    ensures Mem(Greater(a, b)).Some?
    ensures Mem(Greater(a, b)).value >= Mem(a).value && Mem(Greater(a, b)).value >= Mem(b).value
    ensures Mem(Greater(a, b)) == Mem(a) || Mem(Greater(a, b)) == Mem(b)
  {
  }

  /** Merging is idempotent, commutative and associative. */
  lemma GreaterLaws(a: NpuUsageStats, b: NpuUsageStats, c: NpuUsageStats)
    ensures Greater(a, a) == a
    ensures Greater(a, b) == Greater(b, a)
    ensures Greater(Greater(a, b), c) == Greater(a, Greater(b, c))
  {
  }
}

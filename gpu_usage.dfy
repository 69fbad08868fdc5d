/** Per-process GPU usage samples of the different kernel drivers, how two samples of one
    process are merged, and which usage fractions each driver can provide. */
module GpuUsage {
  import opened Wrappers
  import opened Counters
  import PciSlot

  /** Which GPU a sample belongs to: its PCI slot, or an index when the slot is unknown. */
  datatype GpuIdentifier = PciSlotId(slot: PciSlot.Slot) | Enumerator(index: nat)

  /** `GpuIdentifier::default()`. */
  const DefaultGpuIdentifier: GpuIdentifier := Enumerator(0)

  /** A percentage 0..=100. */
  type Percentage = x: nat | x <= 100

  /** One sample of a process's GPU usage; which counters exist depends on the driver. */
  datatype GpuUsageStats =
    | AmdgpuStats(gfxNs: nat, encNs: nat, decNs: nat, memBytes: nat)
    | I915Stats(gfxNs: nat, videoNs: nat)
    | NvidiaStats(gfxPercentage: Percentage, encPercentage: Percentage, decPercentage: Percentage, memBytes: nat)
    | V3dStats(gfxNs: nat, memBytes: nat)
    | XeStats(gfxCycles: nat, gfxTotalCycles: nat, videoCycles: nat, videoCyclesTotal: nat, memBytes: nat)

  predicate SameDriver(a: GpuUsageStats, b: GpuUsageStats)
  {
    (a.AmdgpuStats? && b.AmdgpuStats?) || (a.I915Stats? && b.I915Stats?)
    || (a.NvidiaStats? && b.NvidiaStats?) || (a.V3dStats? && b.V3dStats?)
    || (a.XeStats? && b.XeStats?)
  }

  /** `a` is at least `b` in every counter (and both come from the same driver). */
  predicate Dominates(a: GpuUsageStats, b: GpuUsageStats)
  {
    match (a, b)
    case (AmdgpuStats(g, e, d, m), AmdgpuStats(g', e', d', m')) => g >= g' && e >= e' && d >= d' && m >= m'
    case (I915Stats(g, v), I915Stats(g', v')) => g >= g' && v >= v'
    case (NvidiaStats(g, e, d, m), NvidiaStats(g', e', d', m')) => g >= g' && e >= e' && d >= d' && m >= m'
    case (V3dStats(g, m), V3dStats(g', m')) => g >= g' && m >= m'
    case (XeStats(g, gt, v, vt, m), XeStats(g', gt', v', vt', m')) =>
      g >= g' && gt >= gt' && v >= v' && vt >= vt' && m >= m'
    case _ => false
  }

  /** `GpuUsageStats::greater`: the counter-wise maximum of two samples of the same driver;
      a sample of another driver is ignored. */
  function Greater(a: GpuUsageStats, b: GpuUsageStats): (r: GpuUsageStats)
    ensures !SameDriver(a, b) ==> r == a
    ensures SameDriver(a, b) ==> Dominates(r, a) && Dominates(r, b)
    ensures SameDriver(r, a)
  {
    match (a, b)
    case (AmdgpuStats(g, e, d, m), AmdgpuStats(g', e', d', m')) =>
      AmdgpuStats(Max(g, g'), Max(e, e'), Max(d, d'), Max(m, m'))
    case (I915Stats(g, v), I915Stats(g', v')) =>
      I915Stats(Max(g, g'), Max(v, v'))
    case (NvidiaStats(g, e, d, m), NvidiaStats(g', e', d', m')) =>
      NvidiaStats(Max(g, g'), Max(e, e'), Max(d, d'), Max(m, m'))
    case (V3dStats(g, m), V3dStats(g', m')) =>
      V3dStats(Max(g, g'), Max(m, m'))
    case (XeStats(g, gt, v, vt, m), XeStats(g', gt', v', vt', m')) =>
      XeStats(Max(g, g'), Max(gt, gt'), Max(v, v'), Max(vt, vt'), Max(m, m'))
    case _ => a
  }

  /** The merge is the least upper bound: any sample dominating both inputs dominates it. */
  lemma GreaterIsLeastUpperBound(a: GpuUsageStats, b: GpuUsageStats, c: GpuUsageStats)
    requires Dominates(c, a) && Dominates(c, b)
    ensures Dominates(c, Greater(a, b))
  {
  }

  /** Dominance is a preorder on the samples of one driver. */
  lemma DominatesReflexive(a: GpuUsageStats)
    ensures Dominates(a, a)
  {
  }

  lemma DominatesTransitive(a: GpuUsageStats, b: GpuUsageStats, c: GpuUsageStats)
    requires Dominates(a, b) && Dominates(b, c)
    ensures Dominates(a, c)
  {
  }

  /** Merging is idempotent, and commutative for samples of the same driver. */
  lemma GreaterIdempotentCommutative(a: GpuUsageStats, b: GpuUsageStats)
    ensures Greater(a, a) == a
    ensures SameDriver(a, b) ==> Greater(a, b) == Greater(b, a)
  {
  }

  /** Merging is associative for samples of the same driver, so the order in which a
      process's samples are folded does not matter. */
  lemma GreaterAssociative(a: GpuUsageStats, b: GpuUsageStats, c: GpuUsageStats)
    requires SameDriver(a, b) && SameDriver(b, c)
    ensures Greater(Greater(a, b), c) == Greater(a, Greater(b, c))
  {
  }

  /** `mem`: the memory counter, which the i915 driver does not report. */
  function Mem(s: GpuUsageStats): (r: Option<nat>)
    ensures r.None? <==> s.I915Stats?
    ensures r.Some? ==> r.value == s.memBytes
  {
    if s.I915Stats? then None else Some(s.memBytes)
  }

  /** Busy nanoseconds over the elapsed milliseconds, as nanoseconds. */
  function NsFraction(now: nat, prev: nat, timeDelta: nat): (q: Quotient)
    ensures q.denominator == timeDelta * 1_000_000
    ensures now <= prev ==> q.numerator == 0
  {
    Quotient(SaturatingSub(now, prev), timeDelta * 1_000_000)
  }

  /** Busy cycles over total cycles between the two samples. */
  function CycleFraction(now: nat, prev: nat, nowTotal: nat, prevTotal: nat): Quotient
  {
    Quotient(SaturatingSub(now, prev), SaturatingSub(nowTotal, prevTotal))
  }

  /** `gfx_fraction`: the graphics engine's share of the interval between `prev` and `s`,
      `timeDelta` milliseconds apart. */
  function GfxFraction(s: GpuUsageStats, prev: GpuUsageStats, timeDelta: nat): (r: Option<Quotient>)
    ensures r.Some? <==> SameDriver(s, prev)
    ensures r.Some? && s.NvidiaStats? ==> r.value == Quotient(s.gfxPercentage, 100)
  {
    match (s, prev)
    case (AmdgpuStats(a, _, _, _), AmdgpuStats(b, _, _, _)) => Some(NsFraction(a, b, timeDelta))
    case (I915Stats(a, _), I915Stats(b, _)) => Some(NsFraction(a, b, timeDelta))
    case (V3dStats(a, _), V3dStats(b, _)) => Some(NsFraction(a, b, timeDelta))
    case (NvidiaStats(p, _, _, _), NvidiaStats(_, _, _, _)) => Some(Quotient(p, 100))
    case (XeStats(a, at, _, _, _), XeStats(b, bt, _, _, _)) => Some(CycleFraction(a, b, at, bt))
    case _ => None
  }

  /** `enc_fraction`: the encoder's share; the i915 driver reports one video engine, V3D none. */
  function EncFraction(s: GpuUsageStats, prev: GpuUsageStats, timeDelta: nat): (r: Option<Quotient>)
    ensures r.Some? <==> SameDriver(s, prev) && !s.V3dStats?
    ensures r.Some? && s.NvidiaStats? ==> r.value == Quotient(s.encPercentage, 100)
  {
    match (s, prev)
    case (AmdgpuStats(_, a, _, _), AmdgpuStats(_, b, _, _)) => Some(NsFraction(a, b, timeDelta))
    case (I915Stats(_, a), I915Stats(_, b)) => Some(NsFraction(a, b, timeDelta))
    case (NvidiaStats(_, p, _, _), NvidiaStats(_, _, _, _)) => Some(Quotient(p, 100))
    case (XeStats(_, _, a, at, _), XeStats(_, _, b, bt, _)) => Some(CycleFraction(a, b, at, bt))
    case _ => None
  }

  /** `dec_fraction`: the decoder's share; neither i915 nor V3D report one. */
  function DecFraction(s: GpuUsageStats, prev: GpuUsageStats, timeDelta: nat): (r: Option<Quotient>)
    ensures r.Some? <==> SameDriver(s, prev) && !s.I915Stats? && !s.V3dStats?
    ensures r.Some? && s.NvidiaStats? ==> r.value == Quotient(s.decPercentage, 100)
  {
    match (s, prev)
    case (AmdgpuStats(_, _, a, _), AmdgpuStats(_, _, b, _)) => Some(NsFraction(a, b, timeDelta))
    case (NvidiaStats(_, _, p, _), NvidiaStats(_, _, _, _)) => Some(Quotient(p, 100))
    case (XeStats(_, _, a, at, _), XeStats(_, _, b, bt, _)) => Some(CycleFraction(a, b, at, bt))
    case _ => None
  }

  /** NVIDIA samples already carry percentages: the fractions do not depend on the prev sample
      or the interval. */
  lemma NvidiaIgnoresOldSample(s: GpuUsageStats, prev1: GpuUsageStats, prev2: GpuUsageStats, t1: nat, t2: nat)
    requires s.NvidiaStats? && prev1.NvidiaStats? && prev2.NvidiaStats?
    ensures GfxFraction(s, prev1, t1) == GfxFraction(s, prev2, t2)
    ensures EncFraction(s, prev1, t1) == EncFraction(s, prev2, t2)
    ensures DecFraction(s, prev1, t1) == DecFraction(s, prev2, t2)
  {
  }

  /** Xe has one media engine: its decoder share is its encoder share. */
  lemma XeDecodeIsEncode(s: GpuUsageStats, prev: GpuUsageStats, timeDelta: nat)
    requires s.XeStats? && prev.XeStats?
    ensures DecFraction(s, prev, timeDelta) == EncFraction(s, prev, timeDelta)
  {
  }

  /** A counter that did not advance gives a zero share, never a negative one. */
  lemma StalledCounterGivesZero(s: GpuUsageStats, prev: GpuUsageStats, timeDelta: nat)
    requires s.AmdgpuStats? && prev.AmdgpuStats? && s.gfxNs <= prev.gfxNs
    ensures GfxFraction(s, prev, timeDelta).value.numerator == 0
  {
  }
}

/** GPU and NPU usage read from a process's DRM `fdinfo` files (lib/process_data/src/lib.rs):
    the numbers in the `drm-*` fields, the per-driver field tables, the extraction of one
    sample per file, and the merge of a process's samples per device. */
module DrmUsage {
  import opened Wrappers
  import opened Text
  import opened Counters
  import PciSlot
  import opened GpuUsage
  import opened NpuUsage

  /** One parsed `fdinfo` file of a process. */
  datatype Fdinfo = Fdinfo(pid: int, fdinfoNum: nat, content: map<string, string>)

  // ---------------------------------------------------------------- field values

  /** The longest prefix of ASCII decimal digits. */
  function DigitRun(s: string): (d: string)
    ensures |d| <= |s| && d == s[..|d|]
    ensures forall i :: 0 <= i < |d| ==> IsDecDigit(d[i])
    ensures |d| < |s| ==> !IsDecDigit(s[|d|])
  {
    if |s| > 0 && IsDecDigit(s[0]) then [s[0]] + DigitRun(s[1..]) else ""
  }

  /** The capture group of the leftmost match of `(\d+)\s*unit`: the first run of digits
      followed, after optional whitespace, by `unit`. A match cannot start inside a run that
      failed, since a shorter run is followed by a digit, so failed runs are skipped whole. */
  function FirstCapture(v: string, unit: string): (r: Option<string>)
    ensures r.Some? ==> |r.value| > 0 && forall i :: 0 <= i < |r.value| ==> IsDecDigit(r.value[i])
    decreases |v|
  {
    if |v| == 0 then None
    else if IsDecDigit(v[0]) then
      var d := DigitRun(v);
      if StartsWith(TrimStart(v[|d|..]), unit) then Some(d) else FirstCapture(v[|d|..], unit)
    else FirstCapture(v[1..], unit)
  }

  /** A digit run ends at the first non-digit. */
  lemma {:induction false} DigitRunOf(d: string, rest: string)
    requires forall i :: 0 <= i < |d| ==> IsDecDigit(d[i])
    requires |rest| > 0 && !IsDecDigit(rest[0])
    ensures DigitRun(d + rest) == d
    decreases |d|
  {
    if |d| > 0 {
      assert (d + rest)[1..] == d[1..] + rest;
      DigitRunOf(d[1..], rest);
      assert [d[0]] + d[1..] == d;
    } else {
      assert d + rest == rest;
    }
  }

  /** How the kernel writes a field: the number, a space and the unit. */
  function KernelField(n: nat, unit: string): string
  {
    ToDigits(n, 10) + " " + unit
  }

  /** The capture of a field written by the kernel is the number's digits. */
  lemma KernelFieldCapture(n: nat, unit: string)
    requires |unit| > 0 && !IsSpace(unit[0]) && !IsDecDigit(unit[0])
    ensures FirstCapture(KernelField(n, unit), unit) == Some(ToDigits(n, 10))
  {
    var d := ToDigits(n, 10);
    var v := d + " " + unit;
    assert forall i :: 0 <= i < |d| ==> IsDecDigit(d[i]) by {
      forall i | 0 <= i < |d| ensures IsDecDigit(d[i]) {
        assert DigitValue(d[i], 10).Some?;
      }
    }
    assert v == d + (" " + unit);
    DigitRunOf(d, " " + unit);
    assert v[|d|..] == " " + unit;
    TrimStartPrefix(" ", unit);
    assert " " + unit == " " + unit;
  }

  /** One field's value: its capture parsed as a `u64`, if the field is there and matches. */
  function DrmValue(content: map<string, string>, name: string, unit: string): (r: Option<nat>)
    ensures r.Some? ==> name in content && r.value < U64Bound
  {
    if name !in content then None
    else match FirstCapture(content[name], unit)
      case Some(d) => ParseUnsigned(d, 10, U64Bound)
      case None => None
  }

  /** `parse_drm_fields`: the sum of the values of the listed fields that are present and
      parse; the others are skipped. */
  function ParseDrmFields(content: map<string, string>, names: seq<string>, unit: string): (r: nat)
    ensures (forall i :: 0 <= i < |names| ==> DrmValue(content, names[i], unit).None?) ==> r == 0
  {
    if |names| == 0 then 0
    else DrmValue(content, names[0], unit).UnwrapOr(0) + ParseDrmFields(content, names[1..], unit)
  }

  function Sum(xs: seq<nat>): nat
  {
    if |xs| == 0 then 0 else xs[0] + Sum(xs[1..])
  }

  /** Fields written by the kernel as "<n> <unit>" add up to the sum of their numbers. */
  lemma {:induction false} DrmFieldsSum(content: map<string, string>, names: seq<string>, values: seq<nat>, unit: string)
    requires |unit| > 0 && !IsSpace(unit[0]) && !IsDecDigit(unit[0])
    requires |names| == |values|
    requires forall i :: 0 <= i < |names| ==>
      names[i] in content && content[names[i]] == KernelField(values[i], unit) && values[i] < U64Bound
    ensures ParseDrmFields(content, names, unit) == Sum(values)
  {
    if |names| > 0 {
      KernelFieldCapture(values[0], unit);
      ParseDecimal(values[0], U64Bound);
      DrmFieldsSum(content, names[1..], values[1..], unit);
    }
  }

  // ---------------------------------------------------------------- driver tables

  const DrmDriver := "drm-driver"
  const DrmPdev := "drm-pdev"

  const GfxNsDrmFields: map<string, seq<string>> :=
    map["amdgpu" := ["drm-engine-compute", "drm-engine-gfx"], "i915" := ["drm-engine-render"],
        "v3d" := ["drm-engine-render"]]
  const GfxCyclesDrmFields: map<string, seq<string>> := map["xe" := ["drm-cycles-rcs"]]
  const GfxTotalCyclesDrmFields: map<string, seq<string>> := map["xe" := ["drm-total-cycles-rcs"]]
  const EncNsDrmFields: map<string, seq<string>> :=
    map["amdgpu" := ["drm-engine-enc"], "i915" := ["drm-engine-video"]]
  const EncCyclesDrmFields: map<string, seq<string>> := map["xe" := ["drm-cycles-vcs"]]
  const EncTotalCyclesDrmFields: map<string, seq<string>> := map["xe" := ["drm-total-cycles-vcs"]]
  const DecNsDrmFields: map<string, seq<string>> := map["amdgpu" := ["drm-engine-dec"]]
  const NpuNsFields: map<string, seq<string>> := map["amdxdna_accel_driver" := ["drm-engine-npu-amdxdna"]]
  const MemDrmFields: map<string, seq<string>> :=
    map["amdgpu" := ["drm-memory-gtt", "drm-memory-vram"], "amdxdna_accel_driver" := ["drm-total-memory"],
        "i915" := ["drm-total-local0", "drm-total-system0"], "v3d" := ["drm-total-memory"],
        "xe" := ["drm-total-gtt", "drm-total-vram0"]]

  /** `TABLE.get(driver).map(|names| parse_drm_fields(..)).unwrap_or_default()`. */
  function TableValue(table: map<string, seq<string>>, driver: string, content: map<string, string>, unit: string): nat
  {
    if driver in table then ParseDrmFields(content, table[driver], unit) else 0
  }

  /** The memory fields are in KiB: the sum times 1024, saturating. */
  function MemBytes(driver: string, content: map<string, string>): (r: nat)
    ensures r < U64Bound
  {
    SaturatingMul(TableValue(MemDrmFields, driver, content, "KiB"), 1024)
  }

  // ---------------------------------------------------------------- extraction

  /** The slot named by `drm-pdev`, if it parses. */
  function PdevSlot(content: map<string, string>): Option<PciSlot.Slot>
  {
    if DrmPdev in content && PciSlot.FromStr(content[DrmPdev]).Ok? then Some(PciSlot.FromStr(content[DrmPdev]).value)
    else None
  }

  /** `extract_gpu_usage_from_fdinfo`: one sample for the drivers amdgpu, i915, v3d and xe. */
  function ExtractGpuUsage(fd: Fdinfo): (r: Result<(GpuIdentifier, GpuUsageStats), string>)
    ensures DrmDriver !in fd.content ==> r == Err("unable to find gpu information in this fdinfo")
    ensures r.Ok? <==> DrmDriver in fd.content && fd.content[DrmDriver] in {"amdgpu", "i915", "v3d", "xe"}
    ensures r.Ok? ==> ((fd.content[DrmDriver] == "amdgpu" <==> r.value.1.AmdgpuStats?)
      && (fd.content[DrmDriver] == "i915" <==> r.value.1.I915Stats?)
      && (fd.content[DrmDriver] == "v3d" <==> r.value.1.V3dStats?)
      && (fd.content[DrmDriver] == "xe" <==> r.value.1.XeStats?))
    ensures r.Ok? ==> r.value.0 == (if PdevSlot(fd.content).Some? then PciSlotId(PdevSlot(fd.content).value)
                                    else DefaultGpuIdentifier)
  {
    var c := fd.content;
    if DrmDriver !in c then Err("unable to find gpu information in this fdinfo")
    else
      var driver := c[DrmDriver];
      var id := if PdevSlot(c).Some? then PciSlotId(PdevSlot(c).value) else DefaultGpuIdentifier;
      if driver == "amdgpu" then
        Ok((id, AmdgpuStats(TableValue(GfxNsDrmFields, driver, c, "ns"), TableValue(EncNsDrmFields, driver, c, "ns"),
                            TableValue(DecNsDrmFields, driver, c, "ns"), MemBytes(driver, c))))
      else if driver == "i915" then
        Ok((id, I915Stats(TableValue(GfxNsDrmFields, driver, c, "ns"), TableValue(EncNsDrmFields, driver, c, "ns"))))
      else if driver == "v3d" then
        Ok((id, V3dStats(TableValue(GfxNsDrmFields, driver, c, "ns"), MemBytes(driver, c))))
      else if driver == "xe" then
        Ok((id, XeStats(TableValue(GfxCyclesDrmFields, driver, c, ""), TableValue(GfxTotalCyclesDrmFields, driver, c, ""),
                        TableValue(EncCyclesDrmFields, driver, c, ""), TableValue(EncTotalCyclesDrmFields, driver, c, ""),
                        MemBytes(driver, c))))
      else Err("unable to read stats from driver")
  }

  /** `extract_npu_usage_from_fdinfo`: one sample for the amdxdna driver; the slot defaults
      to 0000:00:00.0. */
  function ExtractNpuUsage(fd: Fdinfo): (r: Result<(PciSlot.Slot, NpuUsageStats), string>)
    ensures DrmDriver !in fd.content ==> r == Err("unable to find gpu information in this fdinfo")
    ensures r.Ok? <==> DrmDriver in fd.content && fd.content[DrmDriver] == "amdxdna_accel_driver"
    ensures r.Ok? ==> r.value.0 == PdevSlot(fd.content).UnwrapOr(PciSlot.Slot(0))
  {
    var c := fd.content;
    if DrmDriver !in c then Err("unable to find gpu information in this fdinfo")
    else
      var driver := c[DrmDriver];
      if driver == "amdxdna_accel_driver" then
        Ok((PdevSlot(c).UnwrapOr(PciSlot.Slot(0)),
            AmdxdnaStats(TableValue(NpuNsFields, driver, c, "ns"), MemBytes(driver, c))))
      else Err("unable to read stats from driver")
  }

  /** An amdgpu file's graphics time is the sum of its compute and gfx engine times. */
  lemma AmdgpuGraphicsTime(fd: Fdinfo, compute: nat, gfx: nat)
    requires DrmDriver in fd.content && fd.content[DrmDriver] == "amdgpu"
    requires compute < U64Bound && gfx < U64Bound
    requires "drm-engine-compute" in fd.content && fd.content["drm-engine-compute"] == KernelField(compute, "ns")
    requires "drm-engine-gfx" in fd.content && fd.content["drm-engine-gfx"] == KernelField(gfx, "ns")
    ensures ExtractGpuUsage(fd).Ok? && ExtractGpuUsage(fd).value.1.gfxNs == compute + gfx
  {
    var names := GfxNsDrmFields["amdgpu"];
    AmdgpuGfxFields(fd);
    TwoFieldSum(fd.content, names[0], names[1], compute, gfx, "ns");
  }

  lemma AmdgpuGfxFields(fd: Fdinfo)
    requires DrmDriver in fd.content && fd.content[DrmDriver] == "amdgpu"
    ensures GfxNsDrmFields["amdgpu"] == ["drm-engine-compute", "drm-engine-gfx"]
    ensures ExtractGpuUsage(fd).Ok?
      && ExtractGpuUsage(fd).value.1.gfxNs == ParseDrmFields(fd.content, GfxNsDrmFields["amdgpu"], "ns")
  {
  }

  lemma TwoFieldSum(content: map<string, string>, a: string, b: string, va: nat, vb: nat, unit: string)
    requires |unit| > 0 && !IsSpace(unit[0]) && !IsDecDigit(unit[0])
    requires va < U64Bound && vb < U64Bound
    requires a in content && content[a] == KernelField(va, unit)
    requires b in content && content[b] == KernelField(vb, unit)
    ensures ParseDrmFields(content, [a, b], unit) == va + vb
  {
    var values := [va, vb];
    DrmFieldsSum(content, [a, b], values, unit);
    calc {
      Sum(values);
      va + Sum(values[1..]);
      { assert values[1..] == [vb]; }
      va + Sum([vb]);
      { assert [vb][1..] == []; }
      va + vb;
    }
  }

  // ---------------------------------------------------------------- merging per device

  type GpuSample = Result<(GpuIdentifier, GpuUsageStats), string>
  type NpuSample = Result<(PciSlot.Slot, NpuUsageStats), string>

  /** The extraction result of every file. */
  function GpuSamples(fds: seq<Fdinfo>): (xs: seq<GpuSample>)
    ensures |xs| == |fds| && forall i :: 0 <= i < |fds| ==> xs[i] == ExtractGpuUsage(fds[i])
  {
    seq(|fds|, i requires 0 <= i < |fds| => ExtractGpuUsage(fds[i]))
  }

  function NpuSamples(fds: seq<Fdinfo>): (xs: seq<NpuSample>)
    ensures |xs| == |fds| && forall i :: 0 <= i < |fds| ==> xs[i] == ExtractNpuUsage(fds[i])
  {
    seq(|fds|, i requires 0 <= i < |fds| => ExtractNpuUsage(fds[i]))
  }

  /** The (pid, fd) keys of the files whose extraction failed. */
  function FailedKeys<T>(fds: seq<Fdinfo>, xs: seq<Result<T, string>>): set<(int, nat)>
    requires |xs| == |fds|
  {
    set i | 0 <= i < |fds| && xs[i].Err? :: (fds[i].pid, fds[i].fdinfoNum)
  }

  /** The GPU map `other_gpu_usage_stats` builds: each sample is merged with `greater` into
      the entry of its identifier. */
  function MergeGpu(xs: seq<GpuSample>): map<GpuIdentifier, GpuUsageStats>
  {
    if |xs| == 0 then map[]
    else
      var m := MergeGpu(xs[..|xs| - 1]);
      match xs[|xs| - 1]
      case Ok(x) => m[x.0 := if x.0 in m then GpuUsage.Greater(m[x.0], x.1) else x.1]
      case Err(_) => m
  }

  /** Merging one more sample. */
  lemma MergeGpuStep(xs: seq<GpuSample>, i: nat)
    requires i < |xs|
    ensures MergeGpu(xs[..i + 1]) == (var m := MergeGpu(xs[..i]);
      match xs[i]
      case Ok(x) => m[x.0 := if x.0 in m then GpuUsage.Greater(m[x.0], x.1) else x.1]
      case Err(_) => m)
  {
    assert xs[..i + 1][..i] == xs[..i];
  }

  /** `other_gpu_usage_stats`: the merged map, and the cache of non-GPU files grown by every
      file that gave no sample. */
  method OtherGpuUsageStats(fds: seq<Fdinfo>, nonGpu: set<(int, nat)>)
    returns (stats: map<GpuIdentifier, GpuUsageStats>, nonGpu': set<(int, nat)>)
    ensures stats == MergeGpu(GpuSamples(fds))
    ensures nonGpu' == nonGpu + FailedKeys(fds, GpuSamples(fds))
  {
    var xs := GpuSamples(fds);
    stats := map[];
    nonGpu' := nonGpu;
    for i := 0 to |fds|
      invariant stats == MergeGpu(xs[..i])
      invariant nonGpu' == nonGpu + FailedKeys(fds[..i], xs[..i])
    {
      MergeGpuStep(xs, i);
      FailedKeysStep(fds, xs, i);
      match xs[i]
      case Ok(x) =>
        var (id, s) := x;
        if id in stats {
          stats := stats[id := GpuUsage.Greater(stats[id], s)];
        } else {
          stats := stats[id := s];
        }
      case Err(_) =>
        nonGpu' := nonGpu' + {(fds[i].pid, fds[i].fdinfoNum)};
    }
    assert xs[..|fds|] == xs && fds[..|fds|] == fds;
  }

  /** One more file adds its key exactly when it failed. */
  lemma FailedKeysStep<T>(fds: seq<Fdinfo>, xs: seq<Result<T, string>>, i: nat)
    requires |xs| == |fds| && i < |fds|
    ensures FailedKeys(fds[..i + 1], xs[..i + 1])
      == FailedKeys(fds[..i], xs[..i]) + if xs[i].Err? then {(fds[i].pid, fds[i].fdinfoNum)} else {}
  {
    var a := FailedKeys(fds[..i + 1], xs[..i + 1]);
    var b := FailedKeys(fds[..i], xs[..i]) + if xs[i].Err? then {(fds[i].pid, fds[i].fdinfoNum)} else {};
    forall k | k in a ensures k in b {
      var j :| 0 <= j < i + 1 && xs[..i + 1][j].Err? && k == (fds[..i + 1][j].pid, fds[..i + 1][j].fdinfoNum);
      if j < i {
        assert xs[..i][j] == xs[j] && fds[..i][j] == fds[j];
      }
    }
    forall k | k in b ensures k in a {
      if k in FailedKeys(fds[..i], xs[..i]) {
        var j :| 0 <= j < i && xs[..i][j].Err? && k == (fds[..i][j].pid, fds[..i][j].fdinfoNum);
        assert xs[..i + 1][j] == xs[j] && fds[..i + 1][j] == fds[j];
      } else {
        assert xs[..i + 1][i] == xs[i] && fds[..i + 1][i] == fds[i];
      }
    }
  }

  /** Sample `x` is a success for `id`. */
  predicate SampleFor<K(==), S>(x: Result<(K, S), string>, id: K)
  {
    x.Ok? && x.value.0 == id
  }

  /** A device is in the map exactly when some file gave a sample for it. */
  lemma {:induction false} MergeGpuKeys(xs: seq<GpuSample>, id: GpuIdentifier)
    ensures id in MergeGpu(xs) <==> exists i :: 0 <= i < |xs| && SampleFor(xs[i], id)
  {
    if |xs| > 0 {
      var init := xs[..|xs| - 1];
      MergeGpuKeys(init, id);
      assert forall i :: 0 <= i < |init| ==> init[i] == xs[i];
    }
  }

  /** A device's merged sample has the driver its samples share. */
  lemma {:induction false} MergedDriver(xs: seq<GpuSample>, id: GpuIdentifier, s: GpuUsageStats)
    requires forall j :: 0 <= j < |xs| && SampleFor(xs[j], id) ==> SameDriver(xs[j].value.1, s)
    ensures id in MergeGpu(xs) ==> SameDriver(MergeGpu(xs)[id], s)
  {
    if |xs| > 0 {
      var init := xs[..|xs| - 1];
      assert forall j :: 0 <= j < |init| ==> init[j] == xs[j];
      MergedDriver(init, id, s);
    }
  }

  /** When all of a device's samples come from one driver, its merged sample dominates each
      of them: no counter goes below what any file reported. */
  lemma {:induction false} MergeGpuDominates(xs: seq<GpuSample>, i: nat)
    requires i < |xs| && xs[i].Ok?
    requires forall j :: 0 <= j < |xs| && SampleFor(xs[j], xs[i].value.0) ==> SameDriver(xs[j].value.1, xs[i].value.1)
    ensures xs[i].value.0 in MergeGpu(xs) && Dominates(MergeGpu(xs)[xs[i].value.0], xs[i].value.1)
  {
    var x := xs[i].value;
    var n := |xs| - 1;
    var init := xs[..n];
    assert forall j :: 0 <= j < n ==> init[j] == xs[j];
    var m := MergeGpu(init);
    MergedDriver(init, x.0, x.1);
    if i < n {
      MergeGpuDominates(init, i);
      if SampleFor(xs[n], x.0) {
        DominatesTransitive(GpuUsage.Greater(m[x.0], xs[n].value.1), m[x.0], x.1);
      }
    } else if x.0 !in m {
      DominatesReflexive(x.1);
    }
  }

  /** The NPU map `npu_usage_stats` builds. */
  function MergeNpu(xs: seq<NpuSample>): map<PciSlot.Slot, NpuUsageStats>
  {
    if |xs| == 0 then map[]
    else
      var m := MergeNpu(xs[..|xs| - 1]);
      match xs[|xs| - 1]
      case Ok(x) => m[x.0 := if x.0 in m then NpuUsage.Greater(m[x.0], x.1) else x.1]
      case Err(_) => m
  }

  /** Merging one more sample. */
  lemma MergeNpuStep(xs: seq<NpuSample>, i: nat)
    requires i < |xs|
    ensures MergeNpu(xs[..i + 1]) == (var m := MergeNpu(xs[..i]);
      match xs[i]
      case Ok(x) => m[x.0 := if x.0 in m then NpuUsage.Greater(m[x.0], x.1) else x.1]
      case Err(_) => m)
  {
    assert xs[..i + 1][..i] == xs[..i];
  }

  /** `npu_usage_stats`. */
  method NpuUsageStatsOf(fds: seq<Fdinfo>, nonNpu: set<(int, nat)>)
    returns (stats: map<PciSlot.Slot, NpuUsageStats>, nonNpu': set<(int, nat)>)
    ensures stats == MergeNpu(NpuSamples(fds))
    ensures nonNpu' == nonNpu + FailedKeys(fds, NpuSamples(fds))
  {
    var xs := NpuSamples(fds);
    stats := map[];
    nonNpu' := nonNpu;
    for i := 0 to |fds|
      invariant stats == MergeNpu(xs[..i])
      invariant nonNpu' == nonNpu + FailedKeys(fds[..i], xs[..i])
    {
      MergeNpuStep(xs, i);
      FailedKeysStep(fds, xs, i);
      match xs[i]
      case Ok(x) =>
        var (slot, s) := x;
        if slot in stats {
          stats := stats[slot := NpuUsage.Greater(stats[slot], s)];
        } else {
          stats := stats[slot := s];
        }
      case Err(_) =>
        nonNpu' := nonNpu' + {(fds[i].pid, fds[i].fdinfoNum)};
    }
    assert xs[..|fds|] == xs && fds[..|fds|] == fds;
  }

  /** Every NPU sample is bounded by the merged sample of its slot. */
  lemma {:induction false} MergeNpuDominates(xs: seq<NpuSample>, i: nat)
    requires i < |xs| && xs[i].Ok?
    ensures var x := xs[i].value;
      x.0 in MergeNpu(xs) && MergeNpu(xs)[x.0].usageNs >= x.1.usageNs
      && MergeNpu(xs)[x.0].memBytes >= x.1.memBytes
  {
    var n := |xs| - 1;
    var init := xs[..n];
    if i < n {
      assert init[i] == xs[i];
      MergeNpuDominates(init, i);
    }
  }
}

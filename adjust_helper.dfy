/** The helper `resources-adjust` (src/bin/resources-adjust.rs): it takes a pid, a niceness
    and an affinity mask as arguments, applies them to the process and exits with the last
    OS error code. */
module AdjustHelper {
  import opened Wrappers
  import opened Text
  import Process

  /** The number of CPUs a `CpuSet` can hold (glibc's `CPU_SETSIZE`). */
  const CpuSetSize: nat := 1024

  const ExitBadArguments: int := 255

  /** What the helper applies: the pid, the niceness and the affinity mask as text. */
  datatype Adjustment = Adjustment(pid: int, nice: int, mask: string)

  /** What the arguments ask for (`args[0]` is the helper's own name): pid and niceness are
      trimmed and parsed as `i32`, and the mask must be present. */
  function Request(args: seq<string>): (r: Option<Adjustment>)
    ensures r.Some? <==> |args| >= 4 && ParseI32(Trim(args[1])).Some? && ParseI32(Trim(args[2])).Some?
    ensures r.Some? ==> r.value.mask == args[3]
    ensures r.Some? ==> Some(r.value.pid) == ParseI32(Trim(args[1])) && I32Min <= r.value.pid <= I32Max
    ensures r.Some? ==> Some(r.value.nice) == ParseI32(Trim(args[2])) && I32Min <= r.value.nice <= I32Max
  {
    if |args| < 2 then None
    else match ParseI32(Trim(args[1]))
      case None => None
      case Some(pid) =>
        if |args| < 3 then None
        else match ParseI32(Trim(args[2]))
          case None => None
          case Some(nice) =>
            if |args| < 4 then None
            else Some(Adjustment(pid, nice, args[3]))
  }

  /** CPU `i` is in the set the mask describes. */
  predicate MaskSelects(mask: string, i: nat)
  {
    i < |mask| && mask[i] == '1'
  }

  /** The CPU set built from the mask: every '1' at a position the set can hold adds that
      CPU; positions past `CpuSetSize` are dropped, as `CpuSet::set` fails there. */
  method BuildCpuSet(mask: string) returns (cpuSet: array<bool>)
    ensures fresh(cpuSet) && cpuSet.Length == CpuSetSize
    ensures forall i :: 0 <= i < CpuSetSize ==> (cpuSet[i] <==> MaskSelects(mask, i))
  {
    cpuSet := new bool[CpuSetSize](_ => false);
    for i := 0 to |mask|
      invariant forall j :: 0 <= j < CpuSetSize ==> (cpuSet[j] <==> j < i && MaskSelects(mask, j))
    {
      if mask[i] == '1' {
        if i < cpuSet.Length {
          cpuSet[i] := true;
        }
      }
    }
  }

  /** What the helper does to the process: the pid it adjusts, the niceness it sets and the
      CPUs it allows. */
  datatype Applied = Applied(pid: int, nice: int, cpus: seq<bool>)

  /** The helper's `main`: with good arguments it sets the affinity and the priority and
      exits with the OS error left by those calls (`errno`, a parameter here); otherwise it
      does nothing and exits with 255. */
  method Run(args: seq<string>, errno: int) returns (code: int, applied: Option<Applied>)
    ensures Request(args).None? ==> code == ExitBadArguments && applied.None?
    ensures Request(args).Some? ==> code == errno && applied.Some?
    ensures applied.Some? ==>
      (applied.value.pid == Request(args).value.pid && applied.value.nice == Request(args).value.nice
       && |applied.value.cpus| == CpuSetSize
       && forall i :: 0 <= i < CpuSetSize ==> (applied.value.cpus[i] <==> MaskSelects(Request(args).value.mask, i)))
  {
    var request := Request(args);
    if request.None? {
      return ExitBadArguments, None;
    }
    var cpuSet := BuildCpuSet(request.value.mask);
    applied := Some(Applied(request.value.pid, request.value.nice, cpuSet[..]));
    code := errno;
  }

  /** The arguments the application passes (src/utils/process.rs) reach the helper intact:
      it adjusts the process's pid, with the niceness asked for, on exactly the CPUs whose
      affinity entry is set, up to the size of a CPU set. */
  lemma AdjustArgumentsDecode(program: string, p: Process.Process, niceness: int, affinity: seq<bool>)
    requires I32Min <= p.data.pid <= I32Max && I32Min <= niceness <= I32Max
    ensures Request([program] + Process.AdjustArguments(p, niceness, affinity))
      == Some(Adjustment(p.data.pid, niceness, Process.AffinityString(affinity)))
    ensures forall i :: 0 <= i < CpuSetSize ==>
      (MaskSelects(Process.AffinityString(affinity), i) <==> i < |affinity| && affinity[i])
  {
    var args := [program] + Process.AdjustArguments(p, niceness, affinity);
    ParseI32IntToString(p.data.pid);
    ParseI32IntToString(niceness);
    assert args[1] == IntToString(p.data.pid) && args[2] == IntToString(niceness);
  }
}

/** A process as the application sees it (src/utils/process.rs): the names derived from its
    command line, the zero baselines of a fresh process, the guards on its rates, the usage
    sums over its GPUs, the exit-code rules of the helper programs, and the frame reader
    that takes the companion's answer off its pipe. */
module Process {
  import opened Wrappers
  import opened Text
  import opened Counters
  import opened GpuUsage
  import Lib = ProcessData

  type Byte = Lib.Byte

  /** The fields of `ProcessData` this file reads. */
  datatype ProcessData = ProcessData(
    pid: int, comm: string, commandline: string, userCpuTime: nat, systemCpuTime: nat,
    niceness: int, affinity: seq<bool>, timestamp: nat,
    readBytes: Option<nat>, writeBytes: Option<nat>,
    gpuUsageStats: map<GpuIdentifier, GpuUsageStats>)

  datatype Process = Process(
    data: ProcessData, executablePath: string, executableName: string, icon: string,
    cpuTimeLast: nat, timestampLast: nat, readBytesLast: Option<nat>, writeBytesLast: Option<nat>,
    gpuUsageStatsLast: map<GpuIdentifier, GpuUsageStats>, displayName: string)

  datatype ProcessAction = Term | Stop | Kill | Cont

  // ---------------------------------------------------------------- names

  /** The executable path: the command line up to the first NUL, then up to the first " --"
      (Chromium-based programs separate their arguments with spaces). */
  function ExecutablePath(commandline: string): (path: string)
    ensures StartsWith(commandline, path) && '\0' !in path
  {
    var beforeNul := Split(commandline, {'\0'})[0];
    var path := SplitStr(beforeNul, " --")[0];
    SplitFirstPiece(commandline, {'\0'});
    SplitStrFirstPiece(beforeNul, " --");
    assert commandline[..|path|] == beforeNul[..|path|];
    path
  }

  /** The first piece of `SplitStr` is a prefix. */
  lemma {:induction false} SplitStrFirstPiece(s: string, pat: string)
    requires |pat| > 0
    ensures StartsWith(s, SplitStr(s, pat)[0])
    decreases |s|
  {
    if |s| >= |pat| && s[..|pat|] != pat {
      SplitStrFirstPiece(s[1..], pat);
      var p := SplitStr(s[1..], pat)[0];
      assert s[..1 + |p|] == [s[0]] + s[1..][..|p|];
    }
  }

  /** A NUL-separated command line yields its first argument. */
  lemma ExecutablePathOfArguments(exe: string, args: string)
    requires '\0' !in exe && !Contains(exe, " --")
    ensures ExecutablePath(exe + "\0" + args) == exe
  {
    assert NoneOf(exe, {'\0'});
    SplitAfterPiece(exe, '\0', args, {'\0'});
    SplitStrNoMatch(exe, " --");
  }

  /** A space-separated command line is cut before its first " --" option. */
  lemma ExecutablePathOfChromiumStyle(exe: string, options: string)
    requires ' ' !in exe && '\0' !in exe && '\0' !in options
    ensures ExecutablePath(exe + " --" + options) == exe
  {
    var s := exe + " --" + options;
    assert NoneOf(s, {'\0'}) by {
      forall i | 0 <= i < |s| ensures s[i] != '\0' {
        if i < |exe| { assert s[i] == exe[i]; }
        else if i >= |exe| + 3 { assert s[i] == options[i - |exe| - 3]; }
      }
    }
    SplitPlain(s, {'\0'});
    SplitStrAfterPiece(exe, " --", options);
  }

  /** The executable name: the last '/'-separated piece of the path. */
  function ExecutableName(path: string): (name: string)
    ensures EndsWith(path, name) && '/' !in name
    ensures |name| < |path| ==> path[|path| - |name| - 1] == '/'
  {
    var parts := Split(path, {'/'});
    SplitLastPiece(path, {'/'});
    var name := parts[|parts| - 1];
    assert NoneOf(name, {'/'});
    name
  }

  /** The name shown for a process: the executable name when it starts with `comm` (which
      the kernel truncates), `comm` otherwise. */
  function DisplayName(executableName: string, comm: string): (name: string)
    ensures StartsWith(name, comm)
    ensures name == executableName <==> StartsWith(executableName, comm)
  {
    if StartsWith(executableName, comm) then executableName else comm
  }

  /** `Process::from_process_data`. */
  function FromProcessData(d: ProcessData): (p: Process)
    ensures p.data == d && p.icon == "generic-process"
    ensures p.cpuTimeLast == 0 && p.timestampLast == 0 && p.gpuUsageStatsLast == map[]
    ensures p.readBytesLast.Some? <==> d.readBytes.Some?
    ensures p.writeBytesLast.Some? <==> d.writeBytes.Some?
    ensures p.readBytesLast.Some? ==> p.readBytesLast.value == 0
    ensures p.writeBytesLast.Some? ==> p.writeBytesLast.value == 0
  {
    var path := ExecutablePath(d.commandline);
    var name := ExecutableName(path);
    Process(d, path, name, "generic-process", 0, 0,
            if d.readBytes.Some? then Some(0) else None,
            if d.writeBytes.Some? then Some(0) else None,
            map[], DisplayName(name, d.comm))
  }

  /** A fresh process's names come from its own command line, and its display name still
      starts with `comm`. */
  lemma FreshProcessNames(d: ProcessData)
    ensures var p := FromProcessData(d);
      StartsWith(d.commandline, p.executablePath) && EndsWith(p.executablePath, p.executableName)
      && '/' !in p.executableName && StartsWith(p.displayName, d.comm)
  {
  }

  // ---------------------------------------------------------------- rates

  const Zero: Quotient := Quotient(0, 1)

  /** `finite_or_default`: a division by zero (infinite or NaN) becomes 0. */
  function FiniteOrZero(q: Quotient): (r: Quotient)
    ensures r.denominator != 0
    ensures q.denominator != 0 ==> r == q
  {
    if q.denominator == 0 then Zero else q
  }

  /** `cpu_time_ratio`: CPU time used since the last sample over the wall time times the
      clock-tick rate and the number of CPUs, times 1000 (timestamps are milliseconds). */
  function CpuTimeRatio(p: Process, tickRate: nat, numCpus: nat): (r: Quotient)
    ensures r.denominator != 0
    ensures p.cpuTimeLast == 0 ==> r == Zero
    ensures SaturatingAdd(p.data.userCpuTime, p.data.systemCpuTime) <= p.cpuTimeLast ==> r.numerator == 0
  {
    if p.cpuTimeLast == 0 then Zero
    else
      var cpuDelta := SaturatingSub(SaturatingAdd(p.data.userCpuTime, p.data.systemCpuTime), p.cpuTimeLast) * 1000;
      var timeDelta := SaturatingSub(p.data.timestamp, p.timestampLast);
      FiniteOrZero(Quotient(cpuDelta, SaturatingMul(SaturatingMul(timeDelta, tickRate), numCpus)))
  }

  /** Bytes per second between two counter readings `timeDelta` milliseconds apart. */
  function Speed(bytes: Option<nat>, bytesLast: Option<nat>, timestamp: nat, timestampLast: nat): (r: Option<Quotient>)
    ensures r.Some? <==> bytes.Some? && bytesLast.Some?
    ensures r.Some? && timestampLast == 0 ==> r.value == Zero
    ensures r.Some? && bytes.value <= bytesLast.value ==> r.value.numerator == 0
  {
    if bytes.Some? && bytesLast.Some? then
      if timestampLast == 0 then Some(Zero)
      else Some(Quotient(SaturatingSub(bytes.value, bytesLast.value) * 1000, SaturatingSub(timestamp, timestampLast)))
    else None
  }

  /** `read_speed`. */
  function ReadSpeed(p: Process): (r: Option<Quotient>)
    ensures r.Some? <==> p.data.readBytes.Some? && p.readBytesLast.Some?
    ensures r.Some? && p.timestampLast == 0 ==> r.value == Zero
  {
    Speed(p.data.readBytes, p.readBytesLast, p.data.timestamp, p.timestampLast)
  }

  /** `write_speed`. */
  function WriteSpeed(p: Process): (r: Option<Quotient>)
    ensures r.Some? <==> p.data.writeBytes.Some? && p.writeBytesLast.Some?
    ensures r.Some? && p.timestampLast == 0 ==> r.value == Zero
  {
    Speed(p.data.writeBytes, p.writeBytesLast, p.data.timestamp, p.timestampLast)
  }

  /** A fresh process reports no CPU use, and a speed of 0 for exactly the counters it has. */
  lemma FreshProcessRates(d: ProcessData, tickRate: nat, numCpus: nat)
    ensures var p := FromProcessData(d);
      CpuTimeRatio(p, tickRate, numCpus) == Zero
      && ReadSpeed(p) == (if d.readBytes.Some? then Some(Zero) else None)
      && WriteSpeed(p) == (if d.writeBytes.Some? then Some(Zero) else None)
  {
  }

  // ---------------------------------------------------------------- GPU usage

  datatype Engine = Graphics | Encoder | Decoder

  function EngineFraction(e: Engine, s: GpuUsageStats, prev: GpuUsageStats, timeDelta: nat): Option<Quotient>
  {
    match e
    case Graphics => GfxFraction(s, prev, timeDelta)
    case Encoder => EncFraction(s, prev, timeDelta)
    case Decoder => DecFraction(s, prev, timeDelta)
  }

  /** An `f32` value: a finite real, or `None` once a division by zero made it infinite or
      NaN (and every sum with it stays so). */
  function FractionValue(q: Quotient): Option<real>
  {
    if q.denominator == 0 then None else Some(q.numerator as real / q.denominator as real)
  }

  function AddValues(a: Option<real>, b: Option<real>): Option<real>
  {
    if a.Some? && b.Some? then Some(a.value + b.value) else None
  }

  /** One device's term: its fraction against the last sample of the same device, 0 when
      there is no such sample or the drivers cannot be compared. */
  function DeviceUsage(e: Engine, id: GpuIdentifier, current: map<GpuIdentifier, GpuUsageStats>,
                       last: map<GpuIdentifier, GpuUsageStats>, timeDelta: nat): Option<real>
    requires id in current
  {
    if id in last then
      match EngineFraction(e, current[id], last[id], timeDelta)
      case Some(q) => FractionValue(q)
      case None => Some(0.0)
    else Some(0.0)
  }

  /** The sum of the device terms, in the order the devices are visited. */
  function UsageSum(e: Engine, ids: seq<GpuIdentifier>, current: map<GpuIdentifier, GpuUsageStats>,
                    last: map<GpuIdentifier, GpuUsageStats>, timeDelta: nat): Option<real>
    requires forall i :: 0 <= i < |ids| ==> ids[i] in current
  {
    if |ids| == 0 then Some(0.0)
    else AddValues(UsageSum(e, ids[..|ids| - 1], current, last, timeDelta),
                   DeviceUsage(e, ids[|ids| - 1], current, last, timeDelta))
  }

  /** The keys of a map, each exactly once. */
  predicate Enumerates<K(==), V>(ids: seq<K>, m: map<K, V>)
  {
    (forall i :: 0 <= i < |ids| ==> ids[i] in m)
    && (forall k :: k in m ==> k in ids)
    && (forall i, j :: 0 <= i < j < |ids| ==> ids[i] != ids[j])
  }

  /** `gpu_usage`, `enc_usage` and `dec_usage`: the loop over the process's GPUs adding up
      each one's fraction of `engine` since the last sample; `ids` is the map's order. */
  method EngineUsage(e: Engine, p: Process, ids: seq<GpuIdentifier>) returns (usage: Option<real>)
    requires Enumerates(ids, p.data.gpuUsageStats)
    ensures usage == UsageSum(e, ids, p.data.gpuUsageStats, p.gpuUsageStatsLast,
                              SaturatingSub(p.data.timestamp, p.timestampLast))
  {
    var current := p.data.gpuUsageStats;
    usage := Some(0.0);
    for i := 0 to |ids|
      invariant usage == UsageSum(e, ids[..i], current, p.gpuUsageStatsLast,
                                  SaturatingSub(p.data.timestamp, p.timestampLast))
    {
      assert ids[..i + 1][..i] == ids[..i];
      var gpu := ids[i];
      var term := Some(0.0);
      if gpu in p.gpuUsageStatsLast {
        var timeDelta := SaturatingSub(p.data.timestamp, p.timestampLast);
        match EngineFraction(e, current[gpu], p.gpuUsageStatsLast[gpu], timeDelta)
        case Some(q) => term := FractionValue(q);
        case None =>
      }
      usage := AddValues(usage, term);
    }
    assert ids[..|ids|] == ids;
  }

  /** Without a previous sample of any of its GPUs a process uses none of them. */
  lemma {:induction false} UsageWithoutHistory(e: Engine, ids: seq<GpuIdentifier>,
                                               current: map<GpuIdentifier, GpuUsageStats>, timeDelta: nat)
    requires forall i :: 0 <= i < |ids| ==> ids[i] in current
    ensures UsageSum(e, ids, current, map[], timeDelta) == Some(0.0)
  {
    if |ids| > 0 {
      UsageWithoutHistory(e, ids[..|ids| - 1], current, timeDelta);
    }
  }

  /** A finite usage is never negative. */
  lemma {:induction false} UsageNonNegative(e: Engine, ids: seq<GpuIdentifier>, current: map<GpuIdentifier, GpuUsageStats>,
                                            last: map<GpuIdentifier, GpuUsageStats>, timeDelta: nat)
    requires forall i :: 0 <= i < |ids| ==> ids[i] in current
    ensures var r := UsageSum(e, ids, current, last, timeDelta); r.Some? ==> r.value >= 0.0
  {
    if |ids| > 0 {
      UsageNonNegative(e, ids[..|ids| - 1], current, last, timeDelta);
    }
  }

  /** `gpu_mem_usage`: the memory of every GPU sample; i915 reports none and counts 0. */
  function GpuMemUsage(ids: seq<GpuIdentifier>, stats: map<GpuIdentifier, GpuUsageStats>): nat
    requires forall i :: 0 <= i < |ids| ==> ids[i] in stats
  {
    if |ids| == 0 then 0
    else GpuMemUsage(ids[..|ids| - 1], stats) + Mem(stats[ids[|ids| - 1]]).UnwrapOr(0)
  }

  /** Each GPU's memory is part of the total. */
  lemma {:induction false} GpuMemUsageBound(ids: seq<GpuIdentifier>, stats: map<GpuIdentifier, GpuUsageStats>, i: nat)
    requires forall j :: 0 <= j < |ids| ==> ids[j] in stats
    requires i < |ids| && !stats[ids[i]].I915Stats?
    ensures GpuMemUsage(ids, stats) >= stats[ids[i]].memBytes
  {
    if i < |ids| - 1 {
      GpuMemUsageBound(ids[..|ids| - 1], stats, i);
    }
  }

  // ---------------------------------------------------------------- helper programs

  const EPERM: int := 1
  const EACCES: int := 13

  /** `maybe_pkexec_command`: the unprivileged run's status code, or, when that run was
      refused with EPERM or EACCES, the status code of the run through pkexec. */
  function MaybePkexec(unprivileged: Result<int, string>, privileged: Result<int, string>): (r: Result<int, string>)
    ensures unprivileged.Ok? && unprivileged.value in {EPERM, EACCES} ==> r == privileged
    ensures !(unprivileged.Ok? && unprivileged.value in {EPERM, EACCES}) ==> r == unprivileged
  {
    if unprivileged.Ok? && (unprivileged.value == EPERM || unprivileged.value == EACCES) then privileged
    else unprivileged
  }

  /** The signal names the kill helper receives (`ProcessAction`'s `Display`). */
  function ActionName(a: ProcessAction): string
  {
    match a
    case Term => "TERM"
    case Stop => "STOP"
    case Kill => "KILL"
    case Cont => "CONT"
  }

  /** The kill helper's arguments as `execute_process_action` passes them: the pid first,
      then the action name. */
  function KillArguments(p: Process, a: ProcessAction): (args: seq<string>)
    ensures |args| == 2 && args[0] == IntToString(p.data.pid) && args[1] == ActionName(a)
  {
    [IntToString(p.data.pid), ActionName(a)]
  }

  /** `execute_process_action`: success when the helper exits with 0 or 3. */
  function ExecuteProcessAction(code: Result<int, string>): (r: Result<(), string>)
    ensures r.Ok? <==> code.Ok? && code.value in {0, 3}
    ensures code.Err? ==> r == Err(code.error)
  {
    match code
    case Ok(c) => if c == 0 || c == 3 then Ok(()) else Err("non-zero return code: " + IntToString(c))
    case Err(e) => Err(e)
  }

  /** `adjust`: success only when the helper exits with 0. */
  function AdjustResult(code: Result<int, string>): (r: Result<(), string>)
    ensures r.Ok? <==> code.Ok? && code.value == 0
    ensures code.Err? ==> r == Err(code.error)
  {
    match code
    case Ok(c) => if c == 0 then Ok(()) else Err("non-zero return code: " + IntToString(c))
    case Err(e) => Err(e)
  }

  /** An action refused for lack of permission succeeds exactly when the retry through
      pkexec does. */
  lemma ActionRetriedWithPkexec(refusal: int, privileged: Result<int, string>)
    requires refusal == EPERM || refusal == EACCES
    ensures ExecuteProcessAction(MaybePkexec(Ok(refusal), privileged)).Ok?
        <==> privileged.Ok? && (privileged.value == 0 || privileged.value == 3)
  {
  }

  /** The affinity argument: one '1' or '0' per CPU. */
  function AffinityString(affinity: seq<bool>): (s: string)
    ensures |s| == |affinity|
    ensures forall i :: 0 <= i < |s| ==> (s[i] == '1' <==> affinity[i]) && s[i] in "01"
  {
    seq(|affinity|, i requires 0 <= i < |affinity| => if affinity[i] then '1' else '0')
  }

  /** The adjust helper's arguments: pid, niceness, affinity mask. */
  function AdjustArguments(p: Process, niceness: int, affinity: seq<bool>): (args: seq<string>)
    ensures |args| == 3 && args[0] == IntToString(p.data.pid) && args[1] == IntToString(niceness)
    ensures args[2] == AffinityString(affinity)
  {
    [IntToString(p.data.pid), IntToString(niceness), AffinityString(affinity)]
  }

  /** `sanitize_cmdline`: no command line for an empty one, otherwise NULs become spaces. */
  function SanitizeCmdline(cmdline: string): (r: Option<string>)
    ensures r.None? <==> |cmdline| == 0
    ensures r.Some? ==> |r.value| == |cmdline| && '\0' !in r.value
    ensures r.Some? ==> forall i :: 0 <= i < |cmdline| && cmdline[i] != '\0' ==> r.value[i] == cmdline[i]
    ensures r.Some? ==> forall i :: 0 <= i < |cmdline| && cmdline[i] == '\0' ==> r.value[i] == ' '
  {
    if |cmdline| == 0 then None else Some(ReplaceChar(cmdline, '\0', ' '))
  }

  // ---------------------------------------------------------------- the companion's frames

  /** `usize::BITS / 8` on a 64-bit target. */
  const UsizeBytes: nat := 8

  /** `usize::from_le_bytes`. */
  function LeValue(b: seq<Byte>): nat
  {
    if |b| == 0 then 0 else b[0] + 256 * LeValue(b[1..])
  }

  /** `read_exact` into a buffer of `n` bytes: the next `n` bytes of the pipe, or an error
      when the pipe ends first. */
  method ReadExact(stream: seq<Byte>, n: nat) returns (r: Result<array<Byte>, string>, rest: seq<Byte>)
    ensures n <= |stream| ==> r.Ok? && fresh(r.value) && r.value[..] == stream[..n] && rest == stream[n..]
    ensures n > |stream| ==> r == Err("failed to fill whole buffer") && rest == []
  {
    if n > |stream| {
      return Err("failed to fill whole buffer"), [];
    }
    var buffer := new Byte[n](_ => 0);
    for i := 0 to n
      invariant buffer[..i] == stream[..i]
    {
      buffer[i] := stream[i];
    }
    return Ok(buffer), stream[n..];
  }

  /** The frame `all_data` takes off the pipe: a little-endian length, then that many bytes
      of payload; `rest` is what stays in the pipe. */
  function Frame(stream: seq<Byte>): (r: Result<(seq<Byte>, seq<Byte>), string>)
    ensures r.Err? <==> |stream| < UsizeBytes || LeValue(stream[..UsizeBytes]) > |stream| - UsizeBytes
    ensures r.Err? ==> r.error == "failed to fill whole buffer"
    ensures r.Ok? ==> |r.value.0| == LeValue(stream[..UsizeBytes])
                      && stream == stream[..UsizeBytes] + r.value.0 + r.value.1
  {
    if |stream| < UsizeBytes then Err("failed to fill whole buffer")
    else
      var len := LeValue(stream[..UsizeBytes]);
      var after := stream[UsizeBytes..];
      if len > |after| then Err("failed to fill whole buffer")
      else Ok((after[..len], after[len..]))
  }

  /** `all_data`'s reading: the length prefix into an 8-byte buffer, then the payload into a
      buffer of that length. */
  method AllData(stream: seq<Byte>) returns (r: Result<seq<Byte>, string>, rest: seq<Byte>)
    ensures Frame(stream).Ok? ==> r == Ok(Frame(stream).value.0) && rest == Frame(stream).value.1
    ensures Frame(stream).Err? ==> r.Err?
  {
    var lenBytes, after := ReadExact(stream, UsizeBytes);
    if lenBytes.Err? {
      return Err(lenBytes.error), after;
    }
    var len := LeValue(lenBytes.value[..]);
    var outputBytes, remaining := ReadExact(after, len);
    if outputBytes.Err? {
      return Err(outputBytes.error), remaining;
    }
    return Ok(outputBytes.value[..]), remaining;
  }
}

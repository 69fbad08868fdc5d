/** The helper `resources-kill` (src/bin/resources-kill.rs): it takes a signal name and a pid
    as arguments, sends the signal, and reports the outcome in its exit code. */
module KillHelper {
  import opened Wrappers
  import opened Text
  import Process

  datatype Signal = SigStop | SigCont | SigTerm | SigKill

  /** Exit codes of the helper. */
  const ExitDelivered: int := 0
  const ExitUnknownErrno: int := 253
  const ExitUnknownAction: int := 254
  const ExitBadArguments: int := 255

  /** The signal named by an action argument. */
  function SignalOf(action: string): (r: Option<Signal>)
    ensures r.Some? <==> action in {"STOP", "CONT", "TERM", "KILL"}
  {
    match action
    case "STOP" => Some(SigStop)
    case "CONT" => Some(SigCont)
    case "TERM" => Some(SigTerm)
    case "KILL" => Some(SigKill)
    case _ => None
  }

  /** What the helper does with its arguments (`args[0]` is its own name): the signal and
      pid to send it to, or the exit code it stops with before sending anything. */
  function Request(args: seq<string>): (r: Result<(Signal, int), int>)
    ensures r.Err? <==> |args| < 3 || ParseI32(Trim(args[2])).None? || SignalOf(args[1]).None?
    ensures r.Err? && (|args| < 3 || ParseI32(Trim(args[2])).None?) ==> r.error == ExitBadArguments
    ensures r.Err? && |args| >= 3 && ParseI32(Trim(args[2])).Some? ==> r.error == ExitUnknownAction
    ensures r.Ok? ==> r.value == (SignalOf(args[1]).value, ParseI32(Trim(args[2])).value)
  {
    if |args| < 3 then Err(ExitBadArguments)
    else match ParseI32(Trim(args[2]))
      case None => Err(ExitBadArguments)
      case Some(pid) =>
        match SignalOf(args[1])
        case None => Err(ExitUnknownAction)
        case Some(signal) => Ok((signal, pid))
  }

  /** The exit code, given the errno the `kill` call failed with (`None` when it
      succeeded); errno 0 is nix's `UnknownErrno`. */
  function ExitCode(args: seq<string>, failure: Option<nat>): (code: int)
    ensures Request(args).Err? ==> code == Request(args).error
    ensures Request(args).Ok? && failure.None? ==> code == ExitDelivered
    ensures Request(args).Ok? && failure.Some? ==>
      code == (if failure.value == 0 then ExitUnknownErrno else failure.value)
  {
    match Request(args)
    case Err(code) => code
    case Ok(_) =>
      match failure
      case None => ExitDelivered
      case Some(errno) => if errno == 0 then ExitUnknownErrno else errno
  }

  const ESRCH: nat := 3

  /** A delivered signal, and one that finds the process already gone (ESRCH), are both
      what the application counts as done. */
  lemma DoneExitCodes(args: seq<string>)
    requires Request(args).Ok?
    ensures Process.ExecuteProcessAction(Ok(ExitCode(args, Some(ESRCH)))).Ok?
    ensures Process.ExecuteProcessAction(Ok(ExitCode(args, None))).Ok?
  {
  }

  /** The helper accepts an action name followed by the text of any `i32` pid. */
  lemma RequestOfArguments(program: string, action: string, pid: int)
    requires action in {"STOP", "CONT", "TERM", "KILL"} && I32Min <= pid <= I32Max
    ensures Request([program, action, IntToString(pid)]) == Ok((SignalOf(action).value, pid))
  {
    var args := [program, action, IntToString(pid)];
    ParseI32IntToString(pid);
    assert args[2] == IntToString(pid) && args[1] == action;
  }
}

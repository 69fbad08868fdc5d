/** Grouping of running processes into installed graphical applications (src/utils/app.rs).
    The context keeps every process it has ever seen, keyed by pid; a refresh rolls the
    CPU-time baselines of known pids, assigns each new pid to at most one application and
    marks the pids missing from the new gather as dead. Nothing is ever removed. */
module AppGroups {
  import opened Wrappers
  import opened Text
  import Names = Process
  import Lib = ProcessData

  type Containerization = Lib.Containerization

  /** One process sample, as this revision of the application gathers it. */
  datatype ProcessData = ProcessData(
    pid: int, comm: string, commandline: string, cgroup: Option<string>,
    memoryUsage: nat, cpuTime: nat, cpuTimeTimestamp: nat,
    containerization: Containerization, uid: nat)

  /** A tracked process: its latest sample, the names derived from it, its icon, the CPU
      time and timestamp of the sample before, and whether the latest gather saw it. */
  datatype Process = Process(
    data: ProcessData, executablePath: string, executableName: string, icon: string,
    cpuTimeBefore: nat, cpuTimeBeforeTimestamp: nat, alive: bool)

  /** What a desktop file says about an installed application. */
  datatype AppInfo = AppInfo(
    id: string, displayName: string, description: Option<string>, icon: string,
    commandline: Option<string>)

  // ---------------------------------------------------------------- desktop files

  const DesktopEntry: string := "Desktop Entry"
  const GenericProcessIcon: string := "generic-process"

  function Get(entry: map<string, string>, key: string): (r: Option<string>)
    ensures r.Some? <==> key in entry
    ensures r.Some? ==> r.value == entry[key]
  {
    if key in entry then Some(entry[key]) else None
  }

  /** `App::from_desktop_file`, given what loading the INI file gave (its sections by name)
      and the file stem (`None` when the path has none). */
  function FromDesktopFile(ini: Result<map<string, map<string, string>>, string>, stem: Option<string>)
    : (r: Result<AppInfo, string>)
    ensures ini.Err? ==> r == Err(ini.error)
    ensures ini.Ok? && DesktopEntry !in ini.value ==> r == Err("no desktop entry section")
    ensures ini.Ok? && DesktopEntry in ini.value ==>
      (r.Err? <==> "X-Flatpak" !in ini.value[DesktopEntry] && stem.None?)
    ensures r.Err? && ini.Ok? && DesktopEntry in ini.value ==> r.error == "unable to get ID of desktop file"
    ensures r.Ok? ==> ini.Ok? && DesktopEntry in ini.value
    ensures r.Ok? ==>
      (var entry := ini.value[DesktopEntry];
       && r.value.id == (if "X-Flatpak" in entry then entry["X-Flatpak"] else stem.value)
       && r.value.displayName == (if "Name" in entry then entry["Name"] else r.value.id)
       && r.value.icon == (if "Icon" in entry then entry["Icon"] else GenericProcessIcon)
       && r.value.commandline == Get(entry, "Exec")
       && r.value.description == Get(entry, "Comment"))
  {
    match ini
    case Err(e) => Err(e)
    case Ok(sections) =>
      if DesktopEntry !in sections then Err("no desktop entry section")
      else
        var entry := sections[DesktopEntry];
        var id := if "X-Flatpak" in entry then Some(entry["X-Flatpak"]) else stem;
        match id
        case None => Err("unable to get ID of desktop file")
        case Some(id) =>
          Ok(AppInfo(
            id, Get(entry, "Name").UnwrapOr(id), Get(entry, "Comment"),
            Get(entry, "Icon").UnwrapOr(GenericProcessIcon), Get(entry, "Exec")))
  }

  // ---------------------------------------------------------------- association

  /** Executables whose name differs too much from their application's. */
  const ExecutableNameExceptions: map<string, string> := map["firefox-bin" := "firefox"]

  /** The executable an application's command line names: its first space-separated word,
      after the last '/'. */
  function CommandExecutableName(commandline: string): (name: string)
    ensures ' ' !in name && '/' !in name
    ensures StartsWith(commandline, Split(commandline, {' '})[0])
    ensures EndsWith(Split(commandline, {' '})[0], name)
  {
    var word := Split(commandline, {' '})[0];
    SplitFirstPiece(commandline, {' '});
    var name := Names.ExecutableName(word);
    assert name == word[|word| - |name|..];
    assert forall i :: 0 <= i < |name| ==> name[i] == word[|word| - |name| + i];
    name
  }

  /** The last-resort test of one application against a process: its command line is the
      process's executable path, or names the process's executable, directly or through a
      known exception. */
  predicate CommandlineMatches(info: AppInfo, p: Process)
  {
    info.commandline.Some?
    && var exe := CommandExecutableName(info.commandline.value);
    (info.commandline.value == p.executablePath
     || exe == p.executableName
     || (p.executableName in ExecutableNameExceptions && ExecutableNameExceptions[p.executableName] == exe))
  }

  /** The position, in the map's iteration order `order`, of the first application the
      command-line test accepts, searching from `from`; `|order|` when none does. */
  function FirstMatch(infos: map<string, AppInfo>, order: seq<string>, p: Process, from: nat): (i: nat)
    requires forall k :: 0 <= k < |order| ==> order[k] in infos
    requires from <= |order|
    ensures from <= i <= |order|
    ensures i < |order| ==> CommandlineMatches(infos[order[i]], p)
    ensures forall j :: from <= j < i ==> !CommandlineMatches(infos[order[j]], p)
    decreases |order| - from
  {
    if from == |order| then from
    else if CommandlineMatches(infos[order[from]], p) then from
    else FirstMatch(infos, order, p, from + 1)
  }

  /** The key the cgroup lookup uses: the cgroup, or "" without one. */
  function CgroupKey(p: Process): string
  {
    if p.data.cgroup.Some? then p.data.cgroup.value else ""
  }

  /** `app_associated_with_process`: the application whose id is the cgroup, else the
      executable path, else the executable name, else the first whose command line
      matches. Applications are keyed by their ids. */
  function Associate(infos: map<string, AppInfo>, order: seq<string>, p: Process): (r: Option<string>)
    requires forall i :: 0 <= i < |order| ==> order[i] in infos
    ensures r.Some? ==> r.value in infos
    ensures CgroupKey(p) in infos ==> r == Some(CgroupKey(p))
    ensures CgroupKey(p) !in infos && p.executablePath in infos ==> r == Some(p.executablePath)
    ensures CgroupKey(p) !in infos && p.executablePath !in infos && p.executableName in infos ==>
      r == Some(p.executableName)
    ensures CgroupKey(p) !in infos && p.executablePath !in infos && p.executableName !in infos ==>
      (r.Some? <==> exists i :: 0 <= i < |order| && CommandlineMatches(infos[order[i]], p))
    ensures CgroupKey(p) !in infos && p.executablePath !in infos && p.executableName !in infos && r.Some? ==>
      (exists i :: 0 <= i < |order| && order[i] == r.value
         && CommandlineMatches(infos[order[i]], p)
         && forall j :: 0 <= j < i ==> !CommandlineMatches(infos[order[j]], p))
  {
    if CgroupKey(p) in infos then Some(CgroupKey(p))
    else if p.executablePath in infos then Some(p.executablePath)
    else if p.executableName in infos then Some(p.executableName)
    else
      var i := FirstMatch(infos, order, p, 0);
      if i < |order| then Some(order[i]) else None
  }

  // ---------------------------------------------------------------- aggregates

  /** The processes `processes_iter` yields for an application whose pid list is `members`:
      the alive processes of the context, in its iteration order `order`, whose pid is a
      member. */
  function MemberProcesses(order: seq<int>, procs: map<int, Process>, members: seq<int>): (r: seq<Process>)
    requires forall i :: 0 <= i < |order| ==> order[i] in procs
    ensures |r| <= |order|
    ensures forall q :: q in r ==> q.alive && q.data.pid in members && q in procs.Values
    ensures forall i :: 0 <= i < |order| && procs[order[i]].alive && procs[order[i]].data.pid in members ==>
      procs[order[i]] in r
    decreases |order|
  {
    if |order| == 0 then []
    else
      var init := MemberProcesses(order[..|order| - 1], procs, members);
      var q := procs[order[|order| - 1]];
      assert forall i :: 0 <= i < |order| - 1 ==> order[..|order| - 1][i] == order[i];
      if q.alive && q.data.pid in members then init + [q] else init
  }

  /** The sum of one counter over some processes. */
  function Total(ps: seq<Process>, f: Process -> nat): (r: nat)
    ensures forall q :: q in ps ==> f(q) <= r
    ensures (forall q :: q in ps ==> f(q) == 0) ==> r == 0
  {
    if |ps| == 0 then 0
    else
      var r := Total(ps[..|ps| - 1], f) + f(ps[|ps| - 1]);
      assert forall q :: q in ps ==> q in ps[..|ps| - 1] || q == ps[|ps| - 1];
      r
  }

  function Memory(q: Process): nat { q.data.memoryUsage }
  function CpuTimeOf(q: Process): nat { q.data.cpuTime }
  function TimestampOf(q: Process): nat { q.data.cpuTimeTimestamp }

  /** `App::is_running`: some member is alive. */
  function IsRunning(order: seq<int>, procs: map<int, Process>, members: seq<int>): (b: bool)
    requires forall i :: 0 <= i < |order| ==> order[i] in procs
  {
    |MemberProcesses(order, procs, members)| > 0
  }

  /** `App::memory_usage`: the memory of the alive members. */
  function MemoryUsage(order: seq<int>, procs: map<int, Process>, members: seq<int>): (r: nat)
    requires forall i :: 0 <= i < |order| ==> order[i] in procs
  {
    Total(MemberProcesses(order, procs, members), Memory)
  }

  /** `App::cpu_time`: the CPU time of the alive members. */
  function CpuTime(order: seq<int>, procs: map<int, Process>, members: seq<int>): (r: nat)
    requires forall i :: 0 <= i < |order| ==> order[i] in procs
  {
    Total(MemberProcesses(order, procs, members), CpuTimeOf)
  }

  /** `App::cpu_time_timestamp`: the sum of the alive members' timestamps divided by the
      number of entries in the pid list, 0 for an empty list. */
  function CpuTimeTimestamp(order: seq<int>, procs: map<int, Process>, members: seq<int>): (r: nat)
    requires forall i :: 0 <= i < |order| ==> order[i] in procs
    ensures |members| == 0 ==> r == 0
    ensures r * |members| <= Total(MemberProcesses(order, procs, members), TimestampOf)
    ensures |members| > 0 ==> Total(MemberProcesses(order, procs, members), TimestampOf) < (r + 1) * |members|
  {
    var sum := Total(MemberProcesses(order, procs, members), TimestampOf);
    if |members| == 0 then 0
    else
      FloorDivision(sum, |members|);
      sum / |members|
  }

  lemma FloorDivision(a: nat, b: nat)
    requires b > 0
    ensures (a / b) * b <= a < (a / b + 1) * b
  {
  }

  /** An application is running exactly when one of its pids belongs to an alive process. */
  lemma IsRunningIff(order: seq<int>, procs: map<int, Process>, members: seq<int>)
    requires Names.Enumerates(order, procs)
    requires forall pid :: pid in procs ==> procs[pid].data.pid == pid
    ensures IsRunning(order, procs, members) <==>
      exists pid :: pid in members && pid in procs && procs[pid].alive
  {
    var r := MemberProcesses(order, procs, members);
    if |r| > 0 {
      assert r[0] in r;
      var k :| k in procs && procs[k] == r[0];
      assert k in members && procs[k].alive;
    }
    if pid :| pid in members && pid in procs && procs[pid].alive {
      var i :| 0 <= i < |order| && order[i] == pid;
      assert procs[order[i]] in r;
    }
  }

  /** An application without alive members uses no memory and no CPU time. */
  lemma NotRunningIsIdle(order: seq<int>, procs: map<int, Process>, members: seq<int>)
    requires forall i :: 0 <= i < |order| ==> order[i] in procs
    requires !IsRunning(order, procs, members)
    ensures MemoryUsage(order, procs, members) == 0 && CpuTime(order, procs, members) == 0
  {
  }

  /** Every alive member counts towards the application's memory. */
  lemma MemberMemoryCounted(order: seq<int>, procs: map<int, Process>, members: seq<int>, i: nat)
    requires forall j :: 0 <= j < |order| ==> order[j] in procs
    requires i < |order| && procs[order[i]].alive && procs[order[i]].data.pid in members
    ensures procs[order[i]].data.memoryUsage <= MemoryUsage(order, procs, members)
    ensures procs[order[i]].data.cpuTime <= CpuTime(order, procs, members)
  {
  }

  /** The pids of some processes, in order. */
  function Pids(ps: seq<Process>): (r: seq<int>)
    ensures |r| == |ps| && forall i :: 0 <= i < |ps| ==> r[i] == ps[i].data.pid
  {
    seq(|ps|, i requires 0 <= i < |ps| => ps[i].data.pid)
  }

  /** A pid list without any occurrence of `pid`. */
  function Without(s: seq<int>, pid: int): (r: seq<int>)
    ensures forall x :: x in r <==> x in s && x != pid
    ensures |r| <= |s|
    ensures pid !in s ==> r == s
  {
    if |s| == 0 then []
    else
      var init := Without(s[..|s| - 1], pid);
      assert forall x :: x in s <==> x in s[..|s| - 1] || x == s[|s| - 1];
      if s[|s| - 1] == pid then init else init + [s[|s| - 1]]
  }

  // ---------------------------------------------------------------- applications

  /** An installed application and the pids it owns. */
  class App {
    const info: AppInfo
    var processes: seq<int>

    constructor (info: AppInfo)
      ensures this.info == info && processes == []
    {
      this.info := info;
      processes := [];
    }

    /** `add_process`: the process takes the application's icon and its pid joins the list. */
    method AddProcess(process: Process) returns (updated: Process)
      modifies this
      ensures processes == old(processes) + [process.data.pid]
      ensures updated == process.(icon := info.icon)
    {
      updated := process.(icon := info.icon);
      processes := processes + [process.data.pid];
    }

    /** `remove_process`: every occurrence of the pid leaves the list. */
    method RemoveProcess(process: Process)
      modifies this
      ensures processes == Without(old(processes), process.data.pid)
    {
      var kept := [];
      for i := 0 to |processes|
        invariant kept == Without(processes[..i], process.data.pid)
      {
        assert processes[..i + 1][..i] == processes[..i];
        if processes[i] != process.data.pid {
          kept := kept + [processes[i]];
        }
      }
      assert processes[..|processes|] == processes;
      processes := kept;
    }

    /** `App::refresh`: the list becomes the pids of the alive members, in the context's
        iteration order `order`. */
    method Refresh(procs: map<int, Process>, order: seq<int>)
      requires forall i :: 0 <= i < |order| ==> order[i] in procs
      modifies this
      ensures processes == Pids(MemberProcesses(order, procs, old(processes)))
    {
      var members := processes;
      var kept := [];
      for i := 0 to |order|
        invariant kept == Pids(MemberProcesses(order[..i], procs, members))
      {
        assert order[..i + 1][..i] == order[..i];
        var q := procs[order[i]];
        if q.data.pid in members && q.alive {
          kept := kept + [q.data.pid];
        }
      }
      assert order[..|order|] == order;
      processes := kept;
    }
  }

  /** After `App::refresh` the list holds exactly the member pids whose process is alive. */
  lemma RefreshKeepsAliveMembers(order: seq<int>, procs: map<int, Process>, members: seq<int>)
    requires Names.Enumerates(order, procs)
    requires forall pid :: pid in procs ==> procs[pid].data.pid == pid
    ensures forall pid :: pid in Pids(MemberProcesses(order, procs, members)) <==>
      pid in members && pid in procs && procs[pid].alive
  {
    var r := MemberProcesses(order, procs, members);
    forall pid ensures pid in Pids(r) <==> pid in members && pid in procs && procs[pid].alive {
      if pid in Pids(r) {
        var j :| 0 <= j < |r| && Pids(r)[j] == pid;
        assert r[j] in r;
        var k :| k in procs && procs[k] == r[j];
      }
      if pid in members && pid in procs && procs[pid].alive {
        var i :| 0 <= i < |order| && order[i] == pid;
        assert procs[order[i]] in r;
        var j :| 0 <= j < |r| && r[j] == procs[order[i]];
        assert Pids(r)[j] == pid;
      }
    }
  }

  // ---------------------------------------------------------------- the context

  /** The context as values: its processes by pid, the pids owned by applications, and
      each application's pid list. */
  datatype Snapshot = Snapshot(
    processes: map<int, Process>, owned: set<int>, members: map<string, seq<int>>)

  /** What the context keeps true: every application has a pid list, processes are keyed
      by their pids, only known pids are owned, every listed pid is owned, and no pid
      is listed by two applications. */
  predicate Consistent(s: Snapshot, infos: map<string, AppInfo>)
  {
    && s.members.Keys == infos.Keys
    && (forall pid :: pid in s.processes ==> s.processes[pid].data.pid == pid)
    && s.owned <= s.processes.Keys
    && (forall id, pid :: id in s.members && pid in s.members[id] ==> pid in s.owned)
    && (forall a, b, pid :: a in s.members && b in s.members && pid in s.members[a] && pid in s.members[b] ==> a == b)
  }

  /** A known process after a new sample as written: the previous sample's CPU time and
      timestamp become the baseline, the sample is replaced, and the `alive` flag is left
      as it was. */
  function RolledAsWritten(prev: Process, sample: Process): (r: Process)
    ensures r.data == sample.data && r.alive == prev.alive
    ensures r.cpuTimeBefore == prev.data.cpuTime && r.cpuTimeBeforeTimestamp == prev.data.cpuTimeTimestamp
  {
    prev.(cpuTimeBefore := prev.data.cpuTime, cpuTimeBeforeTimestamp := prev.data.cpuTimeTimestamp, data := sample.data)
  }

  /** As `RolledAsWritten`, but a process seen again is alive again. */
  function Rolled(prev: Process, sample: Process): (r: Process)
    ensures r.data == sample.data && r.alive
    ensures r.cpuTimeBefore == prev.data.cpuTime && r.cpuTimeBeforeTimestamp == prev.data.cpuTimeTimestamp
    ensures r.executablePath == prev.executablePath && r.executableName == prev.executableName && r.icon == prev.icon
  {
    RolledAsWritten(prev, sample).(alive := true)
  }

  /** One gathered process taken into the context, as the body of the refresh loop does:
      a known pid is rolled over; a new pid is offered to the applications, joins the first
      one it is associated with, and is stored. */
  function Gathered(s: Snapshot, infos: map<string, AppInfo>, order: seq<string>, p: Process): (r: Snapshot)
    requires forall i :: 0 <= i < |order| ==> order[i] in infos
    requires s.members.Keys == infos.Keys
    ensures r.members.Keys == s.members.Keys
  {
    var pid := p.data.pid;
    if pid in s.processes then
      s.(processes := s.processes[pid := Rolled(s.processes[pid], p)])
    else if pid in s.owned then s
    else
      match Associate(infos, order, p)
      case None => s.(processes := s.processes[pid := p])
      case Some(id) =>
        Snapshot(s.processes[pid := p.(icon := infos[id].icon)], s.owned + {pid},
                 s.members[id := s.members[id] + [pid]])
  }

  /** The gathered processes taken in one after the other. */
  function GatherAll(s: Snapshot, infos: map<string, AppInfo>, order: seq<string>, ps: seq<Process>): (r: Snapshot)
    requires forall i :: 0 <= i < |order| ==> order[i] in infos
    requires s.members.Keys == infos.Keys
    ensures r.members.Keys == s.members.Keys
  {
    if |ps| == 0 then s
    else Gathered(GatherAll(s, infos, order, ps[..|ps| - 1]), infos, order, ps[|ps| - 1])
  }

  /** The pids of the gathered processes. */
  function PidSet(ps: seq<Process>): (r: set<int>)
    ensures forall pid :: pid in r <==> exists i :: 0 <= i < |ps| && ps[i].data.pid == pid
  {
    set i | 0 <= i < |ps| :: ps[i].data.pid
  }

  /** Every process whose pid the gather missed is marked dead; nothing is removed. */
  function MarkDead(procs: map<int, Process>, seen: set<int>): (r: map<int, Process>)
    ensures r.Keys == procs.Keys
    ensures forall pid :: pid in r ==>
      r[pid] == (if procs[pid].data.pid in seen then procs[pid] else procs[pid].(alive := false))
  {
    map pid | pid in procs :: if procs[pid].data.pid in seen then procs[pid] else procs[pid].(alive := false)
  }

  /** `AppsContext::refresh` on values. */
  function Refreshed(s: Snapshot, infos: map<string, AppInfo>, order: seq<string>, ps: seq<Process>): (r: Snapshot)
    requires forall i :: 0 <= i < |order| ==> order[i] in infos
    requires s.members.Keys == infos.Keys
  {
    var g := GatherAll(s, infos, order, ps);
    g.(processes := MarkDead(g.processes, PidSet(ps)))
  }

  /** Taking in one gathered process keeps the context consistent; in particular a new pid
      joins at most one application. */
  lemma GatheredConsistent(s: Snapshot, infos: map<string, AppInfo>, order: seq<string>, p: Process)
    requires forall i :: 0 <= i < |order| ==> order[i] in infos
    requires Consistent(s, infos)
    ensures Consistent(Gathered(s, infos, order, p), infos)
  {
    var pid := p.data.pid;
    if pid !in s.processes && pid !in s.owned {
      var r := Gathered(s, infos, order, p);
      match Associate(infos, order, p)
      case None =>
      case Some(id) =>
        assert forall a :: a in s.members ==> pid !in s.members[a];
        forall a, b, x | a in r.members && b in r.members && x in r.members[a] && x in r.members[b]
          ensures a == b
        {
          if x == pid {
            assert a == id && b == id;
          } else {
            assert x in s.members[a] && x in s.members[b];
          }
        }
    }
  }

  lemma {:induction false} GatherAllConsistent(s: Snapshot, infos: map<string, AppInfo>, order: seq<string>, ps: seq<Process>)
    requires forall i :: 0 <= i < |order| ==> order[i] in infos
    requires Consistent(s, infos)
    ensures Consistent(GatherAll(s, infos, order, ps), infos)
  {
    if |ps| > 0 {
      GatherAllConsistent(s, infos, order, ps[..|ps| - 1]);
      GatheredConsistent(GatherAll(s, infos, order, ps[..|ps| - 1]), infos, order, ps[|ps| - 1]);
    }
  }

  /** A refresh keeps the context consistent. */
  lemma RefreshedConsistent(s: Snapshot, infos: map<string, AppInfo>, order: seq<string>, ps: seq<Process>)
    requires forall i :: 0 <= i < |order| ==> order[i] in infos
    requires Consistent(s, infos)
    ensures Consistent(Refreshed(s, infos, order, ps), infos)
  {
    GatherAllConsistent(s, infos, order, ps);
  }

  /** A new pid joins the application it is associated with, takes its icon and is owned;
      a pid associated with none joins no list. */
  lemma NewPidJoinsAssociatedApp(s: Snapshot, infos: map<string, AppInfo>, order: seq<string>, p: Process)
    requires forall i :: 0 <= i < |order| ==> order[i] in infos
    requires Consistent(s, infos)
    requires p.data.pid !in s.processes
    ensures var r := Gathered(s, infos, order, p);
      && p.data.pid in r.processes && r.processes[p.data.pid].data == p.data
      && (Associate(infos, order, p).None? ==>
            r.members == s.members && r.owned == s.owned && r.processes[p.data.pid] == p)
      && (Associate(infos, order, p).Some? ==>
            var id := Associate(infos, order, p).value;
            && r.members == s.members[id := s.members[id] + [p.data.pid]]
            && r.owned == s.owned + {p.data.pid}
            && r.processes[p.data.pid] == p.(icon := infos[id].icon))
  {
  }

  /** Taking in gathered processes never drops a known pid. */
  lemma {:induction false} GatherAllKeepsKeys(s: Snapshot, infos: map<string, AppInfo>, order: seq<string>, ps: seq<Process>)
    requires forall i :: 0 <= i < |order| ==> order[i] in infos
    requires s.members.Keys == infos.Keys
    ensures s.processes.Keys <= GatherAll(s, infos, order, ps).processes.Keys
  {
    if |ps| > 0 {
      GatherAllKeepsKeys(s, infos, order, ps[..|ps| - 1]);
    }
  }

  /** A refresh never removes a process, and marks dead exactly the processes whose pid
      the gather missed. */
  lemma RefreshedMarksMissing(s: Snapshot, infos: map<string, AppInfo>, order: seq<string>, ps: seq<Process>)
    requires forall i :: 0 <= i < |order| ==> order[i] in infos
    requires Consistent(s, infos)
    ensures var r := Refreshed(s, infos, order, ps);
      && s.processes.Keys <= r.processes.Keys
      && forall pid :: pid in r.processes && pid !in PidSet(ps) ==> !r.processes[pid].alive
  {
    GatherAllKeepsKeys(s, infos, order, ps);
    GatherAllConsistent(s, infos, order, ps);
  }

  /** With every gathered process alive, each gathered pid is stored after the gather and
      is alive. */
  lemma {:induction false} GatherAllSeenAlive(s: Snapshot, infos: map<string, AppInfo>, order: seq<string>, ps: seq<Process>)
    requires forall i :: 0 <= i < |order| ==> order[i] in infos
    requires Consistent(s, infos)
    requires forall i :: 0 <= i < |ps| ==> ps[i].alive
    ensures forall i :: 0 <= i < |ps| ==>
      ps[i].data.pid in GatherAll(s, infos, order, ps).processes
      && GatherAll(s, infos, order, ps).processes[ps[i].data.pid].alive
  {
    if |ps| > 0 {
      var init := ps[..|ps| - 1];
      var g := GatherAll(s, infos, order, init);
      GatherAllSeenAlive(s, infos, order, init);
      GatherAllConsistent(s, infos, order, init);
      var p := ps[|ps| - 1];
      var r := Gathered(g, infos, order, p);
      assert r == GatherAll(s, infos, order, ps);
      forall i | 0 <= i < |ps|
        ensures ps[i].data.pid in r.processes && r.processes[ps[i].data.pid].alive
      {
        if i < |ps| - 1 {
          assert ps[i] == init[i];
          if ps[i].data.pid == p.data.pid {
            assert p.data.pid in g.processes;
          }
        }
      }
    }
  }

  /** With every gathered process alive, a refresh leaves each gathered pid alive, even one
      an earlier refresh had marked dead. */
  lemma RefreshedSeenAlive(s: Snapshot, infos: map<string, AppInfo>, order: seq<string>, ps: seq<Process>)
    requires forall i :: 0 <= i < |order| ==> order[i] in infos
    requires Consistent(s, infos)
    requires forall i :: 0 <= i < |ps| ==> ps[i].alive
    ensures var r := Refreshed(s, infos, order, ps);
      forall pid :: pid in PidSet(ps) ==> pid in r.processes && r.processes[pid].alive
  {
    GatherAllSeenAlive(s, infos, order, ps);
    GatherAllConsistent(s, infos, order, ps);
  }

  /** As written, a process that a refresh marked dead stays dead when a later gather sees
      its pid again: the sample is taken over but the flag is not. */
  lemma SeenAgainStaysDeadAsWritten(prev: Process, sample: Process)
    requires !prev.alive && sample.alive
    ensures !RolledAsWritten(prev, sample).alive
    ensures Rolled(prev, sample).alive
  {
  }

  /** The installed applications by id, and every process seen so far. `appOrder` is the
      iteration order of the application map, which never changes after construction. */
  class AppsContext {
    const apps: map<string, App>
    const appOrder: seq<string>
    var processes: map<int, Process>
    var owned: set<int>
    /** Each application's pid list, mirrored from the applications. */
    ghost var members: map<string, seq<int>>

    /** The applications' desktop-file data by id. */
    function Infos(): (r: map<string, AppInfo>)
      ensures r.Keys == apps.Keys
      ensures forall id :: id in apps ==> r[id] == apps[id].info
    {
      map id | id in apps :: apps[id].info
    }

    /** The context as values. */
    ghost function Snap(): (s: Snapshot)
      reads this
    {
      Snapshot(processes, owned, members)
    }

    ghost predicate Valid()
      reads this, apps.Values
    {
      && Names.Enumerates(appOrder, apps)
      && (forall id :: id in apps ==> apps[id].info.id == id)
      && members.Keys == apps.Keys
      && (forall id :: id in apps ==> apps[id].processes == members[id])
      && Consistent(Snap(), Infos())
    }

    /** `AppsContext::new`: the applications keyed by id, one per distinct id among the
        desktop files; no processes yet. */
    constructor (infos: seq<AppInfo>, order: seq<string>)
      requires forall id :: id in order <==> exists i :: 0 <= i < |infos| && infos[i].id == id
      requires forall i, j :: 0 <= i < j < |order| ==> order[i] != order[j]
      ensures Valid()
      ensures forall i :: 0 <= i < |infos| ==> infos[i].id in apps
      ensures forall id :: id in apps ==> apps[id].info in infos && apps[id].processes == []
      ensures processes == map[] && owned == {}
    {
      var m: map<string, App> := map[];
      for i := 0 to |infos|
        invariant forall k :: 0 <= k < i ==> infos[k].id in m
        invariant forall id :: id in m ==> (exists k :: 0 <= k < i && infos[k].id == id)
        invariant forall id :: id in m ==> m[id].info.id == id && m[id].info in infos && m[id].processes == []
      {
        var app := new App(infos[i]);
        m := m[infos[i].id := app];
      }
      apps := m;
      appOrder := order;
      processes := map[];
      owned := {};
      members := map id | id in m :: [];
      new;
      assert forall i :: 0 <= i < |order| ==> order[i] in m by {
        forall i | 0 <= i < |order| ensures order[i] in m {
          assert order[i] in order;
        }
      }
    }

    /** The body of the refresh loop for one gathered process. */
    method Take(p: Process)
      requires Valid()
      modifies this, apps.Values
      ensures Valid()
      ensures Snap() == Gathered(old(Snap()), Infos(), appOrder, p)
    {
      ghost var before := Snap();
      GatheredConsistent(before, Infos(), appOrder, p);
      var pid := p.data.pid;
      if pid in processes {
        processes := processes[pid := Rolled(processes[pid], p)];
      } else if pid in owned {
      } else {
        var app := Associate(Infos(), appOrder, p);
        if app.Some? {
          Adopt(p, app.value);
        } else {
          processes := processes[pid := p];
        }
      }
      assert Snap() == Gathered(before, Infos(), appOrder, p);
    }

    /** A new pid joins application `id`: it is owned, listed by the application, and
        stored with the application's icon. */
    method Adopt(p: Process, id: string)
      requires Valid() && id in apps
      requires p.data.pid !in processes && p.data.pid !in owned
      modifies this, apps[id]
      ensures processes == old(processes)[p.data.pid := p.(icon := apps[id].info.icon)]
      ensures owned == old(owned) + {p.data.pid}
      ensures members == old(members)[id := old(members)[id] + [p.data.pid]]
      ensures Names.Enumerates(appOrder, apps) && (forall x :: x in apps ==> apps[x].info.id == x)
      ensures members.Keys == apps.Keys && (forall x :: x in apps ==> apps[x].processes == members[x])
    {
      var target := apps[id];
      assert forall x :: x in apps && x != id ==> apps[x] != target by {
        assert forall x :: x in apps ==> apps[x].info.id == x;
      }
      owned := owned + {p.data.pid};
      var stored := target.AddProcess(p);
      processes := processes[p.data.pid := stored];
      members := members[id := members[id] + [p.data.pid]];
    }

    /** The second loop of the refresh: every process whose pid is not in `seen` is marked
        dead. */
    method MarkMissing(seen: set<int>)
      modifies this
      ensures processes == MarkDead(old(processes), seen)
      ensures owned == old(owned) && members == old(members)
    {
      var remaining := processes.Keys;
      ghost var start := processes;
      ghost var dead := MarkDead(processes, seen);
      while exists key :: key in remaining
        invariant remaining <= processes.Keys && processes.Keys == dead.Keys
        invariant owned == old(owned) && members == old(members)
        invariant forall key :: key in remaining ==> processes[key] == start[key]
        invariant forall key :: key in processes && key !in remaining ==> processes[key] == dead[key]
        decreases remaining
      {
        var key :| key in remaining;
        if processes[key].data.pid !in seen {
          processes := processes[key := processes[key].(alive := false)];
        }
        remaining := remaining - {key};
      }
      assert forall key :: key in processes ==> processes[key] == dead[key];
    }

    /** The first loop of the refresh: the gathered processes are taken in one after the
        other, and their pids are collected. */
    method TakeAll(gathered: seq<Process>) returns (seen: set<int>)
      requires Valid()
      modifies this, apps.Values
      ensures Valid()
      ensures Snap() == GatherAll(old(Snap()), Infos(), appOrder, gathered)
      ensures seen == PidSet(gathered)
    {
      ghost var s0 := Snap();
      seen := {};
      for i := 0 to |gathered|
        invariant Valid()
        invariant Snap() == GatherAll(s0, Infos(), appOrder, gathered[..i])
        invariant seen == PidSet(gathered[..i])
      {
        ghost var prev := Snap();
        assert gathered[..i + 1][..i] == gathered[..i];
        seen := seen + {gathered[i].data.pid};
        Take(gathered[i]);
        assert GatherAll(s0, Infos(), appOrder, gathered[..i + 1]) == Gathered(prev, Infos(), appOrder, gathered[i]);
      }
      assert gathered[..|gathered|] == gathered;
    }

    /** `AppsContext::refresh` with the processes gathered this time: the context becomes
        `Refreshed` of what it was, and stays valid. */
    method Refresh(gathered: seq<Process>)
      requires Valid()
      modifies this, apps.Values
      ensures Valid()
      ensures Snap() == Refreshed(old(Snap()), Infos(), appOrder, gathered)
    {
      ghost var s0 := Snap();
      var seen := TakeAll(gathered);
      MarkMissing(seen);
      RefreshedConsistent(s0, Infos(), appOrder, gathered);
    }
  }

  // ---------------------------------------------------------------- application items

  const PortalPrefix: string := "xdg-desktop-portal"
  const SystemProcessesName: string := "System Processes"
  const SystemProcessesIcon: string := "system-processes"

  /** One row of the applications view: an application, or (with no id) the system
      processes that belong to no listed application. */
  datatype AppItem = AppItem(
    id: Option<string>, displayName: string, icon: string, description: Option<string>,
    memoryUsage: nat, processesAmount: nat, containerization: Containerization)

  /** `app_items` lists an application when it is running and is not a desktop portal. */
  predicate Listed(order: seq<int>, procs: map<int, Process>, members: seq<int>, id: string)
    requires forall i :: 0 <= i < |order| ==> order[i] in procs
  {
    IsRunning(order, procs, members) && !StartsWith(id, PortalPrefix)
  }

  /** The ids of the listed applications. */
  function ListedIds(s: Snapshot, order: seq<int>): (r: set<string>)
    requires forall i :: 0 <= i < |order| ==> order[i] in s.processes
    ensures forall id :: id in r <==> id in s.members && Listed(order, s.processes, s.members[id], id)
  {
    set id | id in s.members && Listed(order, s.processes, s.members[id], id)
  }

  /** `app_pids`: the pids of the alive processes listed by a listed application. */
  function AppPids(s: Snapshot, listed: set<string>): (r: set<int>)
    ensures forall pid :: pid in r <==>
      (exists k :: k in s.processes && s.processes[k].alive && s.processes[k].data.pid == pid
        && exists id :: id in listed && id in s.members && pid in s.members[id])
  {
    set k | k in s.processes && s.processes[k].alive
      && (exists id :: id in listed && id in s.members && s.processes[k].data.pid in s.members[id])
      :: s.processes[k].data.pid
  }

  /** The alive processes, in the context's iteration order, whose pid is not excluded. */
  function Outside(order: seq<int>, procs: map<int, Process>, excluded: set<int>): (r: seq<Process>)
    requires forall i :: 0 <= i < |order| ==> order[i] in procs
    ensures forall q :: q in r ==> q.alive && q.data.pid !in excluded
    decreases |order|
  {
    if |order| == 0 then []
    else
      var init := Outside(order[..|order| - 1], procs, excluded);
      var q := procs[order[|order| - 1]];
      if q.alive && q.data.pid !in excluded then init + [q] else init
  }

  /** The item of a listed application: its desktop-file data, the memory and the number
      of its alive members, and Flatpak when one of them that is not the `bwrap` sandbox
      launcher and has a command line runs under Flatpak. */
  function ItemOf(info: AppInfo, order: seq<int>, procs: map<int, Process>, members: seq<int>): (r: AppItem)
    requires forall i :: 0 <= i < |order| ==> order[i] in procs
    ensures r.id == Some(info.id) && r.memoryUsage == MemoryUsage(order, procs, members)
    ensures r.containerization == Lib.Flatpak <==>
      exists q :: (q in MemberProcesses(order, procs, members) && !StartsWith(q.data.commandline, "bwrap")
                   && |q.data.commandline| > 0 && q.data.containerization == Lib.Flatpak)
    ensures r.containerization != Lib.Flatpak ==> r.containerization == Lib.Bare
  {
    var ps := MemberProcesses(order, procs, members);
    var flatpak := exists q :: (q in ps && !StartsWith(q.data.commandline, "bwrap")
                                 && |q.data.commandline| > 0 && q.data.containerization == Lib.Flatpak);
    AppItem(Some(info.id), info.displayName, info.icon, info.description,
            Total(ps, Memory), |ps|, if flatpak then Lib.Flatpak else Lib.Bare)
  }

  /** The "System Processes" item: the memory of the alive processes outside the listed
      applications, and the number of every process the context holds, dead ones included. */
  function SystemItem(s: Snapshot, order: seq<int>): (r: AppItem)
    requires forall i :: 0 <= i < |order| ==> order[i] in s.processes
    ensures r.id.None? && r.processesAmount == |s.processes|
    ensures r.memoryUsage == Total(Outside(order, s.processes, AppPids(s, ListedIds(s, order))), Memory)
  {
    AppItem(None, SystemProcessesName, SystemProcessesIcon, None,
            Total(Outside(order, s.processes, AppPids(s, ListedIds(s, order))), Memory),
            |s.processes|, Lib.Bare)
  }

  /** `AppsContext::app_items`: one item per listed application, keyed by its id, and the
      system item under no id. */
  function AppItems(s: Snapshot, infos: map<string, AppInfo>, order: seq<int>): (r: map<Option<string>, AppItem>)
    requires forall i :: 0 <= i < |order| ==> order[i] in s.processes
    ensures None in r && r[None] == SystemItem(s, order)
    ensures forall id :: Some(id) in r <==> id in infos && id in ListedIds(s, order)
    ensures forall id :: Some(id) in r ==> r[Some(id)] == ItemOf(infos[id], order, s.processes, s.members[id])
  {
    var listed := ListedIds(s, order);
    (map id | id in infos && id in listed :: Some(id) := ItemOf(infos[id], order, s.processes, s.members[id]))
      [None := SystemItem(s, order)]
  }

  // ---------------------------------------------------------------- memory accounting

  /** Some listed application among `ids` lists `pid`. */
  predicate InSome(ids: seq<string>, listed: set<string>, members: map<string, seq<int>>, pid: int)
  {
    exists id :: id in ids && id in listed && id in members && pid in members[id]
  }

  /** No pid is listed by two applications. */
  predicate Disjoint(members: map<string, seq<int>>)
  {
    forall a, b, pid :: a in members && b in members && pid in members[a] && pid in members[b] ==> a == b
  }

  /** The memory of the listed applications among `ids`. */
  function ListedMemory(ids: seq<string>, listed: set<string>, members: map<string, seq<int>>,
                        order: seq<int>, procs: map<int, Process>): nat
    requires forall i :: 0 <= i < |order| ==> order[i] in procs
    decreases |ids|
  {
    if |ids| == 0 then 0
    else
      var id := ids[|ids| - 1];
      ListedMemory(ids[..|ids| - 1], listed, members, order, procs)
        + (if id in listed && id in members then MemoryUsage(order, procs, members[id]) else 0)
  }

  /** The memory the items of `ids` report. */
  function ItemsMemory(items: map<Option<string>, AppItem>, ids: seq<string>): nat
    decreases |ids|
  {
    if |ids| == 0 then 0
    else
      ItemsMemory(items, ids[..|ids| - 1])
        + (if Some(ids[|ids| - 1]) in items then items[Some(ids[|ids| - 1])].memoryUsage else 0)
  }

  lemma TotalSnoc(ps: seq<Process>, q: Process, f: Process -> nat)
    ensures Total(ps + [q], f) == Total(ps, f) + f(q)
  {
    assert (ps + [q])[..|ps|] == ps;
  }

  /** One more process in the iteration adds its memory to an application it is an alive
      member of. */
  lemma MemoryUsageSnoc(order: seq<int>, procs: map<int, Process>, members: seq<int>, k: int)
    requires forall i :: 0 <= i < |order| ==> order[i] in procs
    requires k in procs
    ensures MemoryUsage(order + [k], procs, members) == MemoryUsage(order, procs, members)
      + (if procs[k].alive && procs[k].data.pid in members then procs[k].data.memoryUsage else 0)
  {
    assert (order + [k])[..|order|] == order;
    TotalSnoc(MemberProcesses(order, procs, members), procs[k], Memory);
  }

  /** The same for the processes outside an excluded set. */
  lemma OutsideSnoc(order: seq<int>, procs: map<int, Process>, excluded: set<int>, k: int)
    requires forall i :: 0 <= i < |order| ==> order[i] in procs
    requires k in procs
    ensures Total(Outside(order + [k], procs, excluded), Memory) == Total(Outside(order, procs, excluded), Memory)
      + (if procs[k].alive && procs[k].data.pid !in excluded then procs[k].data.memoryUsage else 0)
  {
    assert (order + [k])[..|order|] == order;
    TotalSnoc(Outside(order, procs, excluded), procs[k], Memory);
  }

  /** With disjoint pid lists, one more process adds its memory to the listed applications
      at most once: exactly when it is alive and some listed application lists it. */
  lemma {:induction false} ListedMemorySnoc(ids: seq<string>, listed: set<string>, members: map<string, seq<int>>,
                                           order: seq<int>, procs: map<int, Process>, k: int)
    requires forall i :: 0 <= i < |order| ==> order[i] in procs
    requires k in procs
    requires forall i, j :: 0 <= i < j < |ids| ==> ids[i] != ids[j]
    requires Disjoint(members)
    ensures ListedMemory(ids, listed, members, order + [k], procs) == ListedMemory(ids, listed, members, order, procs)
      + (if procs[k].alive && InSome(ids, listed, members, procs[k].data.pid) then procs[k].data.memoryUsage else 0)
    decreases |ids|
  {
    if |ids| > 0 {
      var init := ids[..|ids| - 1];
      var id := ids[|ids| - 1];
      var pid := procs[k].data.pid;
      ListedMemorySnoc(init, listed, members, order, procs, k);
      if id in listed && id in members {
        MemoryUsageSnoc(order, procs, members[id], k);
      }
      assert InSome(ids, listed, members, pid) <==>
        InSome(init, listed, members, pid) || (id in listed && id in members && pid in members[id]) by {
        if InSome(ids, listed, members, pid) {
          var w :| w in ids && w in listed && w in members && pid in members[w];
          if w != id {
            var j :| 0 <= j < |ids| && ids[j] == w;
            assert init[j] == w;
          }
        }
        if InSome(init, listed, members, pid) {
          var w :| w in init && w in listed && w in members && pid in members[w];
          assert w in ids;
        }
      }
    }
  }

  /** Before any process is counted the listed applications hold no memory. */
  lemma {:induction false} NothingListedYet(ids: seq<string>, listed: set<string>, members: map<string, seq<int>>,
                                           procs: map<int, Process>)
    ensures ListedMemory(ids, listed, members, [], procs) == 0
    decreases |ids|
  {
    if |ids| > 0 {
      NothingListedYet(ids[..|ids| - 1], listed, members, procs);
    }
  }

  /** Every alive process's memory is counted once: either by the listed applications or by
      the processes outside them. */
  lemma {:induction false} MemoryPartition(ids: seq<string>, listed: set<string>, members: map<string, seq<int>>,
                                          order: seq<int>, procs: map<int, Process>, excluded: set<int>)
    requires forall i :: 0 <= i < |order| ==> order[i] in procs
    requires forall i, j :: 0 <= i < j < |ids| ==> ids[i] != ids[j]
    requires Disjoint(members)
    requires forall k :: k in procs && procs[k].alive ==>
      (procs[k].data.pid in excluded <==> InSome(ids, listed, members, procs[k].data.pid))
    ensures ListedMemory(ids, listed, members, order, procs) + Total(Outside(order, procs, excluded), Memory)
      == Total(Outside(order, procs, {}), Memory)
    decreases |order|
  {
    if |order| == 0 {
      NothingListedYet(ids, listed, members, procs);
    } else {
      var init := order[..|order| - 1];
      var k := order[|order| - 1];
      assert order == init + [k];
      MemoryPartition(ids, listed, members, init, procs, excluded);
      ListedMemorySnoc(ids, listed, members, init, procs, k);
      OutsideSnoc(init, procs, excluded, k);
      OutsideSnoc(init, procs, {}, k);
    }
  }

  /** The items of the listed applications report the memory `ListedMemory` counts. */
  lemma {:induction false} ItemsMemoryListed(s: Snapshot, infos: map<string, AppInfo>, order: seq<int>, ids: seq<string>)
    requires forall i :: 0 <= i < |order| ==> order[i] in s.processes
    requires s.members.Keys == infos.Keys
    ensures ItemsMemory(AppItems(s, infos, order), ids)
      == ListedMemory(ids, ListedIds(s, order), s.members, order, s.processes)
    decreases |ids|
  {
    if |ids| > 0 {
      ItemsMemoryListed(s, infos, order, ids[..|ids| - 1]);
    }
  }

  /** `app_items` counts every alive process's memory exactly once: the memory of all the
      items together is the memory of all the alive processes. */
  lemma AppItemsCountMemoryOnce(s: Snapshot, infos: map<string, AppInfo>, appOrder: seq<string>, order: seq<int>)
    requires Consistent(s, infos)
    requires Names.Enumerates(appOrder, infos)
    requires Names.Enumerates(order, s.processes)
    ensures ItemsMemory(AppItems(s, infos, order), appOrder) + AppItems(s, infos, order)[None].memoryUsage
      == Total(Outside(order, s.processes, {}), Memory)
  {
    var listed := ListedIds(s, order);
    var excluded := AppPids(s, listed);
    ItemsMemoryListed(s, infos, order, appOrder);
    forall k | k in s.processes && s.processes[k].alive
      ensures s.processes[k].data.pid in excluded <==> InSome(appOrder, listed, s.members, s.processes[k].data.pid)
    {
      var pid := s.processes[k].data.pid;
      if InSome(appOrder, listed, s.members, pid) {
        var id :| id in appOrder && id in listed && id in s.members && pid in s.members[id];
        assert s.processes[k].data.pid == pid;
      }
      if pid in excluded {
        var id :| id in listed && id in s.members && pid in s.members[id];
        assert id in appOrder;
      }
    }
    MemoryPartition(appOrder, listed, s.members, order, s.processes, excluded);
  }
}

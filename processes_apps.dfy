/** The older `Apps` object (src/utils/processes.rs): the installed applications with their
    processes, the system processes and the list of procfs directories already seen, built
    once and then refreshed against a new look at procfs. The procfs contents are a map from
    directory to what reading that directory gives; the directory listing is a sequence. */
module LegacyApps {
  import opened Wrappers
  import opened Text
  import Names = Process
  import opened LegacyProcesses

  // ---------------------------------------------------------------- App aggregates

  /** The per-process quantities an application adds up. */
  datatype Field = Memory | CpuTime | CpuTimeTimestamp | CpuTimeBefore | CpuTimeBeforeTimestamp

  function Value(p: Proc, f: Field): nat
  {
    match f
    case Memory => p.memoryUsage
    case CpuTime => p.cpuTime
    case CpuTimeTimestamp => p.cpuTimeTimestamp
    case CpuTimeBefore => p.cpuTimeBefore
    case CpuTimeBeforeTimestamp => p.cpuTimeBeforeTimestamp
  }

  /** Some pid of a non-empty map. */
  ghost function Pick(m: map<int, Proc>): (pid: int)
    requires exists pid :: pid in m
    ensures pid in m
  {
    var pid :| pid in m; pid
  }

  /** The sum of `f` over the processes of a map, in any order. */
  ghost function SumOver(m: map<int, Proc>, f: Field): nat
    decreases |m.Keys|
  {
    if exists pid :: pid in m then
      var pid := Pick(m);
      assert (m - {pid}).Keys == m.Keys - {pid};
      Value(m[pid], f) + SumOver(m - {pid}, f)
    else 0
  }

  /** `checked_div(len).unwrap_or(0)`: the integer average, zero for no processes. */
  ghost function Average(m: map<int, Proc>, f: Field): (r: nat)
    ensures |m| == 0 ==> r == 0
  {
    if |m| == 0 then 0 else SumOver(m, f) / |m|
  }

  /** When every process has the same value, the sum is that value times their number. */
  lemma {:induction false} SumOfEqual(m: map<int, Proc>, f: Field, v: nat)
    requires forall pid :: pid in m ==> Value(m[pid], f) == v
    ensures SumOver(m, f) == |m| * v
    decreases |m.Keys|
  {
    if exists pid :: pid in m {
      var pid := Pick(m);
      var rest := m - {pid};
      assert rest.Keys == m.Keys - {pid};
      assert |m| == |rest| + 1;
      SumOfEqual(rest, f, v);
    } else {
      assert m.Keys == {};
    }
  }

  /** The averaged timestamps of `cpu_time_timestamp` and `cpu_time_before_timestamp` are
      the common timestamp when the processes were all sampled at the same moment. */
  lemma AverageOfEqual(m: map<int, Proc>, f: Field, v: nat)
    requires exists pid :: pid in m
    requires forall pid :: pid in m ==> Value(m[pid], f) == v
    ensures Average(m, f) == v
  {
    SumOfEqual(m, f, v);
    var pid := Pick(m);
    assert pid in m.Keys;
    var n := |m|;
    assert n > 0;
    DivOfMul(n, v);
  }

  /** Multiplication is monotone. */
  lemma MulMono(a: nat, b: nat, n: nat)
    requires a <= b
    ensures a * n <= b * n
  {
    var d := b - a;
    assert b * n == a * n + d * n;
  }

  /** Dividing a multiple of `n` by `n`. */
  lemma DivOfMul(n: nat, v: nat)
    requires n > 0
    ensures (n * v) / n == v
  {
    var a := n * v;
    var q := a / n;
    assert a == q * n + a % n && 0 <= a % n < n;
    if q < v {
      MulMono(q + 1, v, n);
    } else if q > v {
      MulMono(v + 1, q, n);
    }
  }

  /** `App::memory_usage`. */
  ghost function AppMemory(app: App): nat
  {
    SumOver(app.processes, Memory)
  }

  /** `App::cpu_time`. */
  ghost function AppCpuTime(app: App): nat
  {
    SumOver(app.processes, CpuTime)
  }

  /** `App::cpu_time_timestamp`. */
  ghost function AppCpuTimeTimestamp(app: App): nat
  {
    Average(app.processes, CpuTimeTimestamp)
  }

  /** `App::is_running`: the application holds at least one process. */
  predicate IsRunning(app: App)
  {
    app.processes != map[]
  }

  // ---------------------------------------------------------------- App::refresh

  /** The directories of an application's processes that procfs no longer has. */
  function DeadPaths(app: App, procfs: map<string, Proc>): (r: set<string>)
    ensures forall x :: x in r <==>
      (x !in procfs && exists pid :: pid in app.processes && app.processes[pid].procPath == x)
  {
    set pid | pid in app.processes && app.processes[pid].procPath !in procfs :: app.processes[pid].procPath
  }

  /** What `App::refresh` leaves: every process refreshed, then those whose directory is among
      the dead ones dropped. */
  function RefreshedApp(app: App, procfs: map<string, Proc>): (r: App)
  {
    var dead := DeadPaths(app, procfs);
    app.(processes := map pid | pid in app.processes && app.processes[pid].procPath !in dead
                                :: RefreshProc(app.processes[pid], procfs))
  }

  /** A refreshed application keeps exactly its processes that are still in procfs, each
      refreshed and alive, and its description. */
  lemma RefreshedAppKeepsLive(app: App, procfs: map<string, Proc>)
    ensures RefreshedApp(app, procfs).info == app.info
    ensures forall pid :: pid in RefreshedApp(app, procfs).processes <==>
      (pid in app.processes && app.processes[pid].procPath in procfs)
    ensures forall pid :: pid in RefreshedApp(app, procfs).processes ==>
      (RefreshedApp(app, procfs).processes[pid] == RefreshProc(app.processes[pid], procfs)
       && RefreshedApp(app, procfs).processes[pid].alive)
  {
    var dead := DeadPaths(app, procfs);
    forall pid | pid in app.processes
      ensures app.processes[pid].procPath in dead <==> app.processes[pid].procPath !in procfs
    {
    }
  }

  /** The directories collected once the processes outside `remaining` were refreshed. */
  ghost predicate DeadSoFar(dead: seq<string>, ps: map<int, Proc>, remaining: set<int>, procfs: map<string, Proc>)
  {
    forall x :: x in dead <==> (x !in procfs && exists pid :: pid in ps && pid !in remaining && ps[pid].procPath == x)
  }

  /** Refreshing one more process adds its directory when procfs no longer has it. */
  lemma DeadStep(dead: seq<string>, ps: map<int, Proc>, remaining: set<int>, procfs: map<string, Proc>, pid: int)
    requires pid in remaining && remaining <= ps.Keys && DeadSoFar(dead, ps, remaining, procfs)
    ensures var path := ps[pid].procPath;
      DeadSoFar(if path in procfs then dead else dead + [path], ps, remaining - {pid}, procfs)
  {
  }

  /** The first loop of `App::refresh`: each process refreshed (in the map's order, here any
      order) and the directories of the dead ones collected. */
  method RefreshEach(ps: map<int, Proc>, procfs: map<string, Proc>) returns (refreshed: map<int, Proc>, dead: seq<string>)
    ensures refreshed == map pid | pid in ps :: RefreshProc(ps[pid], procfs)
    ensures forall x :: x in dead <==> (x !in procfs && exists pid :: pid in ps && ps[pid].procPath == x)
  {
    refreshed := ps;
    var remaining := ps.Keys;
    dead := [];
    while exists pid :: pid in remaining
      invariant remaining <= refreshed.Keys && refreshed.Keys == ps.Keys
      invariant forall pid :: pid in remaining ==> refreshed[pid] == ps[pid]
      invariant forall pid :: pid in refreshed && pid !in remaining ==> refreshed[pid] == RefreshProc(ps[pid], procfs)
      invariant DeadSoFar(dead, ps, remaining, procfs)
      decreases remaining
    {
      var pid :| pid in remaining;
      var p := RefreshProc(refreshed[pid], procfs);
      DeadStep(dead, ps, remaining, procfs, pid);
      refreshed := refreshed[pid := p];
      if !p.alive {
        dead := dead + [p.procPath];
      }
      remaining := remaining - {pid};
    }
    ghost var spec := map pid | pid in ps :: RefreshProc(ps[pid], procfs);
    assert refreshed.Keys == spec.Keys;
    assert forall pid :: pid in refreshed ==> refreshed[pid] == spec[pid];
  }

  /** `App::refresh`: every process refreshed, then those whose directory is among the dead
      removed; the dead directories are returned. */
  method RefreshApp(app: App, procfs: map<string, Proc>) returns (r: App, dead: seq<string>)
    ensures r == RefreshedApp(app, procfs)
    ensures forall x :: x in dead <==> x in DeadPaths(app, procfs)
  {
    var processes;
    processes, dead := RefreshEach(app.processes, procfs);
    r := app.(processes := map pid | pid in processes && processes[pid].procPath !in dead :: processes[pid]);
    ghost var spec := RefreshedApp(app, procfs);
    RefreshedAppKeepsLive(app, procfs);
    forall pid | pid in processes
      ensures pid in r.processes <==> pid in spec.processes
    {
      assert processes[pid].procPath == app.processes[pid].procPath;
    }
    assert r.processes.Keys == spec.processes.Keys;
    assert forall pid :: pid in r.processes ==> r.processes[pid] == spec.processes[pid];
    assert r.processes == spec.processes;
  }

  // ---------------------------------------------------------------- Apps::refresh, step by step

  /** Every application refreshed. */
  function RefreshedApps(apps: map<string, App>, procfs: map<string, Proc>): (r: map<string, App>)
    ensures r.Keys == apps.Keys
  {
    map id | id in apps :: RefreshedApp(apps[id], procfs)
  }

  /** The directories of the dead processes of all applications. */
  function AppsDead(apps: map<string, App>, procfs: map<string, Proc>): (r: set<string>)
    ensures forall x :: x in r <==> exists id :: id in apps && x in DeadPaths(apps[id], procfs)
  {
    set id, x | id in apps && x in DeadPaths(apps[id], procfs) :: x
  }

  /** Every system process refreshed, in place. */
  function RefreshAll(ps: seq<Proc>, procfs: map<string, Proc>): (r: seq<Proc>)
    ensures |r| == |ps| && forall i :: 0 <= i < |ps| ==> r[i] == RefreshProc(ps[i], procfs)
  {
    seq(|ps|, i requires 0 <= i < |ps| => RefreshProc(ps[i], procfs))
  }

  /** The directories of the system processes found dead, in order. */
  function DeadOf(ps: seq<Proc>, procfs: map<string, Proc>): (r: seq<string>)
    ensures forall x :: x in r <==> (x !in procfs && exists i :: 0 <= i < |ps| && ps[i].procPath == x)
    decreases |ps|
  {
    if |ps| == 0 then []
    else
      var init := ps[..|ps| - 1];
      assert forall i :: 0 <= i < |init| ==> init[i] == ps[i];
      var p := ps[|ps| - 1];
      if p.procPath in procfs then DeadOf(init, procfs) else DeadOf(init, procfs) + [p.procPath]
  }

  /** `retain`: the processes whose directory is not among `dead`, in order. */
  function Retain(ps: seq<Proc>, dead: seq<string>): (r: seq<Proc>)
    ensures forall q :: q in r <==> q in ps && q.procPath !in dead
    decreases |ps|
  {
    if |ps| == 0 then []
    else
      var init := ps[..|ps| - 1];
      var p := ps[|ps| - 1];
      assert forall q :: q in ps <==> q in init || q == p;
      if p.procPath in dead then Retain(init, dead) else Retain(init, dead) + [p]
  }

  /** After their refresh the system processes are exactly the refreshed processes still in
      procfs, all alive. */
  lemma SystemRefreshKeepsLive(ps: seq<Proc>, procfs: map<string, Proc>)
    ensures var r := Retain(RefreshAll(ps, procfs), DeadOf(ps, procfs));
      forall q :: q in r <==> exists i :: 0 <= i < |ps| && ps[i].procPath in procfs && q == RefreshProc(ps[i], procfs)
    ensures forall q :: q in Retain(RefreshAll(ps, procfs), DeadOf(ps, procfs)) ==> q.alive
  {
    var refreshed := RefreshAll(ps, procfs);
    var dead := DeadOf(ps, procfs);
    forall i | 0 <= i < |ps|
      ensures refreshed[i].procPath in dead <==> ps[i].procPath !in procfs
    {
    }
  }

  /** The application and system lists and the known directories, as a value. */
  datatype Books = Books(apps: map<string, App>, system: seq<Proc>, known: seq<string>)

  /** A new directory's process goes, as read, into the application its cgroup names (with no
      portal test and no icon, unlike `Apps::new`), else to the end of the system list; the
      directory becomes known. */
  function TakeEntry(b: Books, entry: string, p: Proc): (r: Books)
    ensures r.known == b.known + [entry] && r.apps.Keys == b.apps.Keys && b.system <= r.system
  {
    var key := CgroupKey(p);
    if key in b.apps then
      b.(apps := b.apps[key := b.apps[key].(processes := b.apps[key].processes[p.pid := p])],
         known := b.known + [entry])
    else b.(system := b.system + [p], known := b.known + [entry])
  }

  /** The loop over the procfs listing: a known directory is skipped, an unreadable one stops
      the refresh with an error (what was taken so far stays), any other is taken. */
  function Scan(b: Books, entries: seq<string>, procfs: map<string, Proc>): (r: (Books, bool))
    ensures r.0.apps.Keys == b.apps.Keys
    decreases |entries|
  {
    if |entries| == 0 then (b, true)
    else if entries[0] in b.known then Scan(b, entries[1..], procfs)
    else if entries[0] !in procfs then (b, false)
    else Scan(TakeEntry(b, entries[0], procfs[entries[0]]), entries[1..], procfs)
  }

  /** The scan's bookkeeping: the known directories never repeat; after a scan without
      error every listed directory is known, and every directory that was new is in procfs. */
  lemma {:induction false} ScanBookkeeping(b: Books, entries: seq<string>, procfs: map<string, Proc>)
    requires NoDup(b.known)
    ensures NoDup(Scan(b, entries, procfs).0.known)
    ensures Scan(b, entries, procfs).1 ==> forall x :: x in entries ==> x in Scan(b, entries, procfs).0.known
    ensures Scan(b, entries, procfs).1 ==> forall x :: x in entries && x !in b.known ==> x in procfs
    decreases |entries|
  {
    if |entries| > 0 {
      var e := entries[0];
      assert forall x :: x in entries ==> x == e || x in entries[1..];
      if e in b.known {
        ScanBookkeeping(b, entries[1..], procfs);
        ScanKeeps(b, entries[1..], procfs);
      } else if e in procfs {
        var next := TakeEntry(b, e, procfs[e]);
        assert NoDup(next.known);
        ScanBookkeeping(next, entries[1..], procfs);
        ScanKeeps(next, entries[1..], procfs);
        assert e in next.known;
      }
    }
  }

  /** Where the scan puts a new process: into the application its cgroup names (under its
      pid), or else into the system list. */
  lemma {:induction false} ScanPlacesNew(b: Books, entries: seq<string>, procfs: map<string, Proc>)
    ensures var r := Scan(b, entries, procfs).0;
      forall x :: x in entries && x !in b.known && x in r.known && x in procfs && CgroupKey(procfs[x]) in b.apps ==>
        procfs[x].pid in r.apps[CgroupKey(procfs[x])].processes
    ensures var r := Scan(b, entries, procfs).0;
      forall x :: x in entries && x !in b.known && x in r.known && x in procfs && CgroupKey(procfs[x]) !in b.apps ==>
        procfs[x] in r.system
    decreases |entries|
  {
    if |entries| > 0 {
      var e := entries[0];
      ScanKeeps(b, entries, procfs);
      assert forall x :: x in entries ==> x == e || x in entries[1..];
      if e in b.known {
        ScanPlacesNew(b, entries[1..], procfs);
      } else if e in procfs {
        var p := procfs[e];
        var next := TakeEntry(b, e, p);
        var r := Scan(next, entries[1..], procfs).0;
        ScanPlacesNew(next, entries[1..], procfs);
        ScanKeeps(next, entries[1..], procfs);
        assert forall x :: x in next.known ==> x in b.known || x == e;
        if CgroupKey(p) in b.apps {
          assert p.pid in next.apps[CgroupKey(p)].processes;
        } else {
          assert next.system[|next.system| - 1] == p;
          assert r.system[|next.system| - 1] == p;
        }
      }
    }
  }

  /** The scan keeps every process already held and every directory already known. */
  lemma {:induction false} ScanKeeps(b: Books, entries: seq<string>, procfs: map<string, Proc>)
    ensures var r := Scan(b, entries, procfs).0;
      (forall id, pid :: id in b.apps && pid in b.apps[id].processes ==> pid in r.apps[id].processes)
      && b.system <= r.system && b.known <= r.known
      && (forall x :: x in r.known ==> x in b.known || x in entries)
    decreases |entries|
  {
    if |entries| > 0 {
      var e := entries[0];
      assert forall x :: x in entries[1..] ==> x in entries;
      if e in b.known {
        ScanKeeps(b, entries[1..], procfs);
      } else if e in procfs {
        ScanKeeps(TakeEntry(b, e, procfs[e]), entries[1..], procfs);
      }
    }
  }

  /** `position`: the first index holding `x`, or `|s|`. */
  function Position(s: seq<string>, x: string): (i: nat)
    ensures i <= |s| && (i < |s| ==> s[i] == x) && forall j :: 0 <= j < i ==> s[j] != x
  {
    if |s| == 0 || s[0] == x then 0 else 1 + Position(s[1..], x)
  }

  /** `swap_remove`: the last element takes index `i`'s place. */
  function SwapRemove(s: seq<string>, i: nat): (r: seq<string>)
    requires i < |s|
    ensures |r| == |s| - 1
  {
    s[i := s[|s| - 1]][..|s| - 1]
  }

  /** A dead directory's first occurrence, if any, swap-removed from the known list. */
  function Forget(known: seq<string>, x: string): seq<string>
  {
    var i := Position(known, x);
    if i < |known| then SwapRemove(known, i) else known
  }

  /** Every dead directory forgotten in turn. */
  function ForgetAll(known: seq<string>, dead: seq<string>): seq<string>
    decreases |dead|
  {
    if |dead| == 0 then known else Forget(ForgetAll(known, dead[..|dead| - 1]), dead[|dead| - 1])
  }

  /** On a list without repeats, forgetting a directory removes it and nothing else. */
  lemma ForgetRemoves(known: seq<string>, x: string)
    requires NoDup(known)
    ensures NoDup(Forget(known, x))
    ensures forall y :: y in Forget(known, x) <==> y in known && y != x
  {
    var i := Position(known, x);
    if i < |known| {
      var r := SwapRemove(known, i);
      var last := |known| - 1;
      forall y | y in known && y != x
        ensures y in r
      {
        var j :| 0 <= j < |known| && known[j] == y;
        if j == last {
          if i < last {
            assert r[i] == y;
          }
        } else {
          assert r[j] == y;
        }
      }
      forall j | 0 <= j < |r|
        ensures r[j] != x && r[j] in known
      {
        if j == i {
          assert r[j] == known[last];
        } else {
          assert r[j] == known[j];
        }
      }
    }
  }

  /** On a list without repeats, forgetting the dead directories removes exactly them. */
  lemma {:induction false} ForgetAllRemoves(known: seq<string>, dead: seq<string>)
    requires NoDup(known)
    ensures NoDup(ForgetAll(known, dead))
    ensures forall y :: y in ForgetAll(known, dead) <==> y in known && y !in dead
    decreases |dead|
  {
    if |dead| > 0 {
      var init := dead[..|dead| - 1];
      ForgetAllRemoves(known, init);
      ForgetRemoves(ForgetAll(known, init), dead[|dead| - 1]);
      assert forall y :: y in dead <==> y in init || y == dead[|dead| - 1];
    }
  }

  // ---------------------------------------------------------------- simple()

  const SystemProcessesName: string := "System Processes"
  const SystemProcessesIcon: string := "system-processes"

  /** `SimpleItem`, without the floating-point CPU ratio. */
  datatype SimpleItem = SimpleItem(
    id: Option<string>, displayName: string, icon: string, description: Option<string>,
    executable: Option<string>, memoryUsage: nat, processesAmount: nat,
    containerization: Containerization)

  /** A process `simple()` looks at for the containerization: not a bubblewrap launcher and
      with a command line. */
  predicate Counted(p: Proc)
  {
    !StartsWith(p.commandline, "bwrap") && p.commandline != ""
  }

  /** An application's item: Flatpak when every counted process is a Flatpak one. */
  ghost function ItemOf(app: App): (r: SimpleItem)
    ensures r.containerization == Flatpak <==>
      forall pid :: pid in app.processes && Counted(app.processes[pid]) ==> app.processes[pid].containerization == Flatpak
  {
    var flatpak := forall pid :: pid in app.processes && Counted(app.processes[pid]) ==> app.processes[pid].containerization == Flatpak;
    SimpleItem(AppId(app), app.info.displayName, AppIcon(app), app.info.description,
               Some(app.info.executable), AppMemory(app), |app.processes|,
               if flatpak then Flatpak else Bare)
  }

  /** The sum of the system processes' memory. */
  function SystemMemory(ps: seq<Proc>): (r: nat)
    ensures forall i :: 0 <= i < |ps| ==> ps[i].memoryUsage <= r
    decreases |ps|
  {
    if |ps| == 0 then 0 else SystemMemory(ps[..|ps| - 1]) + ps[|ps| - 1].memoryUsage
  }

  /** The final "System Processes" item. */
  function SystemItem(ps: seq<Proc>): (r: SimpleItem)
  {
    SimpleItem(None, SystemProcessesName, SystemProcessesIcon, None, None, SystemMemory(ps), |ps|, Bare)
  }

  /** The running applications among `order`, in that order. */
  function RunningIds(apps: map<string, App>, order: seq<string>): (r: seq<string>)
    ensures forall id :: id in r <==> id in order && id in apps && IsRunning(apps[id])
    decreases |order|
  {
    if |order| == 0 then []
    else
      var init := order[..|order| - 1];
      var id := order[|order| - 1];
      assert forall x :: x in order <==> x in init || x == id;
      if id in apps && IsRunning(apps[id]) then RunningIds(apps, init) + [id] else RunningIds(apps, init)
  }

  /** `Apps::simple` with the applications visited in `order` (the map's iteration order):
      the running applications' items, then the system item. */
  ghost function Simple(apps: map<string, App>, system: seq<Proc>, order: seq<string>): (r: seq<SimpleItem>)
    ensures |r| == |RunningIds(apps, order)| + 1
    ensures r[|r| - 1] == SystemItem(system)
    ensures forall i :: 0 <= i < |r| - 1 ==> r[i] == ItemOf(apps[RunningIds(apps, order)[i]])
  {
    var ids := RunningIds(apps, order);
    seq(|ids|, i requires 0 <= i < |ids| => ItemOf(apps[ids[i]])) + [SystemItem(system)]
  }

  /** One item per running application: with the map's keys listed once each, the item ids
      are those of the running applications, none twice. */
  lemma {:induction false} SimpleListsRunningOnce(apps: map<string, App>, order: seq<string>)
    requires forall i, j :: 0 <= i < j < |order| ==> order[i] != order[j]
    ensures forall i, j :: 0 <= i < j < |RunningIds(apps, order)| ==> RunningIds(apps, order)[i] != RunningIds(apps, order)[j]
    decreases |order|
  {
    if |order| > 0 {
      var init := order[..|order| - 1];
      var id := order[|order| - 1];
      forall i, j | 0 <= i < j < |init|
        ensures init[i] != init[j]
      {
        assert init[i] == order[i] && init[j] == order[j];
      }
      SimpleListsRunningOnce(apps, init);
      forall a | 0 <= a < |init|
        ensures init[a] != id
      {
        assert init[a] == order[a];
      }
    }
  }

  // ---------------------------------------------------------------- building Apps::new

  /** The loop over the desktop entries, filling the application map. */
  method BuildAppMap(infos: seq<AppInfo>) returns (m: map<string, App>)
    ensures m == AppMap(infos)
  {
    m := map[];
    for i := 0 to |infos|
      invariant m == AppMap(infos[..i])
    {
      assert infos[..i + 1][..i] == infos[..i];
      var info := infos[i];
      if info.id.Some? {
        m := m[SanitizeAppId(info.id.value) := App(map[], info)];
      }
    }
    assert infos[..|infos|] == infos;
  }

  /** `drain_filter`: the joining processes taken out in order, the rest left in order. */
  method Drain(ps: seq<Proc>, ids: set<string>) returns (system: seq<Proc>, joined: seq<Proc>)
    ensures system == SystemOf(ps, ids) && joined == JoinedOf(ps, ids)
  {
    system := [];
    joined := [];
    for i := 0 to |ps|
      invariant system == SystemOf(ps[..i], ids) && joined == JoinedOf(ps[..i], ids)
    {
      assert ps[..i + 1][..i] == ps[..i];
      if JoinsApp(ps[i], ids) {
        joined := joined + [ps[i]];
      } else {
        system := system + [ps[i]];
      }
    }
    assert ps[..|ps|] == ps;
  }

  /** The loop adding each joining process to its application. */
  method AddEach(apps: map<string, App>, ps: seq<Proc>) returns (r: map<string, App>)
    ensures r == AddAll(apps, ps)
  {
    r := apps;
    for i := 0 to |ps|
      invariant r == AddAll(apps, ps[..i])
    {
      assert ps[..i + 1][..i] == ps[..i];
      var key := CgroupKey(ps[i]);
      if key in r {
        var app := r[key];
        r := r[key := app.(processes := app.processes[ps[i].pid := ps[i].(icon := AppIcon(app))])];
      }
    }
    assert ps[..|ps|] == ps;
  }

  // ---------------------------------------------------------------- the Apps object

  class Apps {
    var apps: map<string, App>
    var systemProcesses: seq<Proc>
    var knownProcPaths: seq<string>

    /** No directory is known twice. */
    ghost predicate Valid()
      reads this
    {
      NoDup(knownProcPaths)
    }

    /** The object as a value. */
    ghost function Contents(): Books
      reads this
    {
      Books(apps, systemProcesses, knownProcPaths)
    }

    /** `Apps::new` from the desktop entries and the processes read from procfs: every
        directory is known, the joining processes are in their applications and the others
        are the system processes. */
    constructor (infos: seq<AppInfo>, processes: seq<Proc>)
      requires NoDup(Paths(processes))
      ensures Valid()
      ensures apps == AddAll(AppMap(infos), JoinedOf(processes, AppMap(infos).Keys))
      ensures systemProcesses == SystemOf(processes, AppMap(infos).Keys)
      ensures knownProcPaths == Paths(processes)
    {
      var appMap := BuildAppMap(infos);
      var known: seq<string> := [];
      for i := 0 to |processes|
        invariant known == Paths(processes[..i])
      {
        known := known + [processes[i].procPath];
      }
      assert processes[..|processes|] == processes;
      var system, joined := Drain(processes, appMap.Keys);
      appMap := AddEach(appMap, joined);
      apps := appMap;
      systemProcesses := system;
      knownProcPaths := known;
    }

    /** The application half of `Apps::refresh`: each application refreshed in turn (in the
        map's order, here any order); the directories of all dead processes returned. */
    method RefreshApps(procfs: map<string, Proc>) returns (dead: seq<string>)
      requires Valid()
      modifies this
      ensures Valid()
      ensures apps == RefreshedApps(old(apps), procfs)
      ensures forall x :: x in dead <==> x in AppsDead(old(apps), procfs)
      ensures systemProcesses == old(systemProcesses) && knownProcPaths == old(knownProcPaths)
    {
      var remaining := apps.Keys;
      ghost var start := apps;
      dead := [];
      while exists id :: id in remaining
        invariant remaining <= apps.Keys && apps.Keys == start.Keys
        invariant forall id :: id in remaining ==> apps[id] == start[id]
        invariant forall id :: id in apps && id !in remaining ==> apps[id] == RefreshedApp(start[id], procfs)
        invariant forall x :: x in dead <==> exists id :: id in start && id !in remaining && x in DeadPaths(start[id], procfs)
        invariant systemProcesses == old(systemProcesses) && knownProcPaths == old(knownProcPaths)
        decreases remaining
      {
        var id :| id in remaining;
        var refreshed, appDead := RefreshApp(apps[id], procfs);
        apps := apps[id := refreshed];
        dead := dead + appDead;
        remaining := remaining - {id};
      }
      assert forall id :: id in apps ==> apps[id] == RefreshedApp(start[id], procfs);
    }

    /** The system half of `Apps::refresh`: each system process refreshed in place, the dead
        ones' directories collected in order, then the dead ones dropped. */
    method RefreshSystem(procfs: map<string, Proc>) returns (dead: seq<string>)
      requires Valid()
      modifies this
      ensures Valid()
      ensures dead == DeadOf(old(systemProcesses), procfs)
      ensures systemProcesses == Retain(RefreshAll(old(systemProcesses), procfs), dead)
      ensures apps == old(apps) && knownProcPaths == old(knownProcPaths)
    {
      ghost var start := systemProcesses;
      var procs := systemProcesses;
      dead := [];
      for i := 0 to |procs|
        invariant |procs| == |start|
        invariant forall j :: 0 <= j < i ==> procs[j] == RefreshProc(start[j], procfs)
        invariant forall j :: i <= j < |start| ==> procs[j] == start[j]
        invariant dead == DeadOf(start[..i], procfs)
      {
        assert start[..i + 1][..i] == start[..i];
        var p := RefreshProc(procs[i], procfs);
        procs := procs[i := p];
        if !p.alive {
          dead := dead + [p.procPath];
        }
      }
      assert start[..|start|] == start;
      assert procs == RefreshAll(start, procfs);
      systemProcesses := RetainLoop(procs, dead);
    }

    /** The loop over the procfs listing; `false` is the error that ends the refresh early. */
    method ScanEntries(entries: seq<string>, procfs: map<string, Proc>) returns (ok: bool)
      requires Valid()
      modifies this
      ensures Valid()
      ensures (Contents(), ok) == Scan(old(Contents()), entries, procfs)
    {
      ScanBookkeeping(Contents(), entries, procfs);
      for i := 0 to |entries|
        invariant Scan(Contents(), entries[i..], procfs) == Scan(old(Contents()), entries, procfs)
      {
        assert entries[i..][1..] == entries[i + 1..];
        var entry := entries[i];
        if entry in knownProcPaths {
          continue;
        }
        if entry !in procfs {
          return false;
        }
        var p := procfs[entry];
        var key := CgroupKey(p);
        if key in apps {
          apps := apps[key := apps[key].(processes := apps[key].processes[p.pid := p])];
        } else {
          systemProcesses := systemProcesses + [p];
        }
        knownProcPaths := knownProcPaths + [entry];
      }
      ok := true;
    }

    /** The final loop of `Apps::refresh`: each dead directory forgotten. */
    method ForgetDead(dead: seq<string>)
      requires Valid()
      modifies this
      ensures Valid()
      ensures knownProcPaths == ForgetAll(old(knownProcPaths), dead)
      ensures apps == old(apps) && systemProcesses == old(systemProcesses)
    {
      ForgetAllRemoves(knownProcPaths, dead);
      for i := 0 to |dead|
        invariant knownProcPaths == ForgetAll(old(knownProcPaths), dead[..i])
        invariant apps == old(apps) && systemProcesses == old(systemProcesses)
      {
        assert dead[..i + 1][..i] == dead[..i];
        var pos := Position(knownProcPaths, dead[i]);
        if pos < |knownProcPaths| {
          knownProcPaths := SwapRemove(knownProcPaths, pos);
        }
      }
      assert dead[..|dead|] == dead;
    }

    /** `Apps::refresh` against a new look at procfs (`procfs`, and its listing `entries`):
        the applications and the system processes are refreshed, the new directories taken,
        and, when no new directory failed to read, the dead directories forgotten in the
        order `deadOrder` the refresh met them. */
    method Refresh(procfs: map<string, Proc>, entries: seq<string>) returns (ok: bool, ghost deadOrder: seq<string>)
      requires Valid()
      modifies this
      ensures Valid()
      ensures ok ==> forall x :: x in knownProcPaths <==>
        (x in old(knownProcPaths) || x in entries) && x !in deadOrder
      ensures var refreshed := Books(RefreshedApps(old(apps), procfs),
                                     Retain(RefreshAll(old(systemProcesses), procfs), DeadOf(old(systemProcesses), procfs)),
                                     old(knownProcPaths));
        var scanned := Scan(refreshed, entries, procfs);
        ok == scanned.1 && apps == scanned.0.apps && systemProcesses == scanned.0.system
        && knownProcPaths == if ok then ForgetAll(scanned.0.known, deadOrder) else scanned.0.known
      ensures forall x :: x in deadOrder <==>
        x in AppsDead(old(apps), procfs) || x in DeadOf(old(systemProcesses), procfs)
    {
      var deadApps := RefreshApps(procfs);
      var deadSystem := RefreshSystem(procfs);
      deadOrder := deadApps + deadSystem;
      ghost var refreshed := Contents();
      ok := ScanEntries(entries, procfs);
      if ok {
        RefreshBookkeeping(refreshed, refreshed, entries, procfs, deadOrder);
        ForgetDead(deadApps + deadSystem);
      }
    }
  }

  /** `retain` as the loop it runs. */
  method RetainLoop(ps: seq<Proc>, dead: seq<string>) returns (r: seq<Proc>)
    ensures r == Retain(ps, dead)
  {
    r := [];
    for i := 0 to |ps|
      invariant r == Retain(ps[..i], dead)
    {
      assert ps[..i + 1][..i] == ps[..i];
      if ps[i].procPath !in dead {
        r := r + [ps[i]];
      }
    }
    assert ps[..|ps|] == ps;
  }

  /** A successful refresh keeps the known directories free of repeats, and they are then
      exactly the earlier ones and the listed ones, less the dead. */
  lemma RefreshBookkeeping(before: Books, refreshed: Books, entries: seq<string>, procfs: map<string, Proc>, deadOrder: seq<string>)
    requires NoDup(before.known) && refreshed.known == before.known
    requires Scan(refreshed, entries, procfs).1
    ensures var known := ForgetAll(Scan(refreshed, entries, procfs).0.known, deadOrder);
      NoDup(known) && forall x :: x in known <==> (x in before.known || x in entries) && x !in deadOrder
  {
    ScanBookkeeping(refreshed, entries, procfs);
    ScanKeeps(refreshed, entries, procfs);
    ForgetAllRemoves(Scan(refreshed, entries, procfs).0.known, deadOrder);
  }
}

/** The older process bookkeeping (src/utils/processes.rs): processes read from procfs are
    grouped into installed applications by the application id found in their cgroup, the
    rest are system processes, and a refresh drops the dead ones and picks up new procfs
    entries. */
module LegacyProcesses {
  import opened Wrappers
  import opened Text
  import Names = Process

  // ---------------------------------------------------------------- cgroups and ids

  const CgroupV2Prefix: string := "0::"
  const ScopeSuffix: string := ".scope"
  const ServiceSuffix: string := ".service"
  const DbusMarker: string := "dbus-:"
  const DesktopSuffix: string := ".desktop"
  const PortalPrefix: string := "xdg-desktop-portal"

  /** Index of the first line starting with `p`, or `|lines|` when there is none. */
  function FirstWithPrefix(lines: seq<string>, p: string, from: nat): (i: nat)
    requires from <= |lines|
    ensures from <= i <= |lines|
    ensures i < |lines| ==> StartsWith(lines[i], p)
    ensures forall j :: from <= j < i ==> !StartsWith(lines[j], p)
    decreases |lines| - from
  {
    if from == |lines| then from
    else if StartsWith(lines[from], p) then from
    else FirstWithPrefix(lines, p, from + 1)
  }

  /** `unescape::unescape(s).unwrap_or(s)`, with the unescaping engine as a parameter. */
  function Unescaped(unescape: string -> Option<string>, s: string): string
  {
    unescape(s).UnwrapOr(s)
  }

  /** The application id of a `.service` unit: the unit name without its suffix, cut at '@',
      unescaped, and for a D-Bus activated unit the part after its last '-'. */
  function ServiceName(unescape: string -> Option<string>, line: string): (r: string)
    requires EndsWith(line, ServiceSuffix)
  {
    var segments := Split(line, {'/'});
    var last := segments[|segments| - 1];
    LastSegmentIsUnit(line);
    DbusCut(Unescaped(unescape, Split(last[..|last| - 8], {'@'})[0]))
  }

  /** A D-Bus activated unit name is cut to the part after its last '-'. */
  function DbusCut(name: string): string
  {
    if Contains(name, DbusMarker) then
      var parts := Split(name, {'-'});
      parts[|parts| - 1]
    else name
  }

  /** The last '/'-segment of a line ending in ".service" holds the whole suffix, so cutting
      the suffix off never goes out of bounds. */
  lemma LastSegmentIsUnit(line: string)
    requires EndsWith(line, ServiceSuffix)
    ensures var segments := Split(line, {'/'});
      EndsWith(segments[|segments| - 1], ServiceSuffix)
  {
    SplitLastPiece(line, {'/'});
    var segments := Split(line, {'/'});
    var last := segments[|segments| - 1];
    LongLastSegment(line, last);
    SuffixOfSuffix(line, last, ServiceSuffix);
  }

  /** The text after the last '/' of a unit line holds the whole suffix, which has no '/'. */
  lemma LongLastSegment(line: string, last: string)
    requires EndsWith(line, ServiceSuffix) && EndsWith(line, last)
    requires |last| < |line| ==> line[|line| - |last| - 1] in {'/'}
    ensures |last| >= |ServiceSuffix|
  {
  }

  /** A suffix of a text that is no longer than another suffix of it ends that one too. */
  lemma SuffixOfSuffix(s: string, longer: string, p: string)
    requires EndsWith(s, longer) && EndsWith(s, p) && |p| <= |longer|
    ensures EndsWith(longer, p)
  {
    assert s[|s| - |p|..] == longer[|longer| - |p|..];
  }

  /** `Process::sanitize_cgroup`: the application id in the first cgroup v2 line. A scope
      yields its second-to-last '-'-separated segment, a service its unit name; anything
      else, or no cgroup v2 line at all, yields nothing. */
  function SanitizeCgroup(unescape: string -> Option<string>, cgroup: string): (r: Option<string>)
    ensures (forall l :: l in Split(cgroup, {'\n'}) ==> !StartsWith(l, CgroupV2Prefix)) ==> r.None?
  {
    var lines := Split(cgroup, {'\n'});
    var i := FirstWithPrefix(lines, CgroupV2Prefix, 0);
    if i == |lines| then None else UnitName(unescape, lines[i])
  }

  /** The application id named by a cgroup v2 line. */
  function UnitName(unescape: string -> Option<string>, line: string): (r: Option<string>)
    ensures !EndsWith(line, ScopeSuffix) && !EndsWith(line, ServiceSuffix) ==> r.None?
  {
    if EndsWith(line, ScopeSuffix) then
      var segments := Split(line, {'-'});
      if |segments| > 1 then Some(Unescaped(unescape, segments[|segments| - 2])) else None
    else if EndsWith(line, ServiceSuffix) then Some(ServiceName(unescape, line))
    else None
  }

  /** Whatever precedes a separator, the pieces of what follows it end the split. */
  lemma {:induction false} SplitEndsWithTail(a: string, x: char, rest: string, seps: set<char>)
    requires x in seps
    ensures var p := Split(a + [x] + rest, seps); var q := Split(rest, seps);
      |p| > |q| && p[|p| - |q|..] == q
    decreases |a|
  {
    var s := a + [x] + rest;
    if |a| == 0 {
      assert s[0] == x && s[1..] == rest;
    } else {
      assert s[1..] == a[1..] + [x] + rest;
      SplitEndsWithTail(a[1..], x, rest, seps);
      var tail := Split(s[1..], seps);
      var q := Split(rest, seps);
      if s[0] !in seps {
        assert Split(s, seps)[1..] == tail[1..];
      }
      assert Split(s, seps)[|Split(s, seps)| - |q|..] == tail[|tail| - |q|..];
    }
  }

  /** A scope unit `…-<name>-<tail>.scope` (as systemd names application scopes) yields the
      unescaped `<name>`. */
  lemma ScopeYieldsName(unescape: string -> Option<string>, head: string, name: string, tail: string)
    requires NoneOf(name, {'-'}) && NoneOf(tail, {'-'}) && EndsWith(tail, ScopeSuffix)
    ensures UnitName(unescape, head + "-" + name + "-" + tail) == Some(Unescaped(unescape, name))
  {
    ScopeSegments(head, name, tail);
    ScopeLineEnds(head, name, tail);
  }

  /** The last two '-'-segments of such a line are the name and the tail. */
  lemma ScopeSegments(head: string, name: string, tail: string)
    requires NoneOf(name, {'-'}) && NoneOf(tail, {'-'})
    ensures var s := Split(head + "-" + name + "-" + tail, {'-'}); |s| > 1 && s[|s| - 2] == name
  {
    var rest := name + ['-'] + tail;
    TwoSegments(name, tail);
    assert head + "-" + name + "-" + tail == head + ['-'] + rest;
    LastTwoSegments(head, rest, name, tail);
  }

  /** A name and a tail free of '-' joined by one '-' are two segments. */
  lemma TwoSegments(name: string, tail: string)
    requires NoneOf(name, {'-'}) && NoneOf(tail, {'-'})
    ensures Split(name + ['-'] + tail, {'-'}) == [name, tail]
  {
    SplitAfterPiece(name, '-', tail, {'-'});
    SplitPlain(tail, {'-'});
  }

  /** The segments of the text after a '-' end the segments of the whole. */
  lemma LastTwoSegments(head: string, rest: string, name: string, tail: string)
    requires Split(rest, {'-'}) == [name, tail]
    ensures var s := Split(head + ['-'] + rest, {'-'}); |s| > 1 && s[|s| - 2] == name
  {
    SplitEndsWithTail(head, '-', rest, {'-'});
    var p := Split(head + ['-'] + rest, {'-'});
    assert p[|p| - 2] == p[|p| - 2..][0];
  }

  /** Such a line ends as its tail does. */
  lemma ScopeLineEnds(head: string, name: string, tail: string)
    requires EndsWith(tail, ScopeSuffix)
    ensures EndsWith(head + "-" + name + "-" + tail, ScopeSuffix)
  {
    var line := head + "-" + name + "-" + tail;
    assert line[|line| - |tail|..] == tail;
    assert line[|line| - |ScopeSuffix|..] == tail[|tail| - |ScopeSuffix|..];
  }

  /** A service unit `…/<name>[@<instance>].service` yields the unescaped `<name>`, cut
      further when it names a D-Bus activated unit. */
  lemma ServiceYieldsName(unescape: string -> Option<string>, head: string, name: string, instance: string)
    requires NoneOf(name, {'/', '@'}) && NoneOf(instance, {'/'})
    requires instance == "" || instance[0] == '@'
    ensures UnitName(unescape, head + "/" + name + instance + ServiceSuffix) == Some(DbusCut(Unescaped(unescape, name)))
  {
    var unit := name + instance + ServiceSuffix;
    var line := head + "/" + name + instance + ServiceSuffix;
    assert line == head + ['/'] + unit;
    UnitIsLastSegment(head, name, instance);
    ServiceIsNotScope(line);
    assert unit[..|unit| - 8] == name + instance;
    InstanceCut(name, instance);
  }

  /** A D-Bus activated unit name keeps the part after its last '-'. */
  lemma DbusCutLastPart(prefix: string, last: string)
    requires NoneOf(last, {'-'})
    ensures Contains(prefix, DbusMarker) ==> DbusCut(prefix + "-" + last) == last
  {
    if Contains(prefix, DbusMarker) {
      ContainsExtends(prefix, "-" + last, DbusMarker);
      assert prefix + ("-" + last) == prefix + "-" + last == prefix + ['-'] + last;
      SplitLast(prefix, '-', last, {'-'});
    }
  }

  lemma ContainsExtends(a: string, b: string, p: string)
    requires Contains(a, p)
    ensures Contains(a + b, p)
  {
    var i :| 0 <= i <= |a| && StartsWith(a[i..], p);
    assert (a + b)[i..][..|p|] == a[i..][..|p|];
  }

  lemma UnitIsLastSegment(head: string, name: string, instance: string)
    requires NoneOf(name, {'/', '@'}) && NoneOf(instance, {'/'})
    ensures var segments := Split(head + ['/'] + (name + instance + ServiceSuffix), {'/'});
      segments[|segments| - 1] == name + instance + ServiceSuffix
  {
    var unit := name + instance + ServiceSuffix;
    assert NoneOf(unit, {'/'}) by {
      forall i | 0 <= i < |unit| ensures unit[i] != '/' {
        if i < |name| { assert unit[i] == name[i]; }
        else if i < |name| + |instance| { assert unit[i] == instance[i - |name|]; }
        else { assert unit[i] == ServiceSuffix[i - |name| - |instance|]; }
      }
    }
    SplitLast(head, '/', unit, {'/'});
  }

  lemma ServiceIsNotScope(line: string)
    requires EndsWith(line, ServiceSuffix)
    ensures !EndsWith(line, ScopeSuffix)
  {
    assert line[|line| - 6] == line[|line| - 8..][2] == 'e';
  }

  lemma InstanceCut(name: string, instance: string)
    requires NoneOf(name, {'/', '@'})
    requires instance == "" || instance[0] == '@'
    ensures Split(name + instance, {'@'})[0] == name
  {
    assert NoneOf(name, {'@'});
    if instance == "" {
      assert name + instance == name;
      SplitPlain(name, {'@'});
    } else {
      assert name + instance == name + ['@'] + instance[1..];
      SplitAfterPiece(name, '@', instance[1..], {'@'});
    }
  }

  /** The cgroup text is read from its first cgroup v2 line on. */
  lemma SanitizeFirstLine(unescape: string -> Option<string>, before: string, line: string)
    requires StartsWith(line, CgroupV2Prefix) && '\n' !in line
    requires forall l :: l in Split(before, {'\n'}) ==> !StartsWith(l, CgroupV2Prefix)
    ensures SanitizeCgroup(unescape, before + "\n" + line) == UnitName(unescape, line)
  {
    FirstLine(before, line);
  }

  /** The first cgroup v2 line is the line after text that has none. */
  lemma FirstLine(before: string, line: string)
    requires StartsWith(line, CgroupV2Prefix) && '\n' !in line
    requires forall l :: l in Split(before, {'\n'}) ==> !StartsWith(l, CgroupV2Prefix)
    ensures var lines := Split(before + "\n" + line, {'\n'});
      var i := FirstWithPrefix(lines, CgroupV2Prefix, 0);
      i < |lines| && lines[i] == line
  {
    SplitJoinPieces(before, line);
    var lines := Split(before + "\n" + line, {'\n'});
    var i := FirstWithPrefix(lines, CgroupV2Prefix, 0);
    assert StartsWith(lines[|lines| - 1], CgroupV2Prefix);
  }

  /** Splitting `before + "\n" + line` gives the pieces of `before`, then `line`. */
  lemma SplitJoinPieces(before: string, line: string)
    requires NoneOf(line, {'\n'})
    ensures Split(before + "\n" + line, {'\n'}) == Split(before, {'\n'}) + [line]
  {
    AppendPiece(before, '\n', line, {'\n'});
  }

  /** A separator followed by a separator-free piece adds that piece at the end. */
  lemma {:induction false} AppendPiece(a: string, x: char, rest: string, seps: set<char>)
    requires x in seps && NoneOf(rest, seps)
    ensures Split(a + [x] + rest, seps) == Split(a, seps) + [rest]
    decreases |a|
  {
    var s := a + [x] + rest;
    if |a| == 0 {
      assert s[1..] == rest;
      SplitPlain(rest, seps);
    } else {
      assert s[1..] == a[1..] + [x] + rest;
      AppendPiece(a[1..], x, rest, seps);
      var t := Split(a[1..], seps);
      if a[0] !in seps {
        assert Split(s, seps) == [[a[0]] + (t + [rest])[0]] + (t + [rest])[1..];
        assert (t + [rest])[1..] == t[1..] + [rest];
      }
    }
  }

  /** `Apps::sanitize_appid`: one trailing ".desktop" is cut off; other ids are kept. */
  function SanitizeAppId(a: string): (r: string)
    ensures EndsWith(a, DesktopSuffix) ==> a == r + DesktopSuffix
    ensures !EndsWith(a, DesktopSuffix) ==> r == a
  {
    if EndsWith(a, DesktopSuffix) then a[..|a| - 8] else a
  }

  /** Exactly one suffix is removed: an id stored with ".desktop" appended comes back. */
  lemma SanitizeAppIdStripsOne(id: string)
    ensures SanitizeAppId(id + DesktopSuffix) == id
  {
    assert (id + DesktopSuffix)[|id|..] == DesktopSuffix;
  }

  // ---------------------------------------------------------------- processes and applications

  /** This revision's containerization: Flatpak or none. */
  datatype Containerization = Bare | Flatpak

  /** A process read from its procfs directory `procPath`. */
  datatype Proc = Proc(
    pid: int, uid: nat, procPath: string, comm: string, commandline: string,
    cpuTime: nat, cpuTimeTimestamp: nat, cpuTimeBefore: nat, cpuTimeBeforeTimestamp: nat,
    memoryUsage: nat, cgroup: Option<string>, alive: bool, containerization: Containerization,
    icon: string)

  /** What the desktop environment reports about an installed application. */
  datatype AppInfo = AppInfo(
    id: Option<string>, displayName: string, description: Option<string>, icon: Option<string>,
    executable: string)

  /** An installed application and its processes by pid. */
  datatype App = App(processes: map<int, Proc>, info: AppInfo)

  const GenericProcessIcon: string := "generic-process"
  const ShellId: string := "org.gnome.Shell"
  const ShellIcon: string := "shell"

  /** `App::id`: the desktop id without its ".desktop" suffix. */
  function AppId(app: App): (r: Option<string>)
    ensures r.None? <==> app.info.id.None?
    ensures r.Some? ==> r.value == SanitizeAppId(app.info.id.value)
  {
    match app.info.id
    case None => None
    case Some(id) => Some(SanitizeAppId(id))
  }

  /** `App::icon`: GNOME Shell gets the "shell" icon, others their own or the generic one. */
  function AppIcon(app: App): (r: string)
    ensures AppId(app) == Some(ShellId) ==> r == ShellIcon
    ensures AppId(app) != Some(ShellId) && app.info.icon.Some? ==> r == app.info.icon.value
    ensures AppId(app) != Some(ShellId) && app.info.icon.None? ==> r == GenericProcessIcon
  {
    if AppId(app) == Some(ShellId) then ShellIcon else app.info.icon.UnwrapOr(GenericProcessIcon)
  }

  /** The key a process is looked up under: its cgroup id, or the empty string. */
  function CgroupKey(p: Proc): string
  {
    p.cgroup.UnwrapOr("")
  }

  /** `Apps::new`'s partition test: the process's cgroup names a known application that is
      not a desktop portal (a process without a cgroup is looked up under the empty id). */
  predicate JoinsApp(p: Proc, ids: set<string>)
  {
    (p.cgroup.None? || !StartsWith(p.cgroup.value, PortalPrefix)) && CgroupKey(p) in ids
  }

  /** `Process::refresh` against the procfs contents `procfs` (directory -> what reading it
      gives): a readable process rolls its CPU-time baseline and takes the new CPU time,
      timestamp and memory; an unreadable one is dead. */
  function RefreshProc(p: Proc, procfs: map<string, Proc>): (r: Proc)
    ensures r.alive <==> p.procPath in procfs
    ensures r.pid == p.pid && r.procPath == p.procPath && r.cgroup == p.cgroup
    ensures r.alive ==> (r.cpuTimeBefore == p.cpuTime && r.cpuTimeBeforeTimestamp == p.cpuTimeTimestamp
                         && r.cpuTime == procfs[p.procPath].cpuTime && r.memoryUsage == procfs[p.procPath].memoryUsage)
  {
    if p.procPath in procfs then
      var sample := procfs[p.procPath];
      p.(cpuTimeBefore := p.cpuTime, cpuTimeBeforeTimestamp := p.cpuTimeTimestamp,
         cpuTime := sample.cpuTime, cpuTimeTimestamp := sample.cpuTimeTimestamp,
         memoryUsage := sample.memoryUsage, alive := true)
    else p.(alive := false)
  }

  /** The procfs directories of some processes, in order. */
  function Paths(ps: seq<Proc>): (r: seq<string>)
    ensures |r| == |ps| && forall i :: 0 <= i < |ps| ==> r[i] == ps[i].procPath
  {
    seq(|ps|, i requires 0 <= i < |ps| => ps[i].procPath)
  }

  /** No directory is listed twice. */
  predicate NoDup(s: seq<string>)
  {
    forall i, j :: 0 <= i < j < |s| ==> s[i] != s[j]
  }

  /** The applications by id, the later desktop entry winning for a repeated id; entries
      without an id are skipped. */
  function AppMap(infos: seq<AppInfo>): (r: map<string, App>)
    ensures forall id :: id in r ==> (r[id].processes == map[] && r[id].info in infos
                                      && AppId(r[id]) == Some(id))
    ensures forall i :: 0 <= i < |infos| && infos[i].id.Some? ==> SanitizeAppId(infos[i].id.value) in r
    decreases |infos|
  {
    if |infos| == 0 then map[]
    else
      var init := AppMap(infos[..|infos| - 1]);
      var info := infos[|infos| - 1];
      assert forall i :: 0 <= i < |infos| - 1 ==> infos[..|infos| - 1][i] == infos[i];
      match info.id
      case None => init
      case Some(id) => init[SanitizeAppId(id) := App(map[], info)]
  }

  /** The processes `drain_filter` leaves behind: the system processes, in order. */
  function SystemOf(ps: seq<Proc>, ids: set<string>): (r: seq<Proc>)
    ensures forall q :: q in r <==> q in ps && !JoinsApp(q, ids)
    decreases |ps|
  {
    if |ps| == 0 then []
    else
      var init := SystemOf(ps[..|ps| - 1], ids);
      var p := ps[|ps| - 1];
      assert forall q :: q in ps <==> q in ps[..|ps| - 1] || q == p;
      if JoinsApp(p, ids) then init else init + [p]
  }

  /** The processes `drain_filter` takes out: those joining an application, in order. */
  function JoinedOf(ps: seq<Proc>, ids: set<string>): (r: seq<Proc>)
    ensures forall q :: q in r <==> q in ps && JoinsApp(q, ids)
    decreases |ps|
  {
    if |ps| == 0 then []
    else
      var init := JoinedOf(ps[..|ps| - 1], ids);
      var p := ps[|ps| - 1];
      assert forall q :: q in ps <==> q in ps[..|ps| - 1] || q == p;
      if JoinsApp(p, ids) then init + [p] else init
  }

  /** The icon depends on the application's description only. */
  lemma IconFollowsInfo(a: App, b: App)
    requires a.info == b.info
    ensures AppIcon(a) == AppIcon(b)
  {
  }

  /** `add_process`: a process whose application is known takes the application's icon and
      is stored in it under its pid; any other process is dropped. */
  function Add(apps: map<string, App>, p: Proc): (r: map<string, App>)
    ensures r.Keys == apps.Keys
    ensures forall id :: id in r ==> r[id].info == apps[id].info
    ensures forall id :: id in r && id != CgroupKey(p) ==> r[id] == apps[id]
    ensures CgroupKey(p) in apps ==>
      r[CgroupKey(p)].processes == apps[CgroupKey(p)].processes[p.pid := p.(icon := AppIcon(apps[CgroupKey(p)]))]
  {
    if CgroupKey(p) in apps then
      var app := apps[CgroupKey(p)];
      apps[CgroupKey(p) := app.(processes := app.processes[p.pid := p.(icon := AppIcon(app))])]
    else apps
  }

  /** `add_process` on each process in turn. */
  function AddAll(apps: map<string, App>, ps: seq<Proc>): (r: map<string, App>)
    ensures r.Keys == apps.Keys
    ensures forall id :: id in r ==> r[id].info == apps[id].info
    decreases |ps|
  {
    if |ps| == 0 then apps
    else Add(AddAll(apps, ps[..|ps| - 1]), ps[|ps| - 1])
  }

  /** Pids are distinct. */
  predicate DistinctPids(ps: seq<Proc>)
  {
    forall i, j :: 0 <= i < j < |ps| ==> ps[i].pid != ps[j].pid
  }

  /** One more process for the partition: it goes to its application when it joins one. */
  lemma JoinedSnoc(apps: map<string, App>, init: seq<Proc>, p: Proc)
    ensures AddAll(apps, JoinedOf(init + [p], apps.Keys))
      == if JoinsApp(p, apps.Keys) then Add(AddAll(apps, JoinedOf(init, apps.Keys)), p)
         else AddAll(apps, JoinedOf(init, apps.Keys))
  {
    var ps := init + [p];
    assert ps[..|ps| - 1] == init;
    var j0 := JoinedOf(init, apps.Keys);
    var j := JoinedOf(ps, apps.Keys);
    if JoinsApp(p, apps.Keys) {
      assert j == j0 + [p];
      assert j[..|j| - 1] == j0;
      assert AddAll(apps, j) == Add(AddAll(apps, j0), p);
    } else {
      assert j == j0;
    }
  }

  /** Every process that joins an application is stored in it under its pid, with the
      application's icon, when pids are distinct. */
  lemma {:induction false} PartitionStoresJoined(apps: map<string, App>, ps: seq<Proc>)
    requires DistinctPids(ps)
    ensures var r := AddAll(apps, JoinedOf(ps, apps.Keys));
      forall q :: q in ps && JoinsApp(q, apps.Keys) ==>
        (q.pid in r[CgroupKey(q)].processes && r[CgroupKey(q)].processes[q.pid] == q.(icon := AppIcon(apps[CgroupKey(q)])))
    decreases |ps|
  {
    if |ps| > 0 {
      var init := ps[..|ps| - 1];
      var p := ps[|ps| - 1];
      assert ps == init + [p];
      LastPidIsNew(ps);
      PartitionStoresJoined(apps, init);
      JoinedSnoc(apps, init, p);
      var r0 := AddAll(apps, JoinedOf(init, apps.Keys));
      forall q | q in ps && JoinsApp(q, apps.Keys)
        ensures var r := AddAll(apps, JoinedOf(ps, apps.Keys));
          q.pid in r[CgroupKey(q)].processes && r[CgroupKey(q)].processes[q.pid] == q.(icon := AppIcon(apps[CgroupKey(q)]))
      {
        if q == p {
          IconFollowsInfo(r0[CgroupKey(q)], apps[CgroupKey(q)]);
        } else {
          assert q in init;
          if JoinsApp(p, apps.Keys) {
            AddKeepsOthers(r0, p, CgroupKey(q), q.pid);
          }
        }
      }
    }
  }

  /** The last process's pid is not among the earlier ones'. */
  lemma LastPidIsNew(ps: seq<Proc>)
    requires DistinctPids(ps) && |ps| > 0
    ensures DistinctPids(ps[..|ps| - 1])
    ensures forall q :: q in ps[..|ps| - 1] ==> q.pid != ps[|ps| - 1].pid
    ensures forall q :: q in ps ==> q in ps[..|ps| - 1] || q == ps[|ps| - 1]
  {
    var init := ps[..|ps| - 1];
    forall q | q in init
      ensures q.pid != ps[|ps| - 1].pid
    {
      var i :| 0 <= i < |init| && init[i] == q;
      assert ps[i] == q;
    }
    assert ps == init + [ps[|ps| - 1]];
  }

  /** Adding a process leaves every other entry of every application as it was. */
  lemma AddKeepsOthers(apps: map<string, App>, p: Proc, id: string, pid: int)
    requires id in apps && pid != p.pid
    ensures pid in Add(apps, p)[id].processes <==> pid in apps[id].processes
    ensures pid in apps[id].processes ==> Add(apps, p)[id].processes[pid] == apps[id].processes[pid]
  {
  }

  /** Every process an application holds after the partition and was not holding before is
      one of the processes that join it. */
  lemma {:induction false} PartitionAddsOnlyJoined(apps: map<string, App>, ps: seq<Proc>)
    ensures var r := AddAll(apps, JoinedOf(ps, apps.Keys));
      forall id, pid :: id in apps && pid in r[id].processes && pid !in apps[id].processes ==>
        exists q :: q in ps && JoinsApp(q, apps.Keys) && CgroupKey(q) == id && q.pid == pid
    decreases |ps|
  {
    if |ps| > 0 {
      var init := ps[..|ps| - 1];
      var p := ps[|ps| - 1];
      assert ps == init + [p];
      PartitionAddsOnlyJoined(apps, init);
      JoinedSnoc(apps, init, p);
      assert forall q :: q in init ==> q in ps;
    }
  }
}

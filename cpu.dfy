/** The processor readings (src/utils/cpu.rs): the line of /proc/stat for all cores or for
    one, the idle and total times on it, the current frequency of a core, and the number of
    physical cores from `lscpu`. File and command output are parameters. Unchecked `u64` and
    `usize` arithmetic wraps around, as in a release build. */
module Cpu {
  import opened Wrappers
  import opened Text
  import Counters
  import I18n

  /** How a call ends: with a value, with an `Err`, or with a panic. */
  datatype Outcome<T, E> = Value(value: T) | Error(error: E) | Panic

  /** The errors `parse_proc_stat_line` returns. */
  datatype StatError = RegexFailed | NoIdleTime | NoIowaitTime

  // ---------------------------------------------------------------- get_proc_stat

  predicate IsCpuLine(line: string)
  {
    StartsWith(line, "cpu")
  }

  /** The lines that `retain` keeps: those starting with "cpu", in their order. */
  function CpuLines(lines: seq<string>): (r: seq<string>)
    ensures |r| <= |lines|
    ensures forall i :: 0 <= i < |r| ==> IsCpuLine(r[i])
    decreases |lines|
  {
    if |lines| == 0 then []
    else CpuLines(lines[..|lines| - 1]) + (if IsCpuLine(lines[|lines| - 1]) then [lines[|lines| - 1]] else [])
  }

  /** `retain` keeps exactly the lines starting with "cpu". */
  lemma {:induction false} CpuLinesKeepsExactly(lines: seq<string>, x: string)
    ensures x in CpuLines(lines) <==> x in lines && IsCpuLine(x)
    decreases |lines|
  {
    if |lines| > 0 {
      CpuLinesKeepsExactly(lines[..|lines| - 1], x);
      assert lines == lines[..|lines| - 1] + [lines[|lines| - 1]];
    }
  }

  /** `retain` keeps the order: the lines kept from two blocks are those of the first
      followed by those of the second. */
  lemma {:induction false} CpuLinesOfAppend(a: seq<string>, b: seq<string>)
    ensures CpuLines(a + b) == CpuLines(a) + CpuLines(b)
    decreases |b|
  {
    if |b| == 0 {
      assert a + b == a;
    } else {
      CpuLinesOfAppend(a, b[..|b| - 1]);
      assert (a + b)[..|a + b| - 1] == a + b[..|b| - 1];
    }
  }

  /** `Vec::retain` on the lines: the kept lines are moved to the front in order, and the
      new length is returned. */
  method RetainCpuLines(a: array<string>) returns (len: nat)
    modifies a
    ensures len <= a.Length
    ensures a[..len] == CpuLines(old(a[..]))
  {
    ghost var lines := a[..];
    len := 0;
    var i := 0;
    while i < a.Length
      invariant len <= i <= a.Length
      invariant a[..len] == CpuLines(lines[..i])
      invariant a[i..] == lines[i..]
    {
      assert lines[..i + 1][..i] == lines[..i];
      var line := a[i];
      assert line == lines[i];
      if StartsWith(line, "cpu") {
        a[len] := line;
        len := len + 1;
      }
      i := i + 1;
    }
    assert lines[..a.Length] == lines;
  }

  /** The index of the selected line: 0 for all cores, `core + 1` for one core. */
  function SelectedLine(core: Option<nat>): (r: nat)
    ensures core.None? ==> r == 0
    ensures core.Some? ==> r == core.value + 1
  {
    match core
    case None => 0
    case Some(x) => x + 1
  }

  /** `get_proc_stat` as written: the guard lets the index one past the last line through,
      and indexing there panics. */
  function ProcStatLineAsWritten(procStat: string, core: Option<nat>): (r: Outcome<string, string>)
  {
    var lines := CpuLines(SplitStr(procStat, "\n"));
    var selected := SelectedLine(core);
    if selected > |lines| then Error("`core` argument greater than amount of cores")
    else if selected == |lines| then Panic
    else Value(lines[selected])
  }

  /** `get_proc_stat` with the guard the comment describes: an index past the last line
      is an error. */
  function ProcStatLine(procStat: string, core: Option<nat>): (r: Result<string, string>)
    ensures var lines := CpuLines(SplitStr(procStat, "\n"));
      (r.Ok? <==> SelectedLine(core) < |lines|) &&
      (r.Ok? ==> r.value == lines[SelectedLine(core)] && IsCpuLine(r.value))
  {
    var lines := CpuLines(SplitStr(procStat, "\n"));
    var selected := SelectedLine(core);
    if selected >= |lines| then Err("`core` argument greater than amount of cores")
    else Ok(lines[selected])
  }

  /** The two agree everywhere except at the index one past the last line. */
  lemma ProcStatLineAgrees(procStat: string, core: Option<nat>)
    ensures SelectedLine(core) != |CpuLines(SplitStr(procStat, "\n"))| ==>
      (ProcStatLine(procStat, core).Ok? <==> ProcStatLineAsWritten(procStat, core).Value?)
    ensures ProcStatLineAsWritten(procStat, core).Value? ==>
      ProcStatLine(procStat, core) == Ok(ProcStatLineAsWritten(procStat, core).value)
    ensures ProcStatLineAsWritten(procStat, core) == Panic <==>
      SelectedLine(core) == |CpuLines(SplitStr(procStat, "\n"))|
  {
  }

  /** On a machine whose /proc/stat holds only the summary line, asking for core 0 passes
      the guard and panics instead of returning an error. */
  lemma ProcStatLineAsWrittenPanics()
    ensures ProcStatLineAsWritten("cpu 1", Some(0)) == Panic
    ensures ProcStatLine("cpu 1", Some(0)).Err?
  {
    var s := "cpu 1";
    assert IsCpuLine(s);
    NotContainsWithoutChar(s, "\n", 0);
    SplitStrNoMatch(s, "\n");
    assert CpuLines([s]) == CpuLines([][..0]) + [s];
  }

  /** /proc/stat written out as lines: all cores is the first "cpu" line, core `i` the one
      after the first `i + 1`. */
  lemma ProcStatLineSelects(lines: seq<string>, core: Option<nat>)
    requires |lines| >= 1
    requires forall i :: 0 <= i < |lines| ==> '\n' !in lines[i]
    ensures var cpu := CpuLines(lines);
      ProcStatLine(I18n.JoinStr(lines, "\n"), core) ==
        if SelectedLine(core) < |cpu| then Ok(cpu[SelectedLine(core)]) else Err("`core` argument greater than amount of cores")
  {
    I18n.SplitJoinStr(lines, "\n");
  }

  // ---------------------------------------------------------------- parse_proc_stat_line

  /** Where the first "cpu" starts: the regular expression can match from any "cpu", and the
      leftmost match wins. */
  function FindCpu(s: string): (r: Option<nat>)
    ensures r.Some? ==> r.value + 3 <= |s| && StartsWith(s[r.value..], "cpu")
    ensures r.Some? ==> forall j :: 0 <= j < r.value ==> !StartsWith(s[j..], "cpu")
    ensures r.None? <==> !Contains(s, "cpu")
    decreases |s|
  {
    if |s| < 3 then None
    else if s[..3] == "cpu" then assert s[0..] == s; Some(0)
    else
      assert forall j :: 1 <= j <= |s| ==> s[j..] == s[1..][j - 1..];
      assert !StartsWith(s[0..], "cpu") by { assert s[0..] == s; }
      match FindCpu(s[1..])
      case None => None
      case Some(k) => Some(k + 1)
  }

  lemma FindCpuAtStart(s: string)
    requires StartsWith(s, "cpu")
    ensures FindCpu(s) == Some(0)
  {
  }

  /** The length of the leading run of spaces, ` *`. */
  function SpaceRun(s: string): (n: nat)
    ensures n <= |s|
    decreases |s|
  {
    if |s| > 0 && s[0] == ' ' then 1 + SpaceRun(s[1..]) else 0
  }

  /** The length of the leading run of digits, `[0-9]*`. */
  function DigitRun(s: string): (n: nat)
    ensures n <= |s|
    decreases |s|
  {
    if |s| > 0 && IsDecDigit(s[0]) then 1 + DigitRun(s[1..]) else 0
  }

  /** The next `n` groups ` *([0-9]*)`: each skips spaces and takes the digits after them,
      possibly none. */
  function Groups(s: string, n: nat): (r: seq<string>)
    ensures |r| == n
  {
    if n == 0 then []
    else
      var g := NextGroup(s);
      [g.0] + Groups(g.1, n - 1)
  }

  /** One group ` *([0-9]*)`: the digits after the leading spaces, and what follows them. */
  function NextGroup(s: string): (r: (string, string))
  {
    var t := s[SpaceRun(s)..];
    var d := DigitRun(t);
    (t[..d], t[d..])
  }

  /** The number of fields on a /proc/stat line the regular expression captures. */
  const FieldCount: nat := 10

  /** The ten captures of `cpu[0-9]* *(?P<user>[0-9]*) … *(?P<guest_nice>[0-9]*)`, or none
      when the line holds no "cpu". */
  function Captures(line: string): (r: Option<seq<string>>)
    ensures r.Some? ==> |r.value| == 10
    ensures r.None? <==> !Contains(line, "cpu")
  {
    match FindCpu(line)
    case None => None
    case Some(k) =>
      var rest := line[k + 3..];
      Some(Groups(rest[DigitRun(rest)..], FieldCount))
  }

  /** Whether every capture holds a `u64`. */
  predicate AllParse(caps: seq<string>)
  {
    forall i :: 0 <= i < |caps| ==> ParseUnsigned(caps[i], 10, Counters.U64Bound).Some?
  }

  /** `parse::<u64>()` of each capture, in order, when all of them parse. */
  function ParseAll(caps: seq<string>): (r: Option<seq<nat>>)
    ensures r.Some? ==> |r.value| == |caps|
    ensures r.Some? ==> forall i :: 0 <= i < |caps| ==> ParseUnsigned(caps[i], 10, Counters.U64Bound) == Some(r.value[i])
    ensures r.None? ==> exists i :: 0 <= i < |caps| && ParseUnsigned(caps[i], 10, Counters.U64Bound).None?
  {
    if AllParse(caps) then Some(seq(|caps|, i requires 0 <= i < |caps| && AllParse(caps) => ParseUnsigned(caps[i], 10, Counters.U64Bound).value))
    else None
  }

  function Sum(xs: seq<nat>): nat
    decreases |xs|
  {
    if |xs| == 0 then 0 else xs[0] + Sum(xs[1..])
  }

  /** `parse_proc_stat_line`: (idle − iowait, sum of the ten fields), each wrapping around
      at 2^64. A missing idle or iowait number is an error; any other missing number panics
      in the sum's `unwrap`. */
  function ParseProcStatLine(line: string): (r: Outcome<(nat, nat), StatError>)
    ensures r == Error(RegexFailed) <==> Captures(line).None?
    ensures Captures(line).Some? ==> r == TimesOf(Captures(line).value)
  {
    match Captures(line)
    case None => Error(RegexFailed)
    case Some(caps) => TimesOf(caps)
  }

  /** The times from the ten captures: idle and iowait are parsed first (an error each
      when they do not parse), then all ten are summed. */
  function TimesOf(caps: seq<string>): (r: Outcome<(nat, nat), StatError>)
    requires |caps| == 10
    ensures r != Error(RegexFailed)
    ensures r.Value? ==> r.value.0 < Counters.U64Bound && r.value.1 < Counters.U64Bound
    ensures r.Value? <==> ParseAll(caps).Some?
    ensures r == Panic <==>
      (ParseAll(caps).None? && ParseUnsigned(caps[3], 10, Counters.U64Bound).Some? &&
       ParseUnsigned(caps[4], 10, Counters.U64Bound).Some?)
  {
    match ParseUnsigned(caps[3], 10, Counters.U64Bound)
    case None => Error(NoIdleTime)
    case Some(idle) =>
      match ParseUnsigned(caps[4], 10, Counters.U64Bound)
      case None => Error(NoIowaitTime)
      case Some(iowait) =>
        match ParseAll(caps)
        case None => Panic
        case Some(xs) =>
          assert xs[3] == idle && xs[4] == iowait;
          Value((Counters.Wrapping(idle - iowait), Counters.Wrapping(Sum(xs))))
  }

  /** The numbers of a /proc/stat line written out, each after a space. */
  function FormatFields(fields: seq<nat>): string
  {
    FormatGroups(DigitsOf(fields))
  }

  /** Digit strings written out, each after a space. */
  function FormatGroups(ds: seq<string>): string
    decreases |ds|
  {
    if |ds| == 0 then "" else " " + ds[0] + FormatGroups(ds[1..])
  }

  /** The decimal text of each number. */
  function DigitsOf(fields: seq<nat>): (r: seq<string>)
    ensures |r| == |fields| && forall i :: 0 <= i < |fields| ==> r[i] == ToDigits(fields[i], 10)
  {
    seq(|fields|, i requires 0 <= i < |fields| => ToDigits(fields[i], 10))
  }

  /** Non-empty strings of decimal digits. */
  predicate DigitStrings(ds: seq<string>)
  {
    forall i :: 0 <= i < |ds| ==> |ds[i]| > 0 && AllDigits(ds[i], 10)
  }

  lemma RunOfDigitsThenSpace(a: string, b: string)
    requires AllDigits(a, 10)
    requires |b| > 0 ==> b[0] == ' '
    ensures DigitRun(a + b) == |a|
    decreases |a|
  {
    if |a| > 0 {
      assert (a + b)[1..] == a[1..] + b;
      RunOfDigitsThenSpace(a[1..], b);
    }
  }

  /** `n` empty strings. */
  function Empties(n: nat): (r: seq<string>)
    ensures |r| == n
  {
    if n == 0 then [] else [""] + Empties(n - 1)
  }

  /** Past the end of the line every group is empty. */
  lemma {:induction false} GroupsOfEmpty(n: nat)
    ensures Groups("", n) == Empties(n)
    decreases n
  {
    if n > 0 {
      assert ""[0..] == "" && ""[..0] == "";
      GroupsOfEmpty(n - 1);
    }
  }

  /** A space and a number's digits are one group. */
  lemma GroupsStep(d: string, rest: string, n: nat)
    requires |d| > 0 && AllDigits(d, 10)
    requires |rest| > 0 ==> rest[0] == ' '
    requires n > 0
    ensures Groups(" " + d + rest, n) == [d] + Groups(rest, n - 1)
  {
    var s := " " + d + rest;
    assert DigitValue(d[0], 10).Some?;
    assert s[1..] == d + rest && !(s[1] == ' ');
    assert SpaceRun(s) == 1;
    RunOfDigitsThenSpace(d, rest);
    assert (d + rest)[..|d|] == d && (d + rest)[|d|..] == rest;
  }

  lemma ConsAppend<T>(x: T, a: seq<T>, b: seq<T>)
    ensures [x] + (a + b) == ([x] + a) + b
  {
  }

  lemma EmptyAppend<T>(a: seq<T>)
    ensures [] + a == a
  {
  }

  /** Reading `n` groups from at most `n` digit strings written out gives them back, then
      empty captures for the groups past the end. */
  lemma {:induction false} GroupsOfDigits(ds: seq<string>, n: nat)
    requires |ds| <= n && DigitStrings(ds)
    ensures Groups(FormatGroups(ds), n) == ds + Empties(n - |ds|)
    decreases n
  {
    if |ds| == 0 {
      GroupsOfNoDigits(ds, n);
    } else {
      var tail := ds[1..];
      DigitStringsTail(ds);
      GroupsOfDigits(tail, n - 1);
      assert n - 1 - |tail| == n - |ds|;
      GroupsOfDigitsCons(ds, n, Empties(n - |ds|));
    }
  }

  lemma DigitStringsTail(ds: seq<string>)
    requires |ds| > 0 && DigitStrings(ds)
    ensures DigitStrings(ds[1..])
  {
    forall i | 0 <= i < |ds| - 1 ensures |ds[1..][i]| > 0 && AllDigits(ds[1..][i], 10) {
      assert ds[1..][i] == ds[i + 1];
    }
  }

  /** The base of `GroupsOfDigits`: nothing written out reads as empty captures. */
  lemma GroupsOfNoDigits(ds: seq<string>, n: nat)
    requires |ds| == 0
    ensures Groups(FormatGroups(ds), n) == ds + Empties(n)
  {
    assert ds == [] && FormatGroups(ds) == "";
    GroupsOfEmpty(n);
    EmptyAppend(Empties(n));
  }

  /** The step of `GroupsOfDigits`: the first digit string read, then the others. */
  lemma GroupsOfDigitsCons(ds: seq<string>, n: nat, e: seq<string>)
    requires 0 < |ds| <= n && DigitStrings(ds)
    requires Groups(FormatGroups(ds[1..]), n - 1) == ds[1..] + e
    ensures Groups(FormatGroups(ds), n) == ds + e
  {
    var rest := FormatGroups(ds[1..]);
    assert FormatGroups(ds) == " " + ds[0] + rest;
    assert |rest| > 0 ==> rest[0] == ' ';
    GroupsStep(ds[0], rest, n);
    ConsAppend(ds[0], ds[1..], e);
    assert [ds[0]] + ds[1..] == ds;
  }

  lemma ParseAllDigits(fields: seq<nat>)
    requires forall i :: 0 <= i < |fields| ==> fields[i] < Counters.U64Bound
    ensures ParseAll(DigitsOf(fields)) == Some(fields)
  {
    var caps := DigitsOf(fields);
    forall i | 0 <= i < |fields|
      ensures ParseUnsigned(caps[i], 10, Counters.U64Bound) == Some(fields[i])
    {
      ParseDecimal(fields[i], Counters.U64Bound);
    }
    assert AllParse(caps);
    assert ParseAll(caps).value == fields;
  }

  /** The captures of a written-out line are its digit strings, empty past the last. */
  lemma CapturesOfLine(core: string, ds: seq<string>)
    requires AllDigits(core, 10)
    requires 1 <= |ds| <= 10 && DigitStrings(ds)
    ensures Captures("cpu" + core + FormatGroups(ds)) == Some(ds + Empties(10 - |ds|))
  {
    var body := FormatGroups(ds);
    var line := "cpu" + core + body;
    AfterCoreNumber(core, body);
    CapturesAfterCpu(line);
    GroupsOfDigits(ds, FieldCount);
  }

  /** After "cpu" and the core number comes the first space. */
  lemma AfterCoreNumber(core: string, body: string)
    requires AllDigits(core, 10)
    requires |body| > 0 && body[0] == ' '
    ensures StartsWith("cpu" + core + body, "cpu")
    ensures var rest := ("cpu" + core + body)[3..]; rest[DigitRun(rest)..] == body
  {
    var line := "cpu" + core + body;
    assert line[..3] == "cpu";
    assert line[3..] == core + body;
    assert (core + body)[|core|..] == body;
    RunOfDigitsThenSpace(core, body);
  }

  /** A line starting with "cpu" is read from just after the core number. */
  lemma CapturesAfterCpu(line: string)
    requires StartsWith(line, "cpu")
    ensures Captures(line) == Some(Groups(line[3..][DigitRun(line[3..])..], FieldCount))
  {
    FindCpuAtStart(line);
  }

  /** The decimal texts of numbers are non-empty digit strings. */
  lemma DigitsOfAreDigits(fields: seq<nat>)
    ensures DigitStrings(DigitsOf(fields))
  {
    var ds := DigitsOf(fields);
    forall i | 0 <= i < |ds| ensures |ds[i]| > 0 && AllDigits(ds[i], 10) {
      assert ds[i] == ToDigits(fields[i], 10);
    }
  }

  lemma {:induction false} EmptiesAt(n: nat, i: nat)
    requires i < n
    ensures Empties(n)[i] == ""
  {
    if i > 0 {
      EmptiesAt(n - 1, i - 1);
    }
  }

  /** The times from the digits of ten numbers. */
  lemma TimesOfNumbers(fields: seq<nat>)
    requires |fields| == 10
    requires forall i :: 0 <= i < 10 ==> fields[i] < Counters.U64Bound
    ensures TimesOf(DigitsOf(fields)) == Value((Counters.Wrapping(fields[3] as int - fields[4]), Counters.Wrapping(Sum(fields))))
  {
    ParseAllDigits(fields);
    TimesOfParsed(DigitsOf(fields), fields);
  }

  /** Ten captures that all parse give the times of the parsed numbers. */
  lemma TimesOfParsed(caps: seq<string>, xs: seq<nat>)
    requires |caps| == 10 && ParseAll(caps) == Some(xs)
    ensures TimesOf(caps) == Value((Counters.Wrapping(xs[3] as int - xs[4]), Counters.Wrapping(Sum(xs))))
  {
    assert ParseUnsigned(caps[3], 10, Counters.U64Bound) == Some(xs[3]);
    assert ParseUnsigned(caps[4], 10, Counters.U64Bound) == Some(xs[4]);
    TimesOfValues(caps, xs[3], xs[4], xs);
  }

  /** The times once idle, iowait and all ten captures are parsed. */
  lemma TimesOfValues(caps: seq<string>, idle: nat, iowait: nat, xs: seq<nat>)
    requires |caps| == 10 && ParseAll(caps) == Some(xs)
    requires ParseUnsigned(caps[3], 10, Counters.U64Bound) == Some(idle)
    requires ParseUnsigned(caps[4], 10, Counters.U64Bound) == Some(iowait)
    ensures TimesOf(caps) == Value((Counters.Wrapping(idle - iowait), Counters.Wrapping(Sum(xs))))
  {
  }

  /** A line written out from ten numbers reads back as (idle − iowait, their sum). */
  lemma ParseFormattedLine(core: string, fields: seq<nat>)
    requires AllDigits(core, 10)
    requires |fields| == 10
    requires forall i :: 0 <= i < 10 ==> fields[i] < Counters.U64Bound
    ensures ParseProcStatLine("cpu" + core + FormatFields(fields)) ==
      Value((Counters.Wrapping(fields[3] as int - fields[4]), Counters.Wrapping(Sum(fields))))
  {
    var caps := DigitsOf(fields);
    DigitsOfAreDigits(fields);
    CapturesOfLine(core, caps);
    EmptyAppendRight(caps);
    TimesOfNumbers(fields);
  }

  lemma EmptyAppendRight<T>(a: seq<T>)
    ensures a + [] == a
  {
  }

  /** The times from the digits of at most three numbers, padded with empty captures: the
      idle time is missing. */
  lemma TimesOfNoIdle(fields: seq<nat>)
    requires 1 <= |fields| <= 3
    ensures TimesOf(DigitsOf(fields) + Empties(10 - |fields|)) == Error(NoIdleTime)
  {
    PaddedIdleEmpty(DigitsOf(fields), 10 - |fields|);
    TimesWithoutIdle(DigitsOf(fields) + Empties(10 - |fields|));
  }

  /** Fewer than four captures padded to ten leave the idle capture empty. */
  lemma PaddedIdleEmpty(ds: seq<string>, k: nat)
    requires |ds| + k == 10 && |ds| <= 3
    ensures (ds + Empties(k))[3] == ""
  {
    EmptiesAt(k, 3 - |ds|);
  }

  /** An empty idle capture is the missing idle time. */
  lemma TimesWithoutIdle(caps: seq<string>)
    requires |caps| == 10 && caps[3] == ""
    ensures TimesOf(caps) == Error(NoIdleTime)
  {
    assert ParseUnsigned(caps[3], 10, Counters.U64Bound).None?;
  }

  /** The times from the digits of five to nine numbers, padded with empty captures: idle
      and iowait parse, the sum panics. */
  lemma TimesOfPartial(fields: seq<nat>)
    requires 5 <= |fields| < 10
    requires forall i :: 0 <= i < |fields| ==> fields[i] < Counters.U64Bound
    ensures TimesOf(DigitsOf(fields) + Empties(10 - |fields|)) == Panic
  {
    PartialCaptures(fields);
    ParseDecimal(fields[3], Counters.U64Bound);
    ParseDecimal(fields[4], Counters.U64Bound);
    TimesPanic(DigitsOf(fields) + Empties(10 - |fields|));
  }

  /** Five to nine numbers padded to ten captures: idle and iowait are the numbers' digits,
      the last capture is empty. */
  lemma PartialCaptures(fields: seq<nat>)
    requires 5 <= |fields| < 10
    ensures var caps := DigitsOf(fields) + Empties(10 - |fields|);
      |caps| == 10 && caps[3] == ToDigits(fields[3], 10) && caps[4] == ToDigits(fields[4], 10) && caps[9] == ""
  {
    EmptiesAt(10 - |fields|, 9 - |fields|);
  }

  /** Idle and iowait parse but the last capture is empty: the sum panics. */
  lemma TimesPanic(caps: seq<string>)
    requires |caps| == 10 && caps[9] == ""
    requires ParseUnsigned(caps[3], 10, Counters.U64Bound).Some? && ParseUnsigned(caps[4], 10, Counters.U64Bound).Some?
    ensures TimesOf(caps) == Panic
  {
    assert ParseUnsigned(caps[9], 10, Counters.U64Bound).None?;
    assert !AllParse(caps);
  }

  /** A line that stops before the idle time is an error; one that has idle and iowait but
      stops before the tenth number panics in the sum. */
  lemma ParseShortLine(core: string, fields: seq<nat>)
    requires AllDigits(core, 10)
    requires 1 <= |fields| < 10
    requires forall i :: 0 <= i < |fields| ==> fields[i] < Counters.U64Bound
    ensures |fields| <= 3 ==> ParseProcStatLine("cpu" + core + FormatFields(fields)) == Error(NoIdleTime)
    ensures |fields| >= 5 ==> ParseProcStatLine("cpu" + core + FormatFields(fields)) == Panic
  {
    DigitsOfAreDigits(fields);
    CapturesOfLine(core, DigitsOf(fields));
    if |fields| <= 3 {
      TimesOfNoIdle(fields);
    } else if |fields| >= 5 {
      TimesOfPartial(fields);
    }
  }

  // ---------------------------------------------------------------- get_cpu_freq

  /** `get_cpu_freq`: scaling_cur_freq (in kHz) with its line breaks removed, parsed and
      multiplied by 1000. */
  function CpuFreq(scalingCurFreq: Result<string, string>): (r: Result<nat, string>)
    ensures scalingCurFreq.Err? ==> r.Err?
    ensures r.Ok? ==> r.value < Counters.U64Bound
    ensures r.Ok? <==> scalingCurFreq.Ok? && ParseUnsigned(RemoveChar(scalingCurFreq.value, '\n'), 10, Counters.U64Bound).Some?
  {
    match scalingCurFreq
    case Err(e) => Err(e)
    case Ok(content) =>
      match ParseUnsigned(RemoveChar(content, '\n'), 10, Counters.U64Bound)
      case None => Err("can't parse scaling_cur_freq to usize")
      case Some(x) => Ok(Counters.Wrapping(x * 1000))
  }

  /** A frequency file holding `khz` and a line break reads as `khz` × 1000 Hz. */
  lemma CpuFreqOfFile(khz: nat)
    requires khz * 1000 < Counters.U64Bound
    ensures CpuFreq(Ok(ToDigits(khz, 10) + "\n")) == Ok(khz * 1000)
  {
    ParseDecimalLine(khz, Counters.U64Bound);
  }

  // ---------------------------------------------------------------- cpu_info

  /** The numbers `cpu_info` reads from `lscpu`; `max_speed` (an `f32`) is not modelled. */
  datatype CpuInfo = CpuInfo(vendorId: Option<string>, modelName: Option<string>,
                             architecture: Option<string>, logicalCpus: Option<nat>,
                             physicalCpus: Option<nat>, sockets: Option<nat>,
                             virtualization: Option<string>)

  function Lookup(lscpu: map<string, string>, key: string): (r: Option<string>)
    ensures r.Some? <==> key in lscpu
  {
    if key in lscpu then Some(lscpu[key]) else None
  }

  /** `parse::<usize>()` of a value, when there is one. */
  function ParseCount(v: Option<string>): (r: Option<nat>)
    ensures r.Some? ==> v.Some? && r.value < Counters.U64Bound
  {
    match v
    case None => None
    case Some(s) => ParseUnsigned(s, 10, Counters.U64Bound)
  }

  /** `cpu_info` over the key/value pairs of `lscpu`'s output: the physical cores are the
      cores per socket times the sockets, one socket when that count is missing. */
  function CpuInfoOf(lscpu: map<string, string>): (r: CpuInfo)
    ensures r.sockets == ParseCount(Lookup(lscpu, "Socket(s)"))
    ensures r.logicalCpus == ParseCount(Lookup(lscpu, "CPU(s)"))
    ensures r.physicalCpus.Some? <==> ParseCount(Lookup(lscpu, "Core(s) per socket")).Some?
    ensures r.physicalCpus.Some? ==>
      r.physicalCpus.value == Counters.Wrapping(ParseCount(Lookup(lscpu, "Core(s) per socket")).value * r.sockets.UnwrapOr(1))
    ensures r.vendorId == Lookup(lscpu, "Vendor ID") && r.modelName == Lookup(lscpu, "Model name")
  {
    var sockets := ParseCount(Lookup(lscpu, "Socket(s)"));
    CpuInfo(
      Lookup(lscpu, "Vendor ID"),
      Lookup(lscpu, "Model name"),
      Lookup(lscpu, "Architecture"),
      ParseCount(Lookup(lscpu, "CPU(s)")),
      match ParseCount(Lookup(lscpu, "Core(s) per socket"))
        case None => None
        case Some(y) => Some(Counters.Wrapping(y * sockets.UnwrapOr(1))),
      sockets,
      Lookup(lscpu, "Virtualization"))
  }

  /** Without a socket count the physical cores are the cores per socket; with two
      sockets of four cores there are eight. */
  lemma PhysicalCpusOfSockets()
    ensures CpuInfoOf(map["Core(s) per socket" := "8"]).physicalCpus == Some(8)
    ensures CpuInfoOf(map["Core(s) per socket" := "4", "Socket(s)" := "2"]).physicalCpus == Some(8)
  {
    ParseDecimal(8, Counters.U64Bound);
    ParseDecimal(4, Counters.U64Bound);
    ParseDecimal(2, Counters.U64Bound);
    assert ToDigits(8, 10) == "8" && ToDigits(4, 10) == "4" && ToDigits(2, 10) == "2";
  }
}

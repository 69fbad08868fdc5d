/** The per-process sample helpers of the process-data library (lib/process_data/src/lib.rs):
    un-escaping of `\xHH` sequences in cgroup names, `fdinfo` key/value parsing, expansion of
    the `Cpus_allowed` hex mask, field selection in `/proc/[pid]/stat`, and the
    containerization rule. */
module ProcessData {
  import opened Wrappers
  import opened Text
  import opened Counters

  // ---------------------------------------------------------------- \xHH un-escaping

  type Byte = x: nat | x < 256

  const Backslash: Byte := 92
  const LetterX: Byte := 120

  /** The local `hex` helper: the value of an ASCII hex digit of either case. */
  function HexValue(b: Byte): (r: Option<nat>)
    ensures r.Some? ==> r.value < 16
  {
    if 48 <= b <= 57 then Some(b - 48)
    else if 97 <= b <= 102 then Some(b - 97 + 10)
    else if 65 <= b <= 70 then Some(b - 65 + 10)
    else None
  }

  /** `p ++ r` when `r` succeeded. */
  function Prepend(p: seq<Byte>, r: Option<seq<Byte>>): Option<seq<Byte>>
  {
    if r.Some? then Some(p + r.value) else None
  }

  lemma PrependTwice(p: seq<Byte>, q: seq<Byte>, r: Option<seq<Byte>>)
    ensures Prepend(p, Prepend(q, r)) == Prepend(p + q, r)
  {
    if r.Some? {
      assert p + (q + r.value) == (p + q) + r.value;
    }
  }

  /** The bytes `decode_hex_escapes` produces before the UTF-8 check: a backslash followed by
      'x' and two more bytes is one escape, which fails unless both are hex digits; every other
      byte, including a backslash too close to the end, is copied. */
  function Unescaped(b: seq<Byte>): (r: Option<seq<Byte>>)
    ensures r.Some? ==> |r.value| <= |b|
    decreases |b|
  {
    if |b| == 0 then Some([])
    else if b[0] == Backslash && 3 < |b| && b[1] == LetterX then
      var hi := HexValue(b[2]);
      var lo := HexValue(b[3]);
      if hi.None? || lo.None? then None
      else Prepend([hi.value * 16 + lo.value], Unescaped(b[4..]))
    else Prepend([b[0]], Unescaped(b[1..]))
  }

  /** `decode_hex_escapes`: the loop over the input bytes, then `String::from_utf8`, whose
      validity test is the parameter `validUtf8`. */
  method DecodeHexEscapes(s: seq<Byte>, validUtf8: seq<Byte> -> bool) returns (r: Option<seq<Byte>>)
    ensures r.Some? <==> Unescaped(s).Some? && validUtf8(Unescaped(s).value)
    ensures r.Some? ==> r == Unescaped(s)
  {
    var out: seq<Byte> := [];
    var i := 0;
    assert s[0..] == s;
    assert Unescaped(s).Some? ==> [] + Unescaped(s).value == Unescaped(s).value;
    while i < |s|
      invariant 0 <= i <= |s|
      invariant Unescaped(s) == Prepend(out, Unescaped(s[i..]))
    {
      if s[i] == Backslash && i + 3 < |s| && s[i + 1] == LetterX {
        var hi := HexValue(s[i + 2]);
        var lo := HexValue(s[i + 3]);
        if hi.None? || lo.None? {
          return None;
        }
        assert s[i..][4..] == s[i + 4..];
        PrependTwice(out, [hi.value * 16 + lo.value], Unescaped(s[i + 4..]));
        out := out + [hi.value * 16 + lo.value];
        i := i + 4;
      } else {
        assert s[i..][1..] == s[i + 1..];
        PrependTwice(out, [s[i]], Unescaped(s[i + 1..]));
        out := out + [s[i]];
        i := i + 1;
      }
    }
    assert s[i..] == [] && out + [] == out;
    if validUtf8(out) {
      return Some(out);
    }
    return None;
  }

  /** Text without a backslash is returned unchanged. */
  lemma {:induction false} UnescapedWithoutBackslash(b: seq<Byte>)
    requires Backslash !in b
    ensures Unescaped(b) == Some(b)
    decreases |b|
  {
    if |b| > 0 {
      assert Backslash !in b[1..];
      UnescapedWithoutBackslash(b[1..]);
      assert [b[0]] + b[1..] == b;
    }
  }

  /** A lower-case hex digit. */
  function HexDigit(d: nat): (b: Byte)
    requires d < 16
    ensures HexValue(b) == Some(d)
  {
    if d < 10 then 48 + d else 97 + d - 10
  }

  /** Every byte written as `\xHH`, the escaping the decoder undoes. */
  function Escaped(b: seq<Byte>): (e: seq<Byte>)
    ensures |e| == 4 * |b|
  {
    if |b| == 0 then []
    else [Backslash, LetterX, HexDigit(b[0] / 16), HexDigit(b[0] % 16)] + Escaped(b[1..])
  }

  /** Un-escaping inverts escaping. */
  lemma {:induction false} UnescapeEscaped(b: seq<Byte>)
    ensures Unescaped(Escaped(b)) == Some(b)
    decreases |b|
  {
    if |b| > 0 {
      var e := Escaped(b);
      assert e[4..] == Escaped(b[1..]);
      UnescapeEscaped(b[1..]);
      assert [b[0]] + b[1..] == b;
    }
  }

  /** A complete `\x` escape with a non-hex digit makes the whole decode fail, whatever
      surrounds it. */
  lemma {:induction false} BadEscapeFails(a: seq<Byte>, hi: Byte, lo: Byte, rest: seq<Byte>)
    requires Backslash !in a
    requires HexValue(hi).None? || HexValue(lo).None?
    ensures Unescaped(a + [Backslash, LetterX, hi, lo] + rest).None?
    decreases |a|
  {
    var s := a + [Backslash, LetterX, hi, lo] + rest;
    if |a| > 0 {
      assert s[1..] == a[1..] + [Backslash, LetterX, hi, lo] + rest;
      assert Backslash !in a[1..];
      BadEscapeFails(a[1..], hi, lo, rest);
    }
  }

  // ---------------------------------------------------------------- fdinfo

  /** One `fdinfo` line: the trimmed text before the first ':' and the trimmed rest. */
  function FdinfoEntry(line: string): (r: Option<(string, string)>)
  {
    match SplitOnce(line, ':')
    case Some(kv) => Some((Trim(kv.0), Trim(kv.1)))
    case None => None
  }

  /** Exactly the lines with a ':' give an entry, and its parts contain no surrounding
      whitespace. */
  lemma FdinfoEntryNeedsColon(line: string)
    ensures FdinfoEntry(line).Some? <==> ':' in line
    ensures FdinfoEntry(line).Some? ==> FdinfoEntry(line).value == (Trim(SplitOnce(line, ':').value.0), Trim(SplitOnce(line, ':').value.1))
  {
  }

  /** The map `HashMap::from_iter` builds from optional entries: later keys overwrite earlier
      ones, absent entries are skipped. */
  function EntryMap(entries: seq<Option<(string, string)>>): map<string, string>
  {
    if |entries| == 0 then map[]
    else
      var m := EntryMap(entries[..|entries| - 1]);
      match entries[|entries| - 1]
      case Some(kv) => m[kv.0 := kv.1]
      case None => m
  }

  /** The entry of every line. */
  function Entries(lines: seq<string>): (e: seq<Option<(string, string)>>)
    ensures |e| == |lines| && forall i :: 0 <= i < |lines| ==> e[i] == FdinfoEntry(lines[i])
  {
    seq(|lines|, i requires 0 <= i < |lines| => FdinfoEntry(lines[i]))
  }

  /** `parse_fdinfo`. Splitting on '\n' instead of `lines()` changes nothing here: the extra
      empty last piece has no ':', and a '\r' before the line end is trimmed from the value. */
  function ParseFdinfo(text: string): map<string, string>
  {
    EntryMap(Entries(Split(text, {'\n'})))
  }

  /** `entry` is present and for `key`. */
  predicate Carries(entry: Option<(string, string)>, key: string)
  {
    entry.Some? && entry.value.0 == key
  }

  lemma {:induction false} EntryMapKeys(entries: seq<Option<(string, string)>>, key: string)
    ensures key in EntryMap(entries) <==> exists i :: 0 <= i < |entries| && Carries(entries[i], key)
  {
    if |entries| > 0 {
      var init := entries[..|entries| - 1];
      EntryMapKeys(init, key);
      assert forall i :: 0 <= i < |init| ==> init[i] == entries[i];
    }
  }

  lemma {:induction false} EntryMapLastWins(entries: seq<Option<(string, string)>>, i: nat)
    requires i < |entries| && entries[i].Some?
    requires forall j :: i < j < |entries| ==> !Carries(entries[j], entries[i].value.0)
    ensures entries[i].value.0 in EntryMap(entries)
    ensures EntryMap(entries)[entries[i].value.0] == entries[i].value.1
  {
    if i < |entries| - 1 {
      var init := entries[..|entries| - 1];
      assert init[i] == entries[i];
      forall j | i < j < |init| ensures !Carries(init[j], init[i].value.0) {
        assert init[j] == entries[j];
      }
      EntryMapLastWins(init, i);
    }
  }

  /** A key is present exactly when some line with a ':' carries it. */
  lemma FdinfoKeys(lines: seq<string>, key: string)
    ensures key in EntryMap(Entries(lines))
      <==> exists i :: 0 <= i < |lines| && Carries(FdinfoEntry(lines[i]), key)
  {
    var e := Entries(lines);
    EntryMapKeys(e, key);
    if key in EntryMap(e) {
      var i :| 0 <= i < |e| && Carries(e[i], key);
      assert Carries(FdinfoEntry(lines[i]), key);
    } else {
      forall i | 0 <= i < |lines| ensures !Carries(FdinfoEntry(lines[i]), key) {
        assert e[i] == FdinfoEntry(lines[i]);
      }
    }
  }

  /** The value of a key is the one on the last line that carries it. */
  lemma FdinfoLastWins(text: string, i: nat)
    requires var lines := Split(text, {'\n'});
      i < |lines| && FdinfoEntry(lines[i]).Some?
      && forall j :: i < j < |lines| ==> !Carries(FdinfoEntry(lines[j]), FdinfoEntry(lines[i]).value.0)
    ensures var kv := FdinfoEntry(Split(text, {'\n'})[i]).value;
      kv.0 in ParseFdinfo(text) && ParseFdinfo(text)[kv.0] == kv.1
  {
    EntryMapLastWins(Entries(Split(text, {'\n'})), i);
  }

  /** The kernel's `key:\tvalue` layout is read back as the pair. */
  lemma FdinfoEntryRoundTrip(key: string, value: string)
    requires ':' !in key
    requires |key| > 0 ==> !IsSpace(key[0]) && !IsSpace(key[|key| - 1])
    requires |value| > 0 && !IsSpace(value[0]) && !IsSpace(value[|value| - 1])
    ensures FdinfoEntry(key + ":\t" + value) == Some((key, value))
  {
    var line := key + ":\t" + value;
    var kv := SplitOnce(line, ':').value;
    assert kv.0 + [':'] + kv.1 == key + [':'] + ("\t" + value);
    assert line[|key|] == ':' && line[..|key|] == key;
    assert line[..|kv.0|] == kv.0 && line[|kv.0|] == ':';
    assert |kv.0| == |key| by {
      assert ':' !in line[..|key|];
      assert forall j :: 0 <= j < |key| && j < |kv.0| ==> line[j] == kv.0[j];
    }
    assert kv.0 == key && kv.1 == "\t" + value;
    TrimFixed(key);
    TrimStartPrefix("\t", value);
    TrimFixed(value);
  }

  // ---------------------------------------------------------------- CPU affinity

  /** `char::to_digit(16).unwrap_or_default()`. */
  function NibbleOf(c: char): (d: nat)
    ensures d < 16
  {
    match DigitValue(c, 16)
    case Some(v) => v
    case None => 0
  }

  /** Bit `k` (0..4) of a nibble: `(int & (1 << k)) != 0`. */
  predicate NibbleBit(d: nat, k: nat)
    requires k < 4
  {
    (d / [1, 2, 4, 8][k]) % 2 == 1
  }

  /** CPU `i` of a mask: bit `i % 4` of the `i / 4`-th digit counted from the right. */
  predicate AffinityBit(mask: string, i: nat)
    requires i < 4 * |mask|
  {
    NibbleBit(NibbleOf(mask[|mask| - 1 - i / 4]), i % 4)
  }

  function Min(a: nat, b: nat): nat
  {
    if a <= b then a else b
  }

  /** The affinity expansion in `try_from_path`: the digits from least to most significant,
      four bits each, least significant bit first, never more than `numCpus` entries. */
  method ExpandAffinity(mask: string, numCpus: nat) returns (affinity: seq<bool>)
    ensures |affinity| == Min(numCpus, 4 * |mask|)
    ensures forall i :: 0 <= i < |affinity| ==> affinity[i] == AffinityBit(mask, i)
  {
    affinity := [];
    for j := 0 to |mask|
      invariant |affinity| == Min(numCpus, 4 * j)
      invariant forall i :: 0 <= i < |affinity| ==> affinity[i] == AffinityBit(mask, i)
    {
      var digit := NibbleOf(mask[|mask| - 1 - j]);
      for k := 0 to 4
        invariant |affinity| == Min(numCpus, 4 * j + k)
        invariant forall i :: 0 <= i < |affinity| ==> affinity[i] == AffinityBit(mask, i)
      {
        if |affinity| < numCpus {
          assert |affinity| == 4 * j + k;
          assert |affinity| / 4 == j && |affinity| % 4 == k;
          affinity := affinity + [NibbleBit(digit, k)];
        }
      }
    }
  }

  /** The value of four bits, least significant first. */
  function Nibble(b0: bool, b1: bool, b2: bool, b3: bool): (d: nat)
    ensures d < 16
  {
    (if b0 then 1 else 0) + (if b1 then 2 else 0) + (if b2 then 4 else 0) + (if b3 then 8 else 0)
  }

  lemma NibbleBits(b0: bool, b1: bool, b2: bool, b3: bool)
    ensures NibbleBit(Nibble(b0, b1, b2, b3), 0) == b0
    ensures NibbleBit(Nibble(b0, b1, b2, b3), 1) == b1
    ensures NibbleBit(Nibble(b0, b1, b2, b3), 2) == b2
    ensures NibbleBit(Nibble(b0, b1, b2, b3), 3) == b3
  {
  }

  /** The kernel's `Cpus_allowed` text for a set of CPUs: `n` hex digits, most significant
      first, CPU i being bit i. */
  function MaskOf(cpus: set<nat>, n: nat): (mask: string)
    ensures |mask| == n
  {
    seq(n, j requires 0 <= j < n =>
      var base := 4 * (n - 1 - j);
      DigitChar(Nibble(base in cpus, base + 1 in cpus, base + 2 in cpus, base + 3 in cpus)))
  }

  /** Expanding the mask of a CPU set gives back membership of every CPU it covers. */
  lemma ExpandMaskOf(cpus: set<nat>, n: nat, i: nat)
    requires i < 4 * n
    ensures AffinityBit(MaskOf(cpus, n), i) <==> i in cpus
  {
    var mask := MaskOf(cpus, n);
    var j := n - 1 - i / 4;
    var base := 4 * (i / 4);
    assert 4 * (n - 1 - j) == base;
    var d := Nibble(base in cpus, base + 1 in cpus, base + 2 in cpus, base + 3 in cpus);
    assert mask[j] == DigitChar(d);
    assert NibbleOf(mask[j]) == d;
    NibbleBits(base in cpus, base + 1 in cpus, base + 2 in cpus, base + 3 in cpus);
    assert i == base + i % 4;
  }

  // ---------------------------------------------------------------- /proc/[pid]/stat

  /** `STAT_OFFSET`: the split below starts at 0-based field 2 of proc(5). */
  const StatOffset: nat := 2
  const StatParentPid: nat := 3 - StatOffset
  const StatUserCpuTime: nat := 13 - StatOffset
  const StatSystemCpuTime: nat := 14 - StatOffset
  const StatNice: nat := 18 - StatOffset
  const StatStarttime: nat := 21 - StatOffset

  /** The fields after the executable name: the text after the last ')', split on ' ',
      without the empty piece before the first space. */
  function StatFields(stat: string): (fields: seq<string>)
  {
    Split(ParenTail(stat), {' '})[1..]
  }

  /** The text after the last ')' (all of it when there is none). */
  function ParenTail(stat: string): string
  {
    var pieces := Split(stat, {')'});
    pieces[|pieces| - 1]
  }

  /** The fields are recovered from a stat line `head) fields`, where `head` is the pid and
      the parenthesised executable name, whatever that name contains, ')' and ' ' included. */
  lemma StatFieldsOfLine(head: string, fields: seq<string>)
    requires |fields| >= 1
    requires forall i :: 0 <= i < |fields| ==> NoneOf(fields[i], {' '}) && NoneOf(fields[i], {')'})
    ensures StatFields(head + [')'] + (" " + Join(fields, ' '))) == fields
  {
    AfterLastParen(head, fields);
    SpaceSeparated(fields);
  }

  /** The piece after the last ')' of a line ending in the space-separated fields. */
  lemma AfterLastParen(head: string, fields: seq<string>)
    requires forall i :: 0 <= i < |fields| ==> NoneOf(fields[i], {')'})
    ensures ParenTail(head + [')'] + (" " + Join(fields, ' '))) == " " + Join(fields, ' ')
  {
    SpacedWithoutParen(fields);
    ParenTailOf(head, " " + Join(fields, ' '));
  }

  /** The fields after their leading space hold no ')'. */
  lemma SpacedWithoutParen(fields: seq<string>)
    requires forall i :: 0 <= i < |fields| ==> NoneOf(fields[i], {')'})
    ensures NoneOf(" " + Join(fields, ' '), {')'})
  {
    var tail := " " + Join(fields, ' ');
    JoinWithout(fields, ' ', ')');
    assert forall i :: 1 <= i < |tail| ==> tail[i] == Join(fields, ' ')[i - 1];
  }

  /** Whatever comes before the last ')', the text after it is what follows it. */
  lemma ParenTailOf(head: string, tail: string)
    requires NoneOf(tail, {')'})
    ensures ParenTail(head + [')'] + tail) == tail
  {
    SplitLast(head, ')', tail, {')'});
  }

  /** A leading space then the fields joined by spaces splits into "" and the fields. */
  lemma SpaceSeparated(fields: seq<string>)
    requires |fields| >= 1
    requires forall i :: 0 <= i < |fields| ==> NoneOf(fields[i], {' '})
    ensures Split(" " + Join(fields, ' '), {' '})[1..] == fields
  {
    var rest := Join(fields, ' ');
    assert " " + rest == "" + [' '] + rest;
    SplitAfterPiece("", ' ', rest, {' '});
    SplitJoin(fields, ' ');
    assert ([""] + fields)[1..] == fields;
  }

  /** Joining pieces free of a character with a different separator leaves it out. */
  lemma {:induction false} JoinWithout(parts: seq<string>, c: char, x: char)
    requires c != x
    requires forall i :: 0 <= i < |parts| ==> NoneOf(parts[i], {x})
    ensures NoneOf(Join(parts, c), {x})
    decreases |parts|
  {
    if |parts| > 1 {
      JoinWithout(parts[1..], c, x);
    }
  }

  /** The values `try_from_path` takes from the stat file. */
  datatype StatValues = StatValues(parentPid: int, userCpuTime: nat, systemCpuTime: nat, nice: int, starttime: nat)

  /** One field by index: missing, unparsable, or its value. */
  function StatField(fields: seq<string>, index: nat, parse: string -> Option<int>): (r: Result<int, string>)
    ensures index >= |fields| ==> r == Err("wrong stat file format")
    ensures index < |fields| ==> (r.Ok? <==> parse(fields[index]).Some?)
  {
    if index >= |fields| then Err("wrong stat file format")
    else match parse(fields[index])
      case Some(v) => Ok(v)
      case None => Err("couldn't parse stat file content to int")
  }

  function ParseU64(s: string): (r: Option<int>)
    ensures r.Some? ==> 0 <= r.value < U64Bound
  {
    match ParseUnsigned(s, 10, U64Bound)
    case Some(v) => Some(v)
    case None => None
  }

  /** `Niceness`: an `i8` then the range check -20..=19; both failures give the same error. */
  function ParseNiceness(s: string): (r: Option<int>)
    ensures r.Some? ==> -20 <= r.value <= 19
  {
    ParseSigned(s, -20, 19)
  }

  /** The stat part of `try_from_path`: parent pid, user and system CPU time, nice and start
      time, read in that order, the first failure being the error. */
  function ParseStat(stat: string): (r: Result<StatValues, string>)
    ensures var f := StatFields(stat);
      r.Ok? <==> (|f| > StatStarttime && ParseI32(f[StatParentPid]).Some?
        && ParseU64(f[StatUserCpuTime]).Some? && ParseU64(f[StatSystemCpuTime]).Some?
        && ParseNiceness(f[StatNice]).Some? && ParseU64(f[StatStarttime]).Some?)
    ensures var f := StatFields(stat);
      r.Ok? ==> r.value == StatValues(ParseI32(f[1]).value, ParseU64(f[11]).value,
        ParseU64(f[12]).value, ParseNiceness(f[16]).value, ParseU64(f[19]).value)
    ensures |StatFields(stat)| <= StatParentPid ==> r == Err("wrong stat file format")
  {
    var f := StatFields(stat);
    var ppid := StatField(f, StatParentPid, ParseI32);
    var utime := StatField(f, StatUserCpuTime, ParseU64);
    var stime := StatField(f, StatSystemCpuTime, ParseU64);
    var nice := StatField(f, StatNice, ParseNiceness);
    var start := StatField(f, StatStarttime, ParseU64);
    if ppid.Err? then Err(ppid.error)
    else if utime.Err? then Err(utime.error)
    else if stime.Err? then Err(stime.error)
    else if nice.Err? then Err(nice.error)
    else if start.Err? then Err(start.error)
    else Ok(StatValues(ppid.value, utime.value as nat, stime.value as nat, nice.value, start.value as nat))
  }

  /** The selected fields are the proc(5) fields 3, 13, 14, 18 and 21 (counted from 0) of a
      whole stat line, whatever the executable name. */
  lemma StatSelectsProcFields(pidText: string, comm: string, fields: seq<string>)
    requires |fields| >= 20
    requires forall i :: 0 <= i < |fields| ==> NoneOf(fields[i], {' '}) && NoneOf(fields[i], {')'})
    ensures var all := [pidText, comm] + fields;
      var r := ParseStat(pidText + " (" + comm + [')'] + (" " + Join(fields, ' ')));
      r.Ok? ==> (ParseI32(all[3]) == Some(r.value.parentPid)
        && ParseU64(all[13]) == Some(r.value.userCpuTime)
        && ParseU64(all[14]) == Some(r.value.systemCpuTime)
        && ParseNiceness(all[18]) == Some(r.value.nice)
        && ParseU64(all[21]) == Some(r.value.starttime))
  {
    var line := pidText + " (" + comm + [')'] + (" " + Join(fields, ' '));
    StatFieldsOfLine(pidText + " (" + comm, fields);
    assert StatFields(line) == fields;
    var all := [pidText, comm] + fields;
    assert all[3] == fields[1] && all[13] == fields[11] && all[14] == fields[12];
    assert all[18] == fields[16] && all[21] == fields[19];
  }

  // ---------------------------------------------------------------- containerization

  /** `Containerization::None` is `Bare` here, as `None` is the empty `Option`. */
  datatype Containerization = Bare | Flatpak | Portable | Snap | AppImage

  /** The containerization chain: a command line under "/snap/", then the portable marker or
      launcher, then the Flatpak marker or launcher, then an `APPIMAGE` variable. The two
      marker files' existence are parameters. */
  function ContainerizationOf(commandline: string, portableMarker: bool, flatpakInfo: bool,
                              launcher: string, appimagePath: Option<string>): (c: Containerization)
    ensures c == Snap <==> StartsWith(commandline, "/snap/")
    ensures c == Portable <==> !StartsWith(commandline, "/snap/") && (portableMarker || launcher == "portable")
    ensures c == Flatpak <==> (!StartsWith(commandline, "/snap/") && !portableMarker && launcher != "portable"
      && (flatpakInfo || launcher == "flatpak"))
    ensures c == AppImage <==> (!StartsWith(commandline, "/snap/") && !portableMarker && !flatpakInfo
      && launcher != "portable" && launcher != "flatpak" && appimagePath.Some?)
    ensures c == Bare <==> (!StartsWith(commandline, "/snap/") && !portableMarker && !flatpakInfo
      && launcher != "portable" && launcher != "flatpak" && appimagePath.None?)
  {
    if StartsWith(commandline, "/snap/") then Snap
    else if portableMarker || launcher == "portable" then Portable
    else if flatpakInfo || launcher == "flatpak" then Flatpak
    else if appimagePath.Some? then AppImage
    else Bare
  }
}

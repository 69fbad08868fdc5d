/** The `pci.ids` database reader: vendor lines, single-tab device lines and double-tab
    subdevice lines build a vendor → device → subdevice tree, which is then queried by
    vendor and device id. Lines are given as a sequence (reading the file is left out). */
module PciIds {
  import opened Wrappers
  import opened Text

  /** 2^16: every id in the database is a `u16`. */
  const IdBound := 0x1_0000

  datatype Subdevice = Subdevice(id: nat, vendorId: nat, name: string)

  datatype Device = Device(id: nat, vendorId: nat, name: string, subDevices: seq<Subdevice>)

  datatype Vendor = Vendor(id: nat, name: string, devices: map<nat, Device>)

  /** The parsed database, keyed by vendor id (a `BTreeMap`, so "last" means largest key). */
  type Vendors = map<nat, Vendor>

  /** Why a line was rejected. A device line without a vendor and a subdevice line
      without a device (or without a vendor) are the two "no preceding" cases. */
  datatype ParseError = InvalidId | MissingId | MissingName | NoPrecedingVendor | NoPrecedingDevice

  /** The largest key of a non-empty map: `keys().last()` / `values_mut().last()` of a `BTreeMap`. */
  function LastKey<V>(m: map<nat, V>): (k: nat)
    requires m != map[]
    ensures k in m && forall j :: j in m ==> j <= k
  {
    LastKeyExists(m.Keys);
    var k :| k in m && forall j :: j in m ==> j <= k;
    k
  }

  lemma {:induction false} LastKeyExists(s: set<nat>)
    requires s != {}
    ensures exists k :: k in s && forall j :: j in s ==> j <= k
  {
    var x :| x in s;
    if s != {x} {
      LastKeyExists(s - {x});
      var m :| m in s - {x} && forall j :: j in s - {x} ==> j <= m;
      var top := if x > m then x else m;
      forall j | j in s ensures j <= top {
        if j != x {
          assert j in s - {x};
        }
      }
      assert top in s;
    } else {
      assert forall j :: j in s ==> j <= x;
    }
  }

  /** The five kinds of line, checked in the order the reader checks them. */
  datatype LineKind = ClassSection | Ignored | SubdeviceLine | DeviceLine | VendorLine

  function KindOf(line: string): LineKind
  {
    if StartsWith(line, "C") then ClassSection
    else if StartsWith(line, "#") || line == "" then Ignored
    else if StartsWith(line, "\t\t") then SubdeviceLine
    else if StartsWith(line, "\t") then DeviceLine
    else VendorLine
  }

  /** A subdevice line: `splitn(4, ' ')` of the trimmed line gives the subvendor id, the
      subdevice id and, as the last remaining piece, the name; the subdevice is appended
      to the last device of the last vendor. */
  function AddSubdevice(seen: Vendors, line: string): Result<Vendors, ParseError>
  {
    var parts := SplitN(TrimStart(line), 4, ' ');
    var subVid := ParseUnsigned(parts[0], 16, IdBound);
    if subVid.None? then Err(InvalidId)
    else if |parts| < 2 then Err(MissingId)
    else
      var subPid := ParseUnsigned(parts[1], 16, IdBound);
      if subPid.None? then Err(InvalidId)
      else if |parts| < 3 then Err(MissingName)
      else if seen == map[] then Err(NoPrecedingDevice)
      else
        var vid := LastKey(seen);
        var vendor := seen[vid];
        if vendor.devices == map[] then Err(NoPrecedingDevice)
        else
          var pid := LastKey(vendor.devices);
          var device := vendor.devices[pid];
          var sub := Subdevice(subPid.value, subVid.value, parts[|parts| - 1]);
          var device' := device.(subDevices := device.subDevices + [sub]);
          Ok(seen[vid := vendor.(devices := vendor.devices[pid := device'])])
  }

  /** A device line: the last vendor is looked up first, then the trimmed line is split
      on two spaces into id and name; the device replaces any device with that id. */
  function AddDevice(seen: Vendors, line: string): Result<Vendors, ParseError>
  {
    var parts := SplitStr(TrimStart(line), "  ");
    if seen == map[] then Err(NoPrecedingVendor)
    else
      var vid := LastKey(seen);
      var pid := ParseUnsigned(parts[0], 16, IdBound);
      if pid.None? then Err(InvalidId)
      else if |parts| < 2 then Err(MissingName)
      else
        var device := Device(pid.value, vid, parts[1], []);
        Ok(seen[vid := seen[vid].(devices := seen[vid].devices[pid.value := device])])
  }

  /** A vendor line: id and name separated by two spaces; the vendor replaces any vendor
      with that id, devices included. */
  function AddVendor(seen: Vendors, line: string): Result<Vendors, ParseError>
  {
    var parts := SplitStr(line, "  ");
    var vid := ParseUnsigned(parts[0], 16, IdBound);
    if vid.None? then Err(InvalidId)
    else if |parts| < 2 then Err(MissingName)
    else Ok(seen[vid.value := Vendor(vid.value, parts[1], map[])])
  }

  /** The update a subdevice, device or vendor line makes. */
  function Update(seen: Vendors, line: string): Result<Vendors, ParseError>
  {
    match KindOf(line)
    case SubdeviceLine => AddSubdevice(seen, line)
    case DeviceLine => AddDevice(seen, line)
    case _ => AddVendor(seen, line)
  }

  /** What the reader does with the remaining lines, starting from the tree `seen`. */
  function ParseFrom(seen: Vendors, lines: seq<string>): Result<Vendors, ParseError>
    decreases |lines|
  {
    if |lines| == 0 then Ok(seen)
    else if KindOf(lines[0]) == ClassSection then Ok(seen)
    else if KindOf(lines[0]) == Ignored then ParseFrom(seen, lines[1..])
    else
      match Update(seen, lines[0])
      case Err(e) => Err(e)
      case Ok(next) => ParseFrom(next, lines[1..])
  }

  /** The tree the whole file denotes. */
  function Parse(lines: seq<string>): Result<Vendors, ParseError>
  {
    ParseFrom(map[], lines)
  }

  /** `parse_pci_ids`: one pass over the lines, updating the tree in place. */
  method ParsePciIds(lines: seq<string>) returns (r: Result<Vendors, ParseError>)
    ensures r == Parse(lines)
  {
    var seen: Vendors := map[];
    var i := 0;
    while i < |lines|
      invariant 0 <= i <= |lines|
      invariant ParseFrom(seen, lines[i..]) == Parse(lines)
    {
      var line := lines[i];
      assert lines[i..][0] == line && lines[i..][1..] == lines[i + 1..];
      if StartsWith(line, "C") {
        assert Parse(lines) == Ok(seen);
        break;
      } else if StartsWith(line, "#") || line == "" {
        i := i + 1;
        continue;
      } else {
        var next;
        if StartsWith(line, "\t\t") {
          next := AddSubdevice(seen, line);
        } else if StartsWith(line, "\t") {
          next := AddDevice(seen, line);
        } else {
          next := AddVendor(seen, line);
        }
        if next.Err? {
          return Err(next.error);
        }
        seen := next.value;
      }
      i := i + 1;
    }
    return Ok(seen);
  }

  // ---------------------------------------------------------------- lookups

  /** `Vendor::get_device`. */
  function GetDevice(vendor: Vendor, pid: nat): (r: Option<Device>)
    ensures r.Some? <==> pid in vendor.devices
    ensures r.Some? ==> r.value == vendor.devices[pid]
  {
    if pid in vendor.devices then Some(vendor.devices[pid]) else None
  }

  /** `Device::from_vid_pid`: the vendor by id, then its device by id. */
  function FromVidPid(vendors: Vendors, vid: nat, pid: nat): (r: Option<Device>)
    ensures r.Some? <==> vid in vendors && pid in vendors[vid].devices
    ensures r.Some? ==> r.value == vendors[vid].devices[pid]
  {
    if vid in vendors then GetDevice(vendors[vid], pid) else None
  }

  // ---------------------------------------------------------------- the tree's invariant

  /** Every vendor sits under its own id, every device under its own id, and every device
      names the vendor it sits under, so `Device::vendor` always finds its vendor. */
  predicate WellFormed(vendors: Vendors)
  {
    forall vid :: vid in vendors ==> VendorWellFormed(vid, vendors[vid])
  }

  predicate VendorWellFormed(vid: nat, vendor: Vendor)
  {
    vendor.id == vid < IdBound &&
    forall pid :: pid in vendor.devices ==> DeviceWellFormed(vid, pid, vendor.devices[pid])
  }

  predicate DeviceWellFormed(vid: nat, pid: nat, device: Device)
  {
    device.id == pid < IdBound && device.vendorId == vid
  }

  lemma PutDeviceKeepsWellFormed(seen: Vendors, vid: nat, pid: nat, device: Device)
    requires WellFormed(seen) && vid in seen && DeviceWellFormed(vid, pid, device)
    ensures WellFormed(seen[vid := seen[vid].(devices := seen[vid].devices[pid := device])])
  {
    assert VendorWellFormed(vid, seen[vid]);
  }

  lemma AddSubdeviceKeepsWellFormed(seen: Vendors, line: string)
    requires WellFormed(seen) && AddSubdevice(seen, line).Ok?
    ensures WellFormed(AddSubdevice(seen, line).value)
  {
    var vid := LastKey(seen);
    var pid := LastKey(seen[vid].devices);
    var device := seen[vid].devices[pid];
    assert VendorWellFormed(vid, seen[vid]);
    var parts := SplitN(TrimStart(line), 4, ' ');
    var sub := Subdevice(ParseUnsigned(parts[1], 16, IdBound).value,
      ParseUnsigned(parts[0], 16, IdBound).value, parts[|parts| - 1]);
    PutDeviceKeepsWellFormed(seen, vid, pid, device.(subDevices := device.subDevices + [sub]));
  }

  lemma AddDeviceKeepsWellFormed(seen: Vendors, line: string)
    requires WellFormed(seen) && AddDevice(seen, line).Ok?
    ensures WellFormed(AddDevice(seen, line).value)
  {
    var vid := LastKey(seen);
    var parts := SplitStr(TrimStart(line), "  ");
    var pid := ParseUnsigned(parts[0], 16, IdBound).value;
    PutDeviceKeepsWellFormed(seen, vid, pid, Device(pid, vid, parts[1], []));
  }

  lemma AddVendorKeepsWellFormed(seen: Vendors, line: string)
    requires WellFormed(seen) && AddVendor(seen, line).Ok?
    ensures WellFormed(AddVendor(seen, line).value)
  {
    var parts := SplitStr(line, "  ");
    var vid := ParseUnsigned(parts[0], 16, IdBound).value;
    assert VendorWellFormed(vid, Vendor(vid, parts[1], map[]));
  }

  lemma UpdateKeepsWellFormed(seen: Vendors, line: string)
    requires WellFormed(seen) && Update(seen, line).Ok?
    ensures WellFormed(Update(seen, line).value)
  {
    match KindOf(line)
    case SubdeviceLine => AddSubdeviceKeepsWellFormed(seen, line);
    case DeviceLine => AddDeviceKeepsWellFormed(seen, line);
    case _ => AddVendorKeepsWellFormed(seen, line);
  }

  /** Every tree the reader produces keeps the invariant. */
  lemma {:induction false} ParseFromKeepsWellFormed(seen: Vendors, lines: seq<string>)
    requires WellFormed(seen)
    ensures ParseFrom(seen, lines).Ok? ==> WellFormed(ParseFrom(seen, lines).value)
    decreases |lines|
  {
    if |lines| > 0 && KindOf(lines[0]) != ClassSection {
      if KindOf(lines[0]) == Ignored {
        ParseFromKeepsWellFormed(seen, lines[1..]);
      } else if Update(seen, lines[0]).Ok? {
        UpdateKeepsWellFormed(seen, lines[0]);
        ParseFromKeepsWellFormed(Update(seen, lines[0]).value, lines[1..]);
      }
    }
  }

  /** A device found by `from_vid_pid` in a parsed tree has that id and belongs to that
      vendor, whose id is the device's `vendor_id`: `Device::vendor` cannot fail. */
  lemma LookupIsConsistent(lines: seq<string>, vid: nat, pid: nat)
    requires Parse(lines).Ok?
    requires FromVidPid(Parse(lines).value, vid, pid).Some?
    ensures FromVidPid(Parse(lines).value, vid, pid).value.id == pid
    ensures FromVidPid(Parse(lines).value, vid, pid).value.vendorId == vid
    ensures vid in Parse(lines).value && Parse(lines).value[vid].id == vid
  {
    ParseFromKeepsWellFormed(map[], lines);
    assert VendorWellFormed(vid, Parse(lines).value[vid]);
  }

  // ---------------------------------------------------------------- where reading stops

  /** Nothing after a line starting with 'C' (the class section) is read. */
  lemma {:induction false} StopsAtClasses(seen: Vendors, lines: seq<string>, rest: seq<string>)
    requires |rest| > 0 && StartsWith(rest[0], "C")
    ensures ParseFrom(seen, lines + rest) == ParseFrom(seen, lines)
    decreases |lines|
  {
    if |lines| == 0 {
      assert lines + rest == rest;
    } else {
      assert (lines + rest)[0] == lines[0] && (lines + rest)[1..] == lines[1..] + rest;
      if KindOf(lines[0]) == Ignored {
        StopsAtClasses(seen, lines[1..], rest);
      } else if KindOf(lines[0]) != ClassSection && Update(seen, lines[0]).Ok? {
        StopsAtClasses(Update(seen, lines[0]).value, lines[1..], rest);
      }
    }
  }

  /** The lines that are neither comments nor empty. */
  function Significant(lines: seq<string>): (r: seq<string>)
    ensures |r| <= |lines|
    ensures forall i :: 0 <= i < |r| ==> KindOf(r[i]) != Ignored
  {
    if |lines| == 0 then []
    else if KindOf(lines[0]) == Ignored then Significant(lines[1..])
    else [lines[0]] + Significant(lines[1..])
  }

  /** Comments and empty lines can be removed without changing the result. */
  lemma {:induction false} IgnoredLinesDoNotMatter(seen: Vendors, lines: seq<string>)
    ensures ParseFrom(seen, lines) == ParseFrom(seen, Significant(lines))
    decreases |lines|
  {
    if |lines| > 0 {
      var line := lines[0];
      if KindOf(line) == Ignored {
        IgnoredLinesDoNotMatter(seen, lines[1..]);
      } else {
        var sig := Significant(lines);
        assert sig[0] == line && sig[1..] == Significant(lines[1..]);
        if KindOf(line) != ClassSection && Update(seen, line).Ok? {
          IgnoredLinesDoNotMatter(Update(seen, line).value, lines[1..]);
        }
      }
    }
  }

  /** A file of only comments and empty lines (the empty file included) is an empty tree. */
  lemma OnlyIgnoredLines(lines: seq<string>)
    requires forall i :: 0 <= i < |lines| ==> KindOf(lines[i]) == Ignored
    ensures Parse(lines) == Ok(map[])
  {
    IgnoredLinesDoNotMatter(map[], lines);
    if |Significant(lines)| > 0 {
      SignificantIsSubsequence(lines, Significant(lines)[0]);
    }
  }

  lemma {:induction false} SignificantIsSubsequence(lines: seq<string>, line: string)
    requires line in Significant(lines)
    ensures line in lines
    decreases |lines|
  {
    if KindOf(lines[0]) == Ignored || line != lines[0] {
      SignificantIsSubsequence(lines[1..], line);
    }
  }

  // ---------------------------------------------------------------- the three line forms

  /** A four-digit lower-case hex id, as the database writes ids. */
  function HexId(id: nat): string
  {
    PadZeros(ToDigits(id, 16), 4)
  }

  lemma HexIdFacts(id: nat)
    requires id < IdBound
    ensures ParseUnsigned(HexId(id), 16, IdBound) == Some(id)
    ensures |HexId(id)| > 0 && ' ' !in HexId(id)
    ensures !IsSpace(HexId(id)[0]) && HexId(id)[0] != 'C' && HexId(id)[0] != '#'
  {
    ParseFormatted(id, 4, 16, IdBound);
    HexIdIsLowerHex(id);
  }

  lemma HexIdIsLowerHex(id: nat)
    ensures |HexId(id)| >= 4
    ensures forall i :: 0 <= i < |HexId(id)| ==> '0' <= HexId(id)[i] <= '9' || 'a' <= HexId(id)[i] <= 'f'
  {
    var s := ToDigits(id, 16);
    ToDigitsLowerCase(id, 16);
    if |s| < 4 {
      var z := Zeros(4 - |s|);
      assert HexId(id) == z + s;
      assert forall i :: 0 <= i < |z + s| ==> (z + s)[i] == if i < |z| then z[i] else s[i - |z|];
    }
  }

  /** One line on its own: a subdevice, device or vendor line makes its update. */
  lemma OneLine(seen: Vendors, line: string)
    requires KindOf(line) != ClassSection && KindOf(line) != Ignored
    ensures ParseFrom(seen, [line]) == Update(seen, line)
  {
    assert [line][0] == line && [line][1..] == [];
  }

  /** The text of a vendor line: `vvvv  name`. */
  function VendorText(vid: nat, name: string): string
  {
    HexId(vid) + "  " + name
  }

  lemma VendorTextFields(vid: nat, name: string)
    requires vid < IdBound && !Contains(name, "  ")
    ensures KindOf(VendorText(vid, name)) == VendorLine
    ensures SplitStr(VendorText(vid, name), "  ") == [HexId(vid), name]
    ensures ParseUnsigned(HexId(vid), 16, IdBound) == Some(vid)
  {
    HexIdFacts(vid);
    assert VendorText(vid, name)[0] == HexId(vid)[0];
    TwoSpaceSplit(HexId(vid), name);
  }

  /** An id without spaces, two spaces, and a name without two spaces in a row. */
  lemma TwoSpaceSplit(v: string, name: string)
    requires ' ' !in v && !Contains(name, "  ")
    ensures SplitStr(v + "  " + name, "  ") == [v, name]
  {
    SplitStrAfterPiece(v, "  ", name);
    SplitStrNoMatch(name, "  ");
  }

  /** A vendor line inserts (or replaces) the vendor with that id, that name and no devices. */
  lemma VendorLineInserts(seen: Vendors, vid: nat, name: string)
    requires vid < IdBound && !Contains(name, "  ")
    ensures ParseFrom(seen, [VendorText(vid, name)]) == Ok(seen[vid := Vendor(vid, name, map[])])
  {
    VendorTextFields(vid, name);
    VendorLineOfParts(seen, VendorText(vid, name), HexId(vid), vid, name);
  }

  lemma VendorLineOfParts(seen: Vendors, line: string, v: string, vid: nat, name: string)
    requires KindOf(line) == VendorLine
    requires SplitStr(line, "  ") == [v, name] && ParseUnsigned(v, 16, IdBound) == Some(vid)
    ensures ParseFrom(seen, [line]) == Ok(seen[vid := Vendor(vid, name, map[])])
  {
    OneLine(seen, line);
  }

  /** The text of a device line: `\tpppp  name`. */
  function DeviceText(pid: nat, name: string): string
  {
    "\t" + HexId(pid) + "  " + name
  }

  lemma DeviceTextFields(pid: nat, name: string)
    requires pid < IdBound && !Contains(name, "  ")
    ensures KindOf(DeviceText(pid, name)) == DeviceLine
    ensures SplitStr(TrimStart(DeviceText(pid, name)), "  ") == [HexId(pid), name]
    ensures ParseUnsigned(HexId(pid), 16, IdBound) == Some(pid)
  {
    HexIdFacts(pid);
    TrimDeviceLine(HexId(pid), name);
    TwoSpaceSplit(HexId(pid), name);
  }

  lemma TrimDeviceLine(p: string, name: string)
    requires |p| > 0 && !IsSpace(p[0])
    ensures KindOf("\t" + p + "  " + name) == DeviceLine
    ensures TrimStart("\t" + p + "  " + name) == p + "  " + name
  {
    var body := p + "  " + name;
    assert "\t" + p + "  " + name == "\t" + body;
    assert body[0] == p[0];
    TrimStartPrefix("\t", body);
  }

  /** A device line inserts (or replaces) the device with that id under the vendor with
      the largest id seen so far, recording that vendor's id. */
  lemma DeviceLineInserts(seen: Vendors, pid: nat, name: string)
    requires seen != map[] && pid < IdBound && !Contains(name, "  ")
    ensures var vid := LastKey(seen);
      ParseFrom(seen, [DeviceText(pid, name)])
      == Ok(seen[vid := seen[vid].(devices := seen[vid].devices[pid := Device(pid, vid, name, [])])])
  {
    DeviceTextFields(pid, name);
    DeviceLineOfParts(seen, DeviceText(pid, name), HexId(pid), pid, name);
  }

  lemma DeviceLineOfParts(seen: Vendors, line: string, p: string, pid: nat, name: string)
    requires seen != map[] && KindOf(line) == DeviceLine
    requires SplitStr(TrimStart(line), "  ") == [p, name] && ParseUnsigned(p, 16, IdBound) == Some(pid)
    ensures var vid := LastKey(seen);
      ParseFrom(seen, [line])
      == Ok(seen[vid := seen[vid].(devices := seen[vid].devices[pid := Device(pid, vid, name, [])])])
  {
    OneLine(seen, line);
  }

  /** A device line before any vendor line is rejected. */
  lemma DeviceNeedsVendor(line: string, rest: seq<string>)
    requires KindOf(line) == DeviceLine
    ensures ParseFrom(map[], [line] + rest) == Err(NoPrecedingVendor)
  {
    RejectedLineEndsParse(map[], line, rest, NoPrecedingVendor);
  }

  /** The text of a subdevice line: `\t\tvvvv pppp  name`. */
  function SubdeviceText(subVid: nat, subPid: nat, name: string): string
  {
    "\t\t" + HexId(subVid) + " " + HexId(subPid) + "  " + name
  }

  lemma SubdeviceFields(subVid: nat, subPid: nat, name: string)
    requires subVid < IdBound && subPid < IdBound
    ensures KindOf(SubdeviceText(subVid, subPid, name)) == SubdeviceLine
    ensures SplitN(TrimStart(SubdeviceText(subVid, subPid, name)), 4, ' ')
      == [HexId(subVid), HexId(subPid), "", name]
  {
    HexIdFacts(subVid);
    HexIdFacts(subPid);
    TrimSubdeviceLine(HexId(subVid), HexId(subPid), name);
    SubdeviceSplit(HexId(subVid), HexId(subPid), name);
  }

  lemma TrimSubdeviceLine(v: string, p: string, name: string)
    requires |v| > 0 && !IsSpace(v[0])
    ensures KindOf("\t\t" + v + " " + p + "  " + name) == SubdeviceLine
    ensures TrimStart("\t\t" + v + " " + p + "  " + name) == v + " " + p + "  " + name
  {
    var body := v + " " + p + "  " + name;
    assert "\t\t" + v + " " + p + "  " + name == "\t\t" + body;
    assert body[0] == v[0];
    TrimStartPrefix("\t\t", body);
  }

  lemma SubdeviceSplit(v: string, p: string, name: string)
    requires ' ' !in v && ' ' !in p
    ensures SplitN(v + " " + p + "  " + name, 4, ' ') == [v, p, "", name]
  {
    assert v + " " + p + "  " + name == v + [' '] + (p + [' '] + ([' '] + name)) by {
      assert "  " == [' '] + [' '];
    }
    SplitAfterIdAndPid(v, p, name);
  }

  lemma SplitAfterIdAndPid(v: string, p: string, name: string)
    requires ' ' !in v && ' ' !in p
    ensures SplitN(v + [' '] + (p + [' '] + ([' '] + name)), 4, ' ') == [v, p, "", name]
  {
    SplitAfterPid(p, name);
    SplitNAfterPiece(v, ' ', p + [' '] + ([' '] + name), 4);
  }

  lemma SplitAfterPid(p: string, name: string)
    requires ' ' !in p
    ensures SplitN(p + [' '] + ([' '] + name), 3, ' ') == [p, "", name]
  {
    assert [' '] + name == "" + [' '] + name;
    SplitNAfterPiece("", ' ', name, 2);
    SplitNAfterPiece(p, ' ', [' '] + name, 3);
  }

  /** What a subdevice line with well-formed fields does to the tree. */
  lemma AddSubdeviceOfFields(seen: Vendors, subVid: nat, subPid: nat, name: string)
    requires subVid < IdBound && subPid < IdBound
    ensures var r := AddSubdevice(seen, SubdeviceText(subVid, subPid, name));
      if seen == map[] || seen[LastKey(seen)].devices == map[] then r == Err(NoPrecedingDevice)
      else
        var vid := LastKey(seen);
        var pid := LastKey(seen[vid].devices);
        var device := seen[vid].devices[pid];
        var device' := device.(subDevices := device.subDevices + [Subdevice(subPid, subVid, name)]);
        r == Ok(seen[vid := seen[vid].(devices := seen[vid].devices[pid := device'])])
  {
    SubdeviceFields(subVid, subPid, name);
    HexIdFacts(subVid);
    HexIdFacts(subPid);
    AddSubdeviceOfParts(seen, SubdeviceText(subVid, subPid, name), HexId(subVid), HexId(subPid), name);
  }

  lemma AddSubdeviceOfParts(seen: Vendors, line: string, v: string, p: string, name: string)
    requires SplitN(TrimStart(line), 4, ' ') == [v, p, "", name]
    requires ParseUnsigned(v, 16, IdBound).Some? && ParseUnsigned(p, 16, IdBound).Some?
    ensures var subVid, subPid := ParseUnsigned(v, 16, IdBound).value, ParseUnsigned(p, 16, IdBound).value;
      var r := AddSubdevice(seen, line);
      if seen == map[] || seen[LastKey(seen)].devices == map[] then r == Err(NoPrecedingDevice)
      else
        var vid := LastKey(seen);
        var pid := LastKey(seen[vid].devices);
        var device := seen[vid].devices[pid];
        var device' := device.(subDevices := device.subDevices + [Subdevice(subPid, subVid, name)]);
        r == Ok(seen[vid := seen[vid].(devices := seen[vid].devices[pid := device'])])
  {
  }

  /** A subdevice line is appended, after the subdevices already there, to the device with
      the largest id of the vendor with the largest id; its first field is its `vendor_id`
      and its second its `id`. */
  lemma SubdeviceLineAppends(seen: Vendors, subVid: nat, subPid: nat, name: string)
    requires seen != map[] && seen[LastKey(seen)].devices != map[]
    requires subVid < IdBound && subPid < IdBound
    ensures var vid := LastKey(seen);
      var pid := LastKey(seen[vid].devices);
      var device := seen[vid].devices[pid];
      var device' := device.(subDevices := device.subDevices + [Subdevice(subPid, subVid, name)]);
      ParseFrom(seen, [SubdeviceText(subVid, subPid, name)])
      == Ok(seen[vid := seen[vid].(devices := seen[vid].devices[pid := device'])])
  {
    SubdeviceFields(subVid, subPid, name);
    AddSubdeviceOfFields(seen, subVid, subPid, name);
    OneLine(seen, SubdeviceText(subVid, subPid, name));
  }

  /** A subdevice line with no device before it (or no vendor) is rejected. */
  lemma SubdeviceNeedsDevice(seen: Vendors, subVid: nat, subPid: nat, name: string, rest: seq<string>)
    requires seen == map[] || seen[LastKey(seen)].devices == map[]
    requires subVid < IdBound && subPid < IdBound
    ensures ParseFrom(seen, [SubdeviceText(subVid, subPid, name)] + rest) == Err(NoPrecedingDevice)
  {
    var line := SubdeviceText(subVid, subPid, name);
    SubdeviceFields(subVid, subPid, name);
    AddSubdeviceOfFields(seen, subVid, subPid, name);
    RejectedLineEndsParse(seen, line, rest, NoPrecedingDevice);
  }

  /** A line whose update fails ends the parse with that error, whatever follows. */
  lemma RejectedLineEndsParse(seen: Vendors, line: string, rest: seq<string>, e: ParseError)
    requires KindOf(line) != ClassSection && KindOf(line) != Ignored
    requires Update(seen, line) == Err(e)
    ensures ParseFrom(seen, [line] + rest) == Err(e)
  {
    assert ([line] + rest)[0] == line;
  }

  /** A vendor line, or a device line under some vendor, whose id field is not a hex `u16`
      ends the parse with an error. */
  lemma BadIdIsRejected(seen: Vendors, line: string, rest: seq<string>)
    requires
      || (KindOf(line) == VendorLine && ParseUnsigned(SplitStr(line, "  ")[0], 16, IdBound).None?)
      || (KindOf(line) == DeviceLine && seen != map[]
          && ParseUnsigned(SplitStr(TrimStart(line), "  ")[0], 16, IdBound).None?)
    ensures ParseFrom(seen, [line] + rest) == Err(InvalidId)
  {
    RejectedLineEndsParse(seen, line, rest, InvalidId);
  }
}

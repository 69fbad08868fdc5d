/** Network interfaces under `/sys/class/net`: the type guessed from the interface name, the
    `uevent` reader, the directory filter, and the identity and naming rules. */
module Network {
  import opened Wrappers
  import opened Text
  import DirListing

  datatype InterfaceType =
    | Bluetooth | Bridge | Ethernet | InfiniBand | Slip | VirtualEthernet
    | VmBridge | Wireguard | Wlan | Wwan | Unknown

  /** `InterfaceType::from_interface_name`: the first matching prefix of the kernel's naming
      scheme decides; no name is classified as a bridge. */
  function FromInterfaceName(name: string): (t: InterfaceType)
    ensures t != Bridge
    ensures t == Unknown ==> !StartsWith(name, "bn") && !StartsWith(name, "eth") && !StartsWith(name, "en")
                             && !StartsWith(name, "ib") && !StartsWith(name, "sl") && !StartsWith(name, "veth")
                             && !StartsWith(name, "virbr") && !StartsWith(name, "wg")
                             && !StartsWith(name, "wl") && !StartsWith(name, "ww")
  {
    if StartsWith(name, "bn") then Bluetooth
    else if StartsWith(name, "eth") || StartsWith(name, "en") then Ethernet
    else if StartsWith(name, "ib") then InfiniBand
    else if StartsWith(name, "sl") then Slip
    else if StartsWith(name, "veth") then VirtualEthernet
    else if StartsWith(name, "virbr") then VmBridge
    else if StartsWith(name, "wg") then Wireguard
    else if StartsWith(name, "wl") then Wlan
    else if StartsWith(name, "ww") then Wwan
    else Unknown
  }

  /** The first two characters of a name carrying a prefix are those of the prefix. */
  lemma PrefixHead(name: string, p: string)
    requires |p| >= 2
    ensures StartsWith(name, p) ==> |name| >= 2 && name[0] == p[0] && name[1] == p[1]
  {
    if StartsWith(name, p) {
      assert name[..|p|][0] == name[0] && name[..|p|][1] == name[1];
    }
  }

  /** The prefixes differ in their first two characters (except the two Ethernet ones), so
      the order of the tests does not matter: each type is chosen exactly when the name
      carries one of its prefixes. */
  lemma TypeIffPrefix(name: string)
    ensures FromInterfaceName(name) == Bluetooth <==> StartsWith(name, "bn")
    ensures FromInterfaceName(name) == Ethernet <==> StartsWith(name, "eth") || StartsWith(name, "en")
    ensures FromInterfaceName(name) == InfiniBand <==> StartsWith(name, "ib")
    ensures FromInterfaceName(name) == Slip <==> StartsWith(name, "sl")
    ensures FromInterfaceName(name) == VirtualEthernet <==> StartsWith(name, "veth")
    ensures FromInterfaceName(name) == VmBridge <==> StartsWith(name, "virbr")
    ensures FromInterfaceName(name) == Wireguard <==> StartsWith(name, "wg")
    ensures FromInterfaceName(name) == Wlan <==> StartsWith(name, "wl")
    ensures FromInterfaceName(name) == Wwan <==> StartsWith(name, "ww")
  {
    PrefixHead(name, "bn");
    PrefixHead(name, "eth");
    PrefixHead(name, "en");
    PrefixHead(name, "ib");
    PrefixHead(name, "sl");
    PrefixHead(name, "veth");
    PrefixHead(name, "virbr");
    PrefixHead(name, "wg");
    PrefixHead(name, "wl");
    PrefixHead(name, "ww");
  }

  /** `NetworkInterface::is_virtual`: bridges, VM bridges, veth pairs and WireGuard tunnels. */
  predicate IsVirtual(t: InterfaceType)
  {
    t == Bridge || t == VmBridge || t == VirtualEthernet || t == Wireguard
  }

  /** A name is treated as virtual exactly when it starts with "veth", "virbr" or "wg". */
  lemma VirtualNames(name: string)
    ensures IsVirtual(FromInterfaceName(name))
        <==> StartsWith(name, "veth") || StartsWith(name, "virbr") || StartsWith(name, "wg")
  {
    TypeIffPrefix(name);
  }

  /** `Display for InterfaceType` (before translation). */
  function TypeToString(t: InterfaceType): string
  {
    match t
    case Bluetooth => "Bluetooth Tether"
    case Bridge => "Network Bridge"
    case Ethernet => "Ethernet Connection"
    case InfiniBand => "InfiniBand Connection"
    case Slip => "Serial Line IP Connection"
    case VirtualEthernet => "Virtual Ethernet Device"
    case VmBridge => "VM Network Bridge"
    case Wireguard => "VPN Tunnel (WireGuard)"
    case Wlan => "Wi-Fi Connection"
    case Wwan => "WWAN Connection"
    case Unknown => "Network Interface"
  }

  lemma TypeToStringInjective(a: InterfaceType, b: InterfaceType)
    ensures TypeToString(a) == TypeToString(b) ==> a == b
  {
  }

  // ---------------------------------------------------------------- uevent

  /** One `KEY=VALUE` line of a `uevent` file: kept only when splitting on '=' gives exactly
      two pieces. */
  function Entry(line: string): (r: Option<(string, string)>)
    ensures r.Some? ==> line == r.value.0 + "=" + r.value.1
  {
    var parts := Split(line, {'='});
    if |parts| == 2 then
      JoinSplit(line, '=');
      assert Join(parts, '=') == parts[0] + "=" + Join(parts[1..], '=');
      Some((parts[0], parts[1]))
    else None
  }

  /** A line built from a key and a value without '=' is read back as that pair. */
  lemma EntryRoundTrip(key: string, value: string)
    requires NoneOf(key, {'='}) && NoneOf(value, {'='})
    ensures Entry(key + "=" + value) == Some((key, value))
  {
    SplitAfterPiece(key, '=', value, {'='});
    SplitPlain(value, {'='});
  }

  /** The map `read_uevent` builds from the lines of the file: later lines overwrite earlier
      ones with the same key. */
  function UeventOf(lines: seq<string>): map<string, string>
  {
    if |lines| == 0 then map[]
    else
      var m := UeventOf(lines[..|lines| - 1]);
      match Entry(lines[|lines| - 1])
      case Some(kv) => m[kv.0 := kv.1]
      case None => m
  }

  /** A key is present exactly when some well-formed line carries it. */
  lemma {:induction false} UeventKeys(lines: seq<string>, key: string)
    ensures key in UeventOf(lines)
        <==> exists i :: 0 <= i < |lines| && Entry(lines[i]).Some? && Entry(lines[i]).value.0 == key
  {
    if |lines| > 0 {
      var init := lines[..|lines| - 1];
      UeventKeys(init, key);
      assert forall i :: 0 <= i < |init| ==> init[i] == lines[i];
    }
  }

  /** The value of a key is the one on the last well-formed line that carries it. */
  lemma {:induction false} UeventLastWins(lines: seq<string>, i: nat)
    requires i < |lines| && Entry(lines[i]).Some?
    requires forall j :: i < j < |lines| && Entry(lines[j]).Some?
               ==> Entry(lines[j]).value.0 != Entry(lines[i]).value.0
    ensures Entry(lines[i]).value.0 in UeventOf(lines)
    ensures UeventOf(lines)[Entry(lines[i]).value.0] == Entry(lines[i]).value.1
  {
    if i < |lines| - 1 {
      var init := lines[..|lines| - 1];
      assert init[i] == lines[i];
      forall j | i < j < |init| && Entry(init[j]).Some?
        ensures Entry(init[j]).value.0 != Entry(init[i]).value.0
      {
        assert init[j] == lines[j];
      }
      UeventLastWins(init, i);
    }
  }

  /** `read_uevent`: split the file into lines and each line on '=', keeping two-piece lines. */
  method ReadUevent(text: string) returns (m: map<string, string>)
    ensures m == UeventOf(Split(text, {'\n'}))
  {
    var lines := Split(text, {'\n'});
    m := map[];
    for i := 0 to |lines|
      invariant m == UeventOf(lines[..i])
    {
      assert lines[..i + 1][..i] == lines[..i];
      var parts := Split(lines[i], {'='});
      if |parts| == 2 {
        m := m[parts[0] := parts[1]];
      }
    }
    assert lines[..|lines|] == lines;
  }

  // ---------------------------------------------------------------- directory scan

  /** `get_sysfs_paths` skips the loopback interfaces, whose names start with "lo". */
  predicate NotLoopback(name: string)
  {
    !StartsWith(name, "lo")
  }

  /** The paths `get_sysfs_paths` keeps from readable entries, in directory order: every
      entry except those whose name starts with "lo". */
  function KeptNames(es: seq<DirListing.Entry<string>>): (r: seq<string>)
    ensures forall i :: 0 <= i < |es| && NotLoopback(es[i].info) ==> es[i].path in r
    ensures forall x :: x in r ==> exists i :: 0 <= i < |es| && es[i].path == x && NotLoopback(es[i].info)
    ensures |r| <= |es|
  {
    if |es| == 0 then []
    else
      var n := |es| - 1;
      assert forall i :: 0 <= i < n ==> es[..n][i] == es[i];
      KeptNames(es[..n]) + (if NotLoopback(es[n].info) then [es[n].path] else [])
  }

  /** The listing when every entry could be read. */
  function AllRead(es: seq<DirListing.Entry<string>>): (r: seq<Result<DirListing.Entry<string>, string>>)
    ensures |r| == |es| && forall i :: 0 <= i < |es| ==> r[i] == Ok(es[i])
  {
    seq(|es|, i requires 0 <= i < |es| => Ok(es[i]))
  }

  /** `get_sysfs_paths`: the `while let` loop over the entries of /sys/class/net; an
      unreadable entry ends it with its error (`entry?`), loopback devices are skipped. */
  method GetSysfsPaths(entries: seq<Result<DirListing.Entry<string>, string>>) returns (r: Result<seq<string>, string>)
    ensures r == DirListing.Kept(entries, NotLoopback)
  {
    var list: seq<string> := [];
    var i := 0;
    while i < |entries|
      invariant 0 <= i <= |entries|
      invariant DirListing.Kept(entries[..i], NotLoopback) == Ok(list)
    {
      assert entries[..i + 1][..i] == entries[..i];
      if entries[i].Err? {
        DirListing.KeptErrorSticks(entries, NotLoopback, i + 1);
        return Err(entries[i].error);
      }
      var entry := entries[i].value;
      if StartsWith(entry.info, "lo") {
        i := i + 1;
        continue;
      }
      list := list + [entry.path];
      i := i + 1;
    }
    assert entries[..i] == entries;
    r := Ok(list);
  }

  /** A listing whose entries all read gives exactly the kept paths, in order. */
  lemma {:induction false} ReadableListing(es: seq<DirListing.Entry<string>>)
    ensures DirListing.Kept(AllRead(es), NotLoopback) == Ok(KeptNames(es))
    decreases |es|
  {
    if |es| > 0 {
      var n := |es| - 1;
      var all := AllRead(es);
      assert all[..n] == AllRead(es[..n]);
      ReadableListing(es[..n]);
      assert all[n] == Ok(es[n]);
      assert KeptNames(es[..n]) + [] == KeptNames(es[..n]);
    }
  }

  // ---------------------------------------------------------------- interfaces

  /** The identifying and descriptive fields of a `NetworkInterface`; the sysfs paths and the
      byte counters are left out. */
  datatype NetworkInterface = NetworkInterface(
    interfaceName: string,
    driverName: Option<string>,
    interfaceType: InterfaceType,
    speed: Option<nat>,
    vendor: Option<string>,
    pidName: Option<string>,
    deviceName: Option<string>,
    hwAddress: Option<string>)

  /** `PartialEq for NetworkInterface`: name, vendor, product name and hardware address. */
  predicate SameInterface(a: NetworkInterface, b: NetworkInterface)
  {
    a.interfaceName == b.interfaceName && a.vendor == b.vendor
    && a.pidName == b.pidName && a.hwAddress == b.hwAddress
  }

  /** The comparison is an equivalence that ignores the driver, type, speed and label, so a
      change of link speed does not make an interface a new one. */
  lemma SameInterfaceIsEquivalence(a: NetworkInterface, b: NetworkInterface, c: NetworkInterface)
    ensures SameInterface(a, a)
    ensures SameInterface(a, b) ==> SameInterface(b, a)
    ensures SameInterface(a, b) && SameInterface(b, c) ==> SameInterface(a, c)
    ensures SameInterface(a, a.(driverName := b.driverName, interfaceType := b.interfaceType,
                                 speed := b.speed, deviceName := b.deviceName))
  {
  }

  /** `display_name`: the device label, else the PCI product name, else the interface name. */
  function DisplayName(iface: NetworkInterface): (s: string)
    ensures iface.deviceName.Some? ==> s == iface.deviceName.value
    ensures iface.deviceName.None? && iface.pidName.Some? ==> s == iface.pidName.value
    ensures iface.deviceName.None? && iface.pidName.None? ==> s == iface.interfaceName
  {
    iface.deviceName.UnwrapOr(iface.pidName.UnwrapOr(iface.interfaceName))
  }

  /** The vendor and product ids from the `PCI_ID` uevent entry: (0, 0) when the entry is
      missing or does not have exactly two ':'-pieces, and otherwise the error of the first
      piece that is not a 16-bit hex number, with Rust's message for it. */
  function VidPid(uevent: map<string, string>): (r: Result<(nat, nat), string>)
    ensures r.Ok? && r.value != (0, 0) ==> "PCI_ID" in uevent && |Split(uevent["PCI_ID"], {':'})| == 2
    ensures r.Ok? ==> r.value.0 < 0x1_0000 && r.value.1 < 0x1_0000
    ensures r.Err? ==> "PCI_ID" in uevent && |Split(uevent["PCI_ID"], {':'})| == 2
    ensures r.Err? && Split(uevent["PCI_ID"], {':'})[0] == "" ==> r.error == EmptyIntMessage
    ensures r.Err? && r.error == EmptyIntMessage ==> "" in Split(uevent["PCI_ID"], {':'})
  {
    if "PCI_ID" !in uevent then Ok((0, 0))
    else
      var parts := Split(uevent["PCI_ID"], {':'});
      if |parts| != 2 then Ok((0, 0))
      else
        match (ParseUnsigned(parts[0], 16, 0x1_0000), ParseUnsigned(parts[1], 16, 0x1_0000))
        case (Some(v), Some(p)) => Ok((v, p))
        case (None, _) => Err(UnsignedParseError(parts[0], 16, 0x1_0000))
        case (_, None) => Err(UnsignedParseError(parts[1], 16, 0x1_0000))
  }

  /** A `PCI_ID` written as two hex ids separated by ':' yields those ids. */
  lemma VidPidRoundTrip(vid: nat, pid: nat, uevent: map<string, string>)
    requires vid < 0x1_0000 && pid < 0x1_0000
    requires "PCI_ID" in uevent && uevent["PCI_ID"] == ToDigits(vid, 16) + ":" + ToDigits(pid, 16)
    ensures VidPid(uevent) == Ok((vid, pid))
  {
    var a := ToDigits(vid, 16);
    var b := ToDigits(pid, 16);
    HexHasNoColon(vid);
    HexHasNoColon(pid);
    SplitAfterPiece(a, ':', b, {':'});
    SplitPlain(b, {':'});
    ParseFormatted(vid, 0, 16, 0x1_0000);
    ParseFormatted(pid, 0, 16, 0x1_0000);
  }

  lemma HexHasNoColon(x: nat)
    ensures NoneOf(ToDigits(x, 16), {':'})
  {
    ToDigitsLowerCase(x, 16);
  }

  /** The `speed` field as `from_sysfs` reads it: the file text parsed as a `usize` as it
      is, 0 when that fails, `None` when the file cannot be read. */
  function SpeedAsWritten(read: Option<string>): (r: Option<nat>)
    ensures r.None? <==> read.None?
  {
    match read
    case None => None
    case Some(text) => Some(ParseUnsigned(text, 10, 0x1_0000_0000_0000_0000).UnwrapOr(0))
  }

  /** The kernel terminates the `speed` attribute with a newline, which `parse` does not
      accept, so the speed read as written is always 0. */
  lemma SpeedAsWrittenIsZero(mbps: nat)
    requires mbps < 0x1_0000_0000_0000_0000
    ensures SpeedAsWritten(Some(ToDigits(mbps, 10) + "\n")) == Some(0)
  {
    var s := ToDigits(mbps, 10) + "\n";
    assert DigitValue(s[|s| - 1], 10).None?;
  }

  /** The `speed` field with the newline removed first, as the byte counters of the same
      interface are read. */
  function Speed(read: Option<string>): (r: Option<nat>)
    ensures r.None? <==> read.None?
  {
    match read
    case None => None
    case Some(text) => Some(ParseUnsigned(RemoveChar(text, '\n'), 10, 0x1_0000_0000_0000_0000).UnwrapOr(0))
  }

  /** Read with the newline removed, the kernel's speed attribute gives the link speed. */
  lemma SpeedReadsAttribute(mbps: nat)
    requires mbps < 0x1_0000_0000_0000_0000
    ensures Speed(Some(ToDigits(mbps, 10) + "\n")) == Some(mbps)
  {
    var d := ToDigits(mbps, 10);
    RemoveNewlineFromDigits(d);
    ParseDecimal(mbps, 0x1_0000_0000_0000_0000);
  }

  lemma {:induction false} RemoveNewlineFromDigits(d: string)
    requires AllDigits(d, 10)
    ensures RemoveChar(d + "\n", '\n') == d
    decreases |d|
  {
    if |d| > 0 {
      assert (d + "\n")[1..] == d[1..] + "\n";
      assert DigitValue(d[0], 10).Some?;
      RemoveNewlineFromDigits(d[1..]);
    } else {
      assert ("\n")[1..] == "";
    }
  }

  /** `NetworkInterface::from_sysfs` with the file reads as parameters: the interface name,
      the device's uevent map, the `speed`, `device/label` and `address` reads (`None` when
      unreadable), and the pci.ids vendor and device name lookups. */
  function FromSysfs(name: string, uevent: map<string, string>, speedRead: Option<string>,
                     labelRead: Option<string>, addressRead: Option<string>,
                     vendorName: nat -> Option<string>, deviceName: (nat, nat) -> Option<string>)
    : (r: Result<NetworkInterface, string>)
    ensures r.Ok? <==> VidPid(uevent).Ok?
    ensures r.Ok? ==> r.value.interfaceType == FromInterfaceName(name)
                      && r.value.vendor == vendorName(VidPid(uevent).value.0)
                      && r.value.pidName == deviceName(VidPid(uevent).value.0, VidPid(uevent).value.1)
                      && r.value.driverName == (if "DRIVER" in uevent then Some(uevent["DRIVER"]) else None)
    ensures r.Ok? ==> r.value.interfaceName == name && r.value.speed == Speed(speedRead)
    ensures r.Ok? ==> (r.value.deviceName.Some? <==> labelRead.Some?)
                      && (labelRead.Some? ==> r.value.deviceName.value == RemoveChar(labelRead.value, '\n'))
    ensures r.Ok? ==> (r.value.hwAddress.Some? <==> addressRead.Some?)
                      && (addressRead.Some? ==> r.value.hwAddress.value == RemoveChar(addressRead.value, '\n'))
  {
    match VidPid(uevent)
    case Err(e) => Err(e)
    case Ok(ids) =>
      Ok(NetworkInterface(
        name,
        if "DRIVER" in uevent then Some(uevent["DRIVER"]) else None,
        FromInterfaceName(name),
        Speed(speedRead),
        vendorName(ids.0),
        deviceName(ids.0, ids.1),
        if labelRead.Some? then Some(RemoveChar(labelRead.value, '\n')) else None,
        if addressRead.Some? then Some(RemoveChar(addressRead.value, '\n')) else None))
  }
}

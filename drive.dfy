/** Block devices under /sys/block (src/utils/drive.rs): the name filter that picks the
    drives, the decision chain that classifies a drive, and the flag files read from its
    sysfs directory. The directory is a map from file name (relative to it) to contents, a
    missing name standing for a file that cannot be read. */
module Drive {
  import opened Wrappers
  import opened Text
  import Counters
  import DirListing

  datatype DriveType = CdDvdBluray | Emmc | Flash | Floppy | Hdd | Nvme | Unknown | Ssd

  datatype Drive = Drive(model: Option<string>, driveType: DriveType, blockDevice: string, sysFsPath: seq<string>)

  /** `PartialEq for Drive`: two drives are the same drive when their block devices are. */
  predicate SameDrive(a: Drive, b: Drive)
  {
    a.blockDevice == b.blockDevice
  }

  // ---------------------------------------------------------------- get_sysfs_paths

  /** The name prefixes of virtual block devices: loop devices, RAM disks, software RAID,
      device-mapper and ZFS volumes. */
  predicate IsVirtual(name: string)
  {
    StartsWith(name, "loop") || StartsWith(name, "ram") || StartsWith(name, "zram") ||
    StartsWith(name, "md") || StartsWith(name, "dm") || StartsWith(name, "zd")
  }

  /** Whether `get_sysfs_paths` lists a block device of this name. */
  predicate Listed(name: string, skipVirtualDevices: bool)
  {
    !(name == "" || (skipVirtualDevices && IsVirtual(name)))
  }

  /** `get_sysfs_paths`: the block devices the name filter lets through, in directory order. */
  method SysfsPaths(entries: seq<Result<DirListing.Entry<string>, string>>, skipVirtualDevices: bool)
    returns (r: Result<seq<string>, string>)
    ensures r == DirListing.Kept(entries, name => Listed(name, skipVirtualDevices))
  {
    r := DirListing.ListKept(entries, name => Listed(name, skipVirtualDevices));
  }

  /** A device is listed exactly when its name is not empty and, when virtual devices are
      skipped, does not start with a virtual prefix; with the flag off every named device is
      listed. */
  lemma SysfsPathsFilter(entries: seq<Result<DirListing.Entry<string>, string>>, skipVirtualDevices: bool, p: string)
    requires forall i :: 0 <= i < |entries| ==> entries[i].Ok?
    ensures DirListing.Kept(entries, name => Listed(name, skipVirtualDevices)).Ok?
    ensures p in DirListing.Kept(entries, name => Listed(name, skipVirtualDevices)).value <==>
      (exists i :: 0 <= i < |entries| && entries[i].value.path == p && entries[i].value.info != "" &&
         !(skipVirtualDevices && IsVirtual(entries[i].value.info)))
  {
    DirListing.KeptMembers(entries, name => Listed(name, skipVirtualDevices), p);
  }

  /** Examples of the filter: "sda" always passes, "loop0" only while virtual devices are
      shown, and an empty name never. */
  lemma ListedExamples()
    ensures Listed("sda", true) && Listed("loop0", false) && !Listed("loop0", true)
    ensures !Listed("", false) && !Listed("zram0", true)
  {
    assert "zram0"[..4] == "zram";
    assert "loop0"[..4] == "loop";
    var sda := "sda";
    assert sda[..2][0] != "md"[0] && sda[..2][0] != "dm"[0] && sda[..2][0] != "zd"[0];
    assert sda[..3][0] != "ram"[0];
  }

  // ---------------------------------------------------------------- flag files

  /** `parse::<u8>()` of a file with its line breaks removed; `None` when it is missing. */
  function ByteFile(files: map<string, string>, name: string): (r: Option<Option<nat>>)
    ensures r.Some? <==> name in files
    ensures r.Some? && r.value.Some? ==> r.value.value < 256
  {
    if name in files then Some(ParseUnsigned(RemoveChar(files[name], '\n'), 10, 256)) else None
  }

  /** `removable`: the "removable" file's value is not 0. */
  function Removable(files: map<string, string>): (r: Result<bool, string>)
    ensures r.Ok? <==> "removable" in files && ByteFile(files, "removable").value.Some?
    ensures r.Ok? ==> (r.value <==> ByteFile(files, "removable").value.value != 0)
  {
    match ByteFile(files, "removable")
    case None => Err("unable to read removable sysfs file")
    case Some(None) => Err("unable to parse removable sysfs file")
    case Some(Some(rem)) => Ok(rem != 0)
  }

  /** `writable`: the "ro" file's value is 0. */
  function Writable(files: map<string, string>): (r: Result<bool, string>)
    ensures r.Ok? <==> "ro" in files && ByteFile(files, "ro").value.Some?
    ensures r.Ok? ==> (r.value <==> ByteFile(files, "ro").value.value == 0)
  {
    match ByteFile(files, "ro")
    case None => Err("unable to read ro sysfs file")
    case Some(None) => Err("unable to parse ro sysfs file")
    case Some(Some(ro)) => Ok(ro == 0)
  }

  /** A file holding a byte value and a line break parses as that value. */
  lemma ByteFileOf(files: map<string, string>, name: string, v: nat)
    requires name in files && files[name] == ToDigits(v, 10) + "\n" && v < 256
    ensures ByteFile(files, name) == Some(Some(v))
  {
    ParseDecimalLine(v, 256);
  }

  /** The "removable" and "ro" flags as the kernel writes them: removable unless 0, writable
      only when 0. */
  lemma FlagsOfValues(files: map<string, string>, rem: nat, ro: nat)
    requires "removable" in files && files["removable"] == ToDigits(rem, 10) + "\n" && rem < 256
    requires "ro" in files && files["ro"] == ToDigits(ro, 10) + "\n" && ro < 256
    ensures Removable(files) == Ok(rem != 0)
    ensures Writable(files) == Ok(ro == 0)
  {
    ByteFileOf(files, "removable", rem);
    ByteFileOf(files, "ro", ro);
  }

  /** `capacity` (in sectors) and `sector_size`: a `u64` with line breaks removed. */
  function U64File(files: map<string, string>, name: string): (r: Result<nat, string>)
    ensures r.Ok? ==> r.value < Counters.U64Bound
    ensures r.Ok? <==> name in files && ParseUnsigned(RemoveChar(files[name], '\n'), 10, Counters.U64Bound).Some?
  {
    if name !in files then Err("unable to read " + name)
    else
      match ParseUnsigned(RemoveChar(files[name], '\n'), 10, Counters.U64Bound)
      case None => Err("unable to parse " + name)
      case Some(x) => Ok(x)
  }

  /** A size file written out from a number reads back as it. */
  lemma U64FileOf(files: map<string, string>, name: string, x: nat)
    requires name in files && files[name] == ToDigits(x, 10) + "\n" && x < Counters.U64Bound
    ensures U64File(files, name) == Ok(x)
  {
    ParseDecimalLine(x, Counters.U64Bound);
  }

  /** `model` and `wwid`: a file's raw contents. */
  function TextFile(files: map<string, string>, name: string): (r: Result<string, string>)
    ensures r.Ok? <==> name in files
    ensures r.Ok? ==> r.value == files[name]
  {
    if name in files then Ok(files[name]) else Err("unable to read " + name)
  }

  // ---------------------------------------------------------------- drive_type

  /** `drive_type`: the name prefixes first (nvme, mmc, fd, sr), before any file is read;
      then the rotational flag (an unreadable file is `Unknown`, an unparsable one an
      error), and for a non-rotational drive the removable flag. */
  function DriveTypeOf(blockDevice: string, files: map<string, string>): (r: Result<DriveType, string>)
  {
    if StartsWith(blockDevice, "nvme") then Ok(Nvme)
    else if StartsWith(blockDevice, "mmc") then Ok(Emmc)
    else if StartsWith(blockDevice, "fd") then Ok(Floppy)
    else if StartsWith(blockDevice, "sr") then Ok(CdDvdBluray)
    else
      match ByteFile(files, "queue/rotational")
      case None => Ok(Unknown)
      case Some(None) => Err("unable to parse queue/rotational")
      case Some(Some(rot)) =>
        if rot != 0 then Ok(Hdd)
        else
          match Removable(files)
          case Err(e) => Err(e)
          case Ok(removable) => Ok(if removable then Flash else Ssd)
  }

  /** Whether a name carries one of the prefixes that decide the type by name alone. */
  predicate NamedType(blockDevice: string)
  {
    StartsWith(blockDevice, "nvme") || StartsWith(blockDevice, "mmc") ||
    StartsWith(blockDevice, "fd") || StartsWith(blockDevice, "sr")
  }

  /** A name with a deciding prefix is classified without reading any file: two sysfs
      directories give the same answer, and that answer is never an error. */
  lemma NamedTypeReadsNothing(blockDevice: string, files: map<string, string>, others: map<string, string>)
    requires NamedType(blockDevice)
    ensures DriveTypeOf(blockDevice, files) == DriveTypeOf(blockDevice, others)
    ensures DriveTypeOf(blockDevice, files).Ok? && DriveTypeOf(blockDevice, files).value in {Nvme, Emmc, Floppy, CdDvdBluray}
  {
  }

  /** For any other name the flags decide, as the kernel writes them: rotational means a
      hard disk, else removable means flash, else a solid-state drive. */
  lemma DriveTypeOfFlags(blockDevice: string, files: map<string, string>, rot: nat, rem: nat)
    requires !NamedType(blockDevice)
    requires "queue/rotational" in files && files["queue/rotational"] == ToDigits(rot, 10) + "\n" && rot < 256
    requires "removable" in files && files["removable"] == ToDigits(rem, 10) + "\n" && rem < 256
    ensures DriveTypeOf(blockDevice, files) == Ok(if rot != 0 then Hdd else if rem != 0 then Flash else Ssd)
  {
    ByteFileOf(files, "queue/rotational", rot);
    ByteFileOf(files, "removable", rem);
  }

  /** Without a rotational file the type is unknown; with an unreadable removable file a
      non-rotational drive's type is an error. */
  lemma DriveTypeWithoutFiles(blockDevice: string, files: map<string, string>)
    requires !NamedType(blockDevice)
    ensures "queue/rotational" !in files ==> DriveTypeOf(blockDevice, files) == Ok(Unknown)
    ensures ("queue/rotational" in files && ByteFile(files, "queue/rotational") == Some(Some(0)) &&
             "removable" !in files) ==> DriveTypeOf(blockDevice, files).Err?
  {
  }

  // ---------------------------------------------------------------- from_sysfs

  /** `Drive::from_sysfs`, the path given by its components: the block device is the last
      component, the model is read and trimmed (absent when unreadable), and a type that
      cannot be decided is `Unknown`. The path must end in a name (the program panics on a
      path ending in ".."). */
  function FromSysfs(path: seq<string>, files: map<string, string>): (r: Drive)
    requires |path| > 0 && path[|path| - 1] != ".."
    ensures r.blockDevice == path[|path| - 1] && r.sysFsPath == path
    ensures r.model.Some? <==> "device/model" in files
    ensures r.model.Some? ==> r.model.value == Trim(files["device/model"])
    ensures DriveTypeOf(r.blockDevice, files).Ok? ==> r.driveType == DriveTypeOf(r.blockDevice, files).value
    ensures DriveTypeOf(r.blockDevice, files).Err? ==> r.driveType == Unknown
  {
    var blockDevice := path[|path| - 1];
    var model := match TextFile(files, "device/model") case Ok(m) => Some(Trim(m)) case Err(_) => None;
    var driveType := match DriveTypeOf(blockDevice, files) case Ok(t) => t case Err(_) => Unknown;
    Drive(model, driveType, blockDevice, path)
  }

  /** Drives read from directories of the same name are the same drive, whatever else their
      directories hold; drives of different names are not. */
  lemma SameDriveByName(p: seq<string>, q: seq<string>, files: map<string, string>, others: map<string, string>)
    requires |p| > 0 && p[|p| - 1] != ".." && |q| > 0 && q[|q| - 1] != ".."
    ensures SameDrive(FromSysfs(p, files), FromSysfs(q, others)) <==> p[|p| - 1] == q[|q| - 1]
  {
  }

  // ---------------------------------------------------------------- icon

  /** `icon`: the themed icon's name for each type, `default_icon` for an unknown one. */
  function Icon(t: DriveType): string
  {
    match t
    case CdDvdBluray => "cd-dvd-bluray-symbolic"
    case Emmc => "emmc-symbolic"
    case Flash => "flash-symbolic"
    case Floppy => "floppy-symbolic"
    case Hdd => "hdd-symbolic"
    case Nvme => "nvme-symbolic"
    case Unknown => DefaultIcon()
    case Ssd => "ssd-symbolic"
  }

  function DefaultIcon(): string
  {
    "unknown-drive-type-symbolic"
  }

  /** Every type has its own icon, and only an unknown type shows the default one. */
  lemma IconDistinct(a: DriveType, b: DriveType)
    ensures Icon(a) == Icon(b) ==> a == b
    ensures Icon(a) == DefaultIcon() <==> a == Unknown
  {
  }
}

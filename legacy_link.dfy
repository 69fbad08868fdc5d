/** The older single-file link module. Its SATA and USB tables and its `LinkData` display are
    the same as the split modules' (`SataLink`, `UsbLink`, `LinkDisplay`); its PCIe table stops
    at PCIe 7.0. */
module LegacyLink {
  import opened Wrappers
  import opened Text
  import opened LinkDisplay
  import PcieLink

  datatype PcieSpeed = Pcie10 | Pcie20 | Pcie30 | Pcie40 | Pcie50 | Pcie60 | Pcie70

  datatype PcieLinkData = PcieLinkData(speed: PcieSpeed, width: nat)

  /** `FromStr for PcieSpeed` in this revision: seven sysfs texts, up to 128 GT/s. */
  function SpeedFromStr(s: string): (r: Result<PcieSpeed, string>)
    ensures r.Err? ==> r.error == "Could not parse PCIe speed: '" + s + "'"
  {
    match s
    case "2.5 GT/s PCIe" => Ok(Pcie10)
    case "5.0 GT/s PCIe" => Ok(Pcie20)
    case "8.0 GT/s PCIe" => Ok(Pcie30)
    case "16.0 GT/s PCIe" => Ok(Pcie40)
    case "32.0 GT/s PCIe" => Ok(Pcie50)
    case "64.0 GT/s PCIe" => Ok(Pcie60)
    case "128.0 GT/s PCIe" => Ok(Pcie70)
    case _ => Err("Could not parse PCIe speed: '" + s + "'")
  }

  /** `Display for PcieSpeed` in this revision. */
  function SpeedToString(speed: PcieSpeed): string
  {
    match speed
    case Pcie10 => "PCIe 1.0"
    case Pcie20 => "PCIe 2.0"
    case Pcie30 => "PCIe 3.0"
    case Pcie40 => "PCIe 4.0"
    case Pcie50 => "PCIe 5.0"
    case Pcie60 => "PCIe 6.0"
    case Pcie70 => "PCIe 7.0"
  }

  /** The same generation in the newer module. */
  function Upgrade(speed: PcieSpeed): (u: PcieLink.PcieSpeed)
    ensures u != PcieLink.Pcie80
  {
    match speed
    case Pcie10 => PcieLink.Pcie10
    case Pcie20 => PcieLink.Pcie20
    case Pcie30 => PcieLink.Pcie30
    case Pcie40 => PcieLink.Pcie40
    case Pcie50 => PcieLink.Pcie50
    case Pcie60 => PcieLink.Pcie60
    case Pcie70 => PcieLink.Pcie70
  }

  /** This revision accepts exactly the newer table without "256.0 GT/s PCIe", reads each
      text as the same generation, and shows each generation the same way. */
  lemma AgreesWithNewerTable(s: string, speed: PcieSpeed)
    ensures SpeedFromStr(s).Ok? <==> PcieLink.SpeedFromStr(s).Ok? && s != "256.0 GT/s PCIe"
    ensures SpeedFromStr(s).Ok? ==> PcieLink.SpeedFromStr(s) == Ok(Upgrade(SpeedFromStr(s).value))
    ensures PcieLink.SpeedToString(Upgrade(speed)) == SpeedToString(speed)
  {
  }

  /** The first and last accepted texts, and inputs the parser rejects. */
  lemma RejectedInputs()
    ensures SpeedFromStr("2.5 GT/s PCIe") == Ok(Pcie10)
    ensures SpeedFromStr("128.0 GT/s PCIe") == Ok(Pcie70)
    ensures SpeedFromStr("256.0 GT/s PCIe").Err?
    ensures SpeedFromStr("SOMETHING_ELSE").Err?
    ensures SpeedFromStr("").Err?
    ensures Parse("random", "noise").Err?
  {
  }

  /** `Display for PcieLinkData`: "PCIe 4.0 ×8". */
  function ToString(d: PcieLinkData): string
  {
    SpeedToString(d.speed) + " \U{00D7}" + ToDigits(d.width, 10)
  }

  /** Rendered like the newer module's link data. */
  lemma ToStringAgrees(d: PcieLinkData)
    ensures ToString(d) == PcieLink.ToString(PcieLink.PcieLinkData(Upgrade(d.speed), d.width))
  {
  }

  /** `PcieLinkData::parse`: the speed text, then the width as a `usize`. */
  function Parse(speedRaw: string, widthRaw: string): (r: Result<PcieLinkData, string>)
    ensures r.Ok? <==> SpeedFromStr(speedRaw).Ok? && ParseUnsigned(widthRaw, 10, PcieLink.UsizeBound).Some?
    ensures r.Ok? ==> SpeedFromStr(speedRaw) == Ok(r.value.speed)
                      && ParseUnsigned(widthRaw, 10, PcieLink.UsizeBound) == Some(r.value.width)
  {
    match SpeedFromStr(speedRaw)
    case Err(e) => Err(e)
    case Ok(speed) =>
      match ParseUnsigned(widthRaw, 10, PcieLink.UsizeBound)
      case None => Err("Could not parse PCIe width")
      case Some(width) => Ok(PcieLinkData(speed, width))
  }

  /** `read_pcie_link_data` of this revision, with the four sysfs reads as parameters. */
  function ReadPcieLinkData(curSpeed: Option<string>, curWidth: Option<string>,
                            maxSpeed: Option<string>, maxWidth: Option<string>)
    : (r: Result<LinkData<PcieLinkData>, string>)
    ensures r.Ok? <==> curSpeed.Some? && curWidth.Some?
                       && Parse(Trim(curSpeed.value), Trim(curWidth.value)).Ok?
    ensures r.Ok? ==> r.value.current == Parse(Trim(curSpeed.value), Trim(curWidth.value)).value
    ensures r.Ok? && (maxSpeed.None? || maxWidth.None?)
            ==> r.value.max == Err("Could not parse max PCIe link")
    ensures r.Ok? && maxSpeed.Some? && maxWidth.Some?
            ==> r.value.max == Parse(Trim(maxSpeed.value), Trim(maxWidth.value))
  {
    if curSpeed.None? then Err("Could not read current link speed")
    else if curWidth.None? then Err("Could not read current link width")
    else
      match Parse(Trim(curSpeed.value), Trim(curWidth.value))
      case Err(_) => Err("Could not parse PCIE link data")
      case Ok(current) =>
        var max := if maxSpeed.Some? && maxWidth.Some?
                   then Parse(Trim(maxSpeed.value), Trim(maxWidth.value))
                   else Err("Could not parse max PCIe link");
        Ok(LinkData(current, max))
  }

  /** A PCIe 8.0 link, read by this revision, makes the whole link unreadable when it is the
      current link, and only loses the maximum when it is the maximum. */
  lemma Pcie8Link(curSpeed: string, curWidth: string, maxSpeed: string, maxWidth: string)
    ensures Trim(curSpeed) == "256.0 GT/s PCIe"
            ==> ReadPcieLinkData(Some(curSpeed), Some(curWidth), Some(maxSpeed), Some(maxWidth)).Err?
    ensures Parse(Trim(curSpeed), Trim(curWidth)).Ok? && Trim(maxSpeed) == "256.0 GT/s PCIe"
            ==> ReadPcieLinkData(Some(curSpeed), Some(curWidth), Some(maxSpeed), Some(maxWidth)).value.max
                == Err("Could not parse PCIe speed: '" + "256.0 GT/s PCIe" + "'")
  {
    var e := "Could not parse PCIe speed: '" + "256.0 GT/s PCIe" + "'";
    assert SpeedFromStr("256.0 GT/s PCIe") == Err(e);
    assert forall w :: Parse("256.0 GT/s PCIe", w) == Err(e);
  }
}

/** PCI Express link speed and width, as read from a device's sysfs directory. */
module PcieLink {
  import opened Wrappers
  import opened Text
  import opened LinkDisplay

  /** `usize` on the 64-bit targets the program is built for. */
  const UsizeBound: nat := 0x1_0000_0000_0000_0000

  datatype PcieSpeed = Pcie10 | Pcie20 | Pcie30 | Pcie40 | Pcie50 | Pcie60 | Pcie70 | Pcie80

  /** A link's generation and lane count. */
  datatype PcieLinkData = PcieLinkData(speed: PcieSpeed, width: nat)

  /** The text the kernel writes to `current_link_speed` / `max_link_speed` for each generation. */
  function SysfsText(speed: PcieSpeed): string
  {
    match speed
    case Pcie10 => "2.5 GT/s PCIe"
    case Pcie20 => "5.0 GT/s PCIe"
    case Pcie30 => "8.0 GT/s PCIe"
    case Pcie40 => "16.0 GT/s PCIe"
    case Pcie50 => "32.0 GT/s PCIe"
    case Pcie60 => "64.0 GT/s PCIe"
    case Pcie70 => "128.0 GT/s PCIe"
    case Pcie80 => "256.0 GT/s PCIe"
  }

  /** `FromStr for PcieSpeed`: exactly the eight sysfs texts are accepted, anything else is an
      error that quotes the input. */
  function SpeedFromStr(s: string): (r: Result<PcieSpeed, string>)
    ensures r.Ok? ==> SysfsText(r.value) == s
    ensures r.Err? ==> r.error == "Could not parse PCIe speed: '" + s + "'"
  {
    match s
    case "2.5 GT/s PCIe" => Ok(Pcie10)
    case "5.0 GT/s PCIe" => Ok(Pcie20)
    case "8.0 GT/s PCIe" => Ok(Pcie30)
    case "16.0 GT/s PCIe" => Ok(Pcie40)
    case "32.0 GT/s PCIe" => Ok(Pcie50)
    case "64.0 GT/s PCIe" => Ok(Pcie60)
    case "128.0 GT/s PCIe" => Ok(Pcie70)
    case "256.0 GT/s PCIe" => Ok(Pcie80)
    case _ => Err("Could not parse PCIe speed: '" + s + "'")
  }

  /** Every generation's sysfs text is parsed back to that generation, so the parser accepts
      exactly the texts of the table. */
  lemma SpeedRoundTrip(speed: PcieSpeed)
    ensures SpeedFromStr(SysfsText(speed)) == Ok(speed)
  {
  }

  /** `Display for PcieSpeed`. */
  function SpeedToString(speed: PcieSpeed): (s: string)
    ensures |s| == 8 && s[..6] == "PCIe " + [s[5]] && s[6..] == ".0"
  {
    match speed
    case Pcie10 => "PCIe 1.0"
    case Pcie20 => "PCIe 2.0"
    case Pcie30 => "PCIe 3.0"
    case Pcie40 => "PCIe 4.0"
    case Pcie50 => "PCIe 5.0"
    case Pcie60 => "PCIe 6.0"
    case Pcie70 => "PCIe 7.0"
    case Pcie80 => "PCIe 8.0"
  }

  /** Different generations are shown differently. */
  lemma SpeedToStringInjective(a: PcieSpeed, b: PcieSpeed)
    ensures SpeedToString(a) == SpeedToString(b) ==> a == b
  {
  }

  /** `Display for PcieLinkData`: "PCIe 4.0 ×8". */
  function ToString(d: PcieLinkData): string
  {
    SpeedToString(d.speed) + " \U{00D7}" + ToDigits(d.width, 10)
  }

  /** Different link data are shown differently: the speed is the fixed-length head of the
      text and the width the decimal tail. */
  lemma ToStringInjective(a: PcieLinkData, b: PcieLinkData)
    ensures ToString(a) == ToString(b) ==> a == b
  {
    if ToString(a) == ToString(b) {
      assert SpeedToString(a.speed) == ToString(a)[..8] == SpeedToString(b.speed);
      assert ToDigits(a.width, 10) == ToString(a)[10..] == ToDigits(b.width, 10);
    }
  }

  /** No rendering of link data contains '/', so the " / " of `LinkData`'s display is unambiguous. */
  lemma ToStringHasNoSlash(d: PcieLinkData)
    ensures '/' !in ToString(d)
  {
    ToDigitsLowerCase(d.width, 10);
    assert ToString(d)[10..] == ToDigits(d.width, 10);
  }

  /** The link column shows a maximum exactly when one was read and differs from the current link. */
  lemma ShowsMaxIffDifferentPcie(d: LinkData<PcieLinkData>)
    ensures Contains(LinkDataToString(d, ToString), " / ") <==> HasDifferentMax(d)
  {
    forall x: PcieLinkData ensures '/' !in ToString(x) {
      ToStringHasNoSlash(x);
    }
    ShowsMaxIffDifferent(d, ToString);
  }

  /** `PcieLinkData::parse`: the speed text, then the width as a `usize`. */
  function Parse(speedRaw: string, widthRaw: string): (r: Result<PcieLinkData, string>)
    ensures r.Ok? ==> SysfsText(r.value.speed) == speedRaw
                      && ParseUnsigned(widthRaw, 10, UsizeBound) == Some(r.value.width)
    ensures SpeedFromStr(speedRaw).Err? ==> r == Err(SpeedFromStr(speedRaw).error)
    ensures SpeedFromStr(speedRaw).Ok? && ParseUnsigned(widthRaw, 10, UsizeBound).None?
            ==> r == Err("Could not parse PCIe width")
  {
    match SpeedFromStr(speedRaw)
    case Err(e) => Err(e)
    case Ok(speed) =>
      match ParseUnsigned(widthRaw, 10, UsizeBound)
      case None => Err("Could not parse PCIe width")
      case Some(width) => Ok(PcieLinkData(speed, width))
  }

  /** What the kernel writes for a link parses back to that link. */
  lemma ParseRoundTrip(d: PcieLinkData)
    requires d.width < UsizeBound
    ensures Parse(SysfsText(d.speed), ToDigits(d.width, 10)) == Ok(d)
  {
    SpeedRoundTrip(d.speed);
    ParseDecimal(d.width, UsizeBound);
  }

  /** `read_pcie_link_data`, with the four sysfs reads as parameters (`None` when the file
      could not be read). The current link must be readable and parseable; the maximum is
      optional. */
  function ReadPcieLinkData(curSpeed: Option<string>, curWidth: Option<string>,
                            maxSpeed: Option<string>, maxWidth: Option<string>)
    : (r: Result<LinkData<PcieLinkData>, string>)
    ensures curSpeed.None? ==> r == Err("Could not read current link speed")
    ensures curSpeed.Some? && curWidth.None? ==> r == Err("Could not read current link width")
    ensures r.Ok? <==> curSpeed.Some? && curWidth.Some?
                       && Parse(Trim(curSpeed.value), Trim(curWidth.value)).Ok?
    ensures r.Ok? ==> r.value.current == Parse(Trim(curSpeed.value), Trim(curWidth.value)).value
    ensures r.Ok? && (maxSpeed.None? || maxWidth.None?)
            ==> r.value.max == Err("Could not parse max PCIe link")
    ensures r.Ok? && maxSpeed.Some? && maxWidth.Some?
            ==> r.value.max == Parse(Trim(maxSpeed.value), Trim(maxWidth.value))
  {
    if curSpeed.None? then Err("Could not read current link speed")
    else if curWidth.None? then Err("Could not read current link width")
    else
      match Parse(Trim(curSpeed.value), Trim(curWidth.value))
      case Err(_) => Err("Could not parse PCIE link data")
      case Ok(current) =>
        var max := if maxSpeed.Some? && maxWidth.Some?
                   then Parse(Trim(maxSpeed.value), Trim(maxWidth.value))
                   else Err("Could not parse max PCIe link");
        Ok(LinkData(current, max))
  }

  /** A failed maximum never hides the current link. */
  lemma MaxIsOptional(curSpeed: string, curWidth: string, maxSpeed: Option<string>, maxWidth: Option<string>)
    ensures ReadPcieLinkData(Some(curSpeed), Some(curWidth), maxSpeed, maxWidth).Ok?
        == ReadPcieLinkData(Some(curSpeed), Some(curWidth), None, None).Ok?
  {
  }

  /** Inputs the parser rejects. */
  lemma RejectedInputs()
    ensures SpeedFromStr("999.0 GT/s PCIe").Err?
    ensures SpeedFromStr("SOMETHING_ELSE").Err?
    ensures SpeedFromStr("").Err?
    ensures Parse("random", "noise").Err?
  {
  }

  /** A x8 PCIe 4.0 link that could run at x16 PCIe 5.0. */
  lemma DisplayExample()
    ensures LinkDataToString(LinkData(PcieLinkData(Pcie40, 8), Ok(PcieLinkData(Pcie50, 16))), ToString)
         == "PCIe 4.0 \U{00D7}8 / PCIe 5.0 \U{00D7}16"
  {
    assert ToDigits(8, 10) == "8";
    assert ToDigits(16, 10) == ToDigits(1, 10) + [DigitChar(6)] == "16";
    assert ToString(PcieLinkData(Pcie40, 8)) == "PCIe 4.0 \U{00D7}8";
    assert ToString(PcieLinkData(Pcie50, 16)) == "PCIe 5.0 \U{00D7}16";
  }
}

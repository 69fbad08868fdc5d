/** The link column of a device: one of the bus-specific link descriptions, or unknown. */
module Link {
  import opened LinkDisplay
  import PcieLink
  import SataLink
  import UsbLink
  import WifiLink

  datatype Link =
    | Pcie(pcie: LinkData<PcieLink.PcieLinkData>)
    | Sata(sata: LinkData<SataLink.SataSpeed>)
    | Usb(usb: LinkData<UsbLink.UsbSpeed>)
    | Wifi(wifi: LinkData<WifiLink.WifiGeneration>)
    | Unknown

  /** `Link::default()`. */
  function Default(): (l: Link)
    ensures l.Unknown?
  {
    Unknown
  }

  /** `Display for Link` (before translation): each bus renders its link data, an unknown
      link renders "N/A". `formatRate` is the unit formatter of the USB rates. */
  function ToString(l: Link, formatRate: (real, nat) -> string): (s: string)
    ensures l.Unknown? ==> s == "N/A"
    ensures l.Pcie? ==> s == LinkDataToString(l.pcie, PcieLink.ToString)
    ensures l.Sata? ==> s == LinkDataToString(l.sata, SataLink.ToString)
    ensures l.Usb? ==> s == LinkDataToString(l.usb, (x: UsbLink.UsbSpeed) => UsbLink.ToString(x, formatRate))
    ensures l.Wifi? ==> s == LinkDataToString(l.wifi, WifiLink.GenerationToString)
  {
    match l
    case Pcie(d) => LinkDataToString(d, PcieLink.ToString)
    case Sata(d) => LinkDataToString(d, SataLink.ToString)
    case Usb(d) => LinkDataToString(d, (x: UsbLink.UsbSpeed) => UsbLink.ToString(x, formatRate))
    case Wifi(d) => LinkDataToString(d, WifiLink.GenerationToString)
    case Unknown => "N/A"
  }

  /** The rendering starts with the current mode's text. */
  lemma RenderingStartsWithCurrent<T>(d: LinkData<T>, show: T -> string)
    ensures |LinkDataToString(d, show)| >= |show(d.current)|
  {
  }

  /** "N/A" is shown exactly for an unknown link: every known link's text is longer. */
  lemma NotApplicableIffUnknown(l: Link, formatRate: (real, nat) -> string)
    ensures ToString(l, formatRate) == "N/A" <==> l.Unknown?
  {
    match l
    case Pcie(d) =>
      RenderingStartsWithCurrent(d, PcieLink.ToString);
    case Sata(d) =>
      RenderingStartsWithCurrent(d, SataLink.ToString);
    case Usb(d) =>
      RenderingStartsWithCurrent(d, (x: UsbLink.UsbSpeed) => UsbLink.ToString(x, formatRate));
    case Wifi(d) =>
      RenderingStartsWithCurrent(d, WifiLink.GenerationToString);
    case Unknown =>
  }
}

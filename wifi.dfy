/** Wi-Fi link data: the generation guessed from the station's MCS fields, the band shown
    for the channel frequency, and how the link is assembled from nl80211's answers. */
module WifiLink {
  import opened Wrappers
  import opened LinkDisplay
  import Network

  /** `u32::MAX + 1`: the bit rates and frequencies nl80211 reports are 32-bit. */
  const U32Bound: nat := 0x1_0000_0000

  datatype WifiGeneration = Wifi4 | Wifi5 | Wifi6 | Wifi6e | Wifi7

  /** The fields of an nl80211 station entry this code looks at: which MCS indexes are
      reported (one per PHY generation) and the bit rates in units of 100 kbit/s. */
  datatype Station = Station(
    htMcs: Option<nat>,
    vhtMcs: Option<nat>,
    heMcs: Option<nat>,
    ehtMcs: Option<nat>,
    rxBitrate: Option<nat>,
    txBitrate: Option<nat>)

  /** The 6 GHz band, 5925 to 7125 MHz inclusive. */
  predicate In6GHzBand(mhz: nat)
  {
    5925 <= mhz <= 7125
  }

  /** The generation as a priority rule: the newest PHY whose MCS field is present wins, and
      an HE link counts as Wi-Fi 6E on the 6 GHz band. */
  function Generation(station: Station, mhz: nat): (g: Option<WifiGeneration>)
    ensures g.None? <==> station.htMcs.None? && station.vhtMcs.None?
                         && station.heMcs.None? && station.ehtMcs.None?
    ensures station.ehtMcs.Some? ==> g == Some(Wifi7)
    ensures station.ehtMcs.None? && station.heMcs.Some?
            ==> g == (if In6GHzBand(mhz) then Some(Wifi6e) else Some(Wifi6))
    ensures station.ehtMcs.None? && station.heMcs.None? && station.vhtMcs.Some? ==> g == Some(Wifi5)
    ensures station.ehtMcs.None? && station.heMcs.None? && station.vhtMcs.None? && station.htMcs.Some?
            ==> g == Some(Wifi4)
  {
    if station.ehtMcs.Some? then Some(Wifi7)
    else if station.heMcs.Some? then (if In6GHzBand(mhz) then Some(Wifi6e) else Some(Wifi6))
    else if station.vhtMcs.Some? then Some(Wifi5)
    else if station.htMcs.Some? then Some(Wifi4)
    else None
  }

  /** `WifiGeneration::get_wifi_generation`: each present MCS field overwrites the guess of
      the older ones, so the sequence of overwrites computes the priority rule. */
  method GetWifiGeneration(station: Station, mhz: nat) returns (g: Option<WifiGeneration>)
    ensures g == Generation(station, mhz)
  {
    g := None;
    if station.htMcs.Some? {
      g := Some(Wifi4);
    }
    if station.vhtMcs.Some? {
      g := Some(Wifi5);
    }
    if station.heMcs.Some? {
      if In6GHzBand(mhz) {
        g := Some(Wifi6e);
      } else {
        g := Some(Wifi6);
      }
    }
    if station.ehtMcs.Some? {
      g := Some(Wifi7);
    }
  }

  /** The generation does not depend on the frequency unless the station reports HE without EHT. */
  lemma FrequencyMattersOnlyForHe(station: Station, mhz1: nat, mhz2: nat)
    requires !(station.heMcs.Some? && station.ehtMcs.None?)
    ensures Generation(station, mhz1) == Generation(station, mhz2)
  {
  }

  /** `Display for WifiGeneration`. */
  function GenerationToString(g: WifiGeneration): string
  {
    match g
    case Wifi4 => "Wi-Fi 4 (802.11n)"
    case Wifi5 => "Wi-Fi 5 (802.11ac)"
    case Wifi6 => "Wi-Fi 6 (802.11ax)"
    case Wifi6e => "Wi-Fi 6E (802.11ax)"
    case Wifi7 => "Wi-Fi 7 (802.11be)"
  }

  lemma GenerationToStringInjective(a: WifiGeneration, b: WifiGeneration)
    ensures GenerationToString(a) == GenerationToString(b) ==> a == b
  {
  }

  /** The bands `frequency_display` names, and where their names come from. */
  datatype Band = NoFrequency | Band2_4 | Band5 | Band6 | OtherFrequency

  function BandOf(mhz: nat): (b: Band)
    ensures b == NoFrequency <==> mhz == 0
    ensures b == Band2_4 <==> 2400 <= mhz <= 2495
    ensures b == Band5 <==> 5150 <= mhz <= 5895
    ensures b == Band6 <==> In6GHzBand(mhz)
  {
    if mhz == 0 then NoFrequency
    else if 2400 <= mhz <= 2495 then Band2_4
    else if 5150 <= mhz <= 5895 then Band5
    else if 5925 <= mhz <= 7125 then Band6
    else OtherFrequency
  }

  /** `frequency_display`: the band's name, empty for an unknown (zero) frequency, and the
      frequency in hertz passed to the unit formatter `convertFrequency` outside the bands. */
  function FrequencyDisplay(mhz: nat, convertFrequency: real -> string): (s: string)
    ensures BandOf(mhz) == NoFrequency ==> s == ""
    ensures BandOf(mhz) == Band2_4 ==> s == "2.4 GHz"
    ensures BandOf(mhz) == Band5 ==> s == "5 GHz"
    ensures BandOf(mhz) == Band6 ==> s == "6 GHz"
    ensures BandOf(mhz) == OtherFrequency ==> s == convertFrequency((mhz as real) * 1_000_000.0)
  {
    match BandOf(mhz)
    case NoFrequency => ""
    case Band2_4 => "2.4 GHz"
    case Band5 => "5 GHz"
    case Band6 => "6 GHz"
    case OtherFrequency => convertFrequency((mhz as real / 1_000.0) * 1_000.0 * 1_000_000.0)
  }

  /** The band a Wi-Fi 6E link is shown on is "6 GHz". */
  lemma Wifi6eShowsSixGHz(station: Station, mhz: nat, convertFrequency: real -> string)
    requires Generation(station, mhz) == Some(Wifi6e)
    ensures FrequencyDisplay(mhz, convertFrequency) == "6 GHz"
  {
  }

  /** `u32::saturating_mul`. */
  function SaturatingMulU32(a: nat, b: nat): (r: nat)
    requires a < U32Bound && b < U32Bound
    ensures r < U32Bound
    ensures a * b < U32Bound ==> r == a * b
    ensures a * b >= U32Bound ==> r == U32Bound - 1
  {
    if a * b < U32Bound then a * b else U32Bound - 1
  }

  /** Bits per second from a station bit rate in 100 kbit/s units, 0 when not reported. */
  function BitsPerSecond(bitrate: Option<nat>): (bps: nat)
    requires bitrate.Some? ==> bitrate.value < U32Bound
    ensures bps < U32Bound
    ensures bitrate.None? ==> bps == 0
    ensures bitrate.Some? && bitrate.value <= 42_949 ==> bps == bitrate.value * 100_000
    ensures bitrate.Some? && bitrate.value > 42_949 ==> bps == U32Bound - 1
  {
    SaturatingMulU32(bitrate.UnwrapOr(0), 100_000)
  }

  /** The link's description. */
  datatype WifiLinkData = WifiLinkData(
    generation: Option<WifiGeneration>,
    frequencyMhz: nat,
    rxBps: nat,
    txBps: nat,
    ssid: Option<string>)

  /** `Display for WifiLinkData`: generation (or "N/A") and band, joined by " · ". */
  function ToString(d: WifiLinkData, convertFrequency: real -> string): (s: string)
    ensures d.generation.Some? ==> s == GenerationToString(d.generation.value) + " \U{00B7} "
                                        + FrequencyDisplay(d.frequencyMhz, convertFrequency)
    ensures d.generation.None? ==> s == "N/A \U{00B7} " + FrequencyDisplay(d.frequencyMhz, convertFrequency)
  {
    (if d.generation.Some? then GenerationToString(d.generation.value) else "N/A")
      + " \U{00B7} " + FrequencyDisplay(d.frequencyMhz, convertFrequency)
  }

  /** What nl80211 reports for the interface with the adapter's name. */
  datatype WifiInterface = WifiInterface(frequency: Option<nat>, ssid: Option<string>)

  /** `from_wifi_adapter` with the nl80211 queries as parameters: `found` is the interface
      entry whose name matches (`None` when none does) and `stations` its station list. Only
      Wi-Fi adapters are accepted, the first station describes the link, and no maximum is
      known. */
  function FromWifiAdapter(interfaceType: Network.InterfaceType, found: Option<WifiInterface>,
                           stations: seq<Station>)
    : (r: Result<LinkData<WifiLinkData>, string>)
    requires forall i :: 0 <= i < |stations| ==>
               (stations[i].rxBitrate.Some? ==> stations[i].rxBitrate.value < U32Bound)
               && (stations[i].txBitrate.Some? ==> stations[i].txBitrate.value < U32Bound)
    ensures interfaceType != Network.Wlan ==> r == Err("Wifi interface type is required for wifi generation detection")
    ensures r.Ok? <==> interfaceType == Network.Wlan && found.Some? && |stations| > 0
    ensures r.Ok? ==> r.value.max == Err("No max yet supported")
    ensures r.Ok? ==> var mhz := found.value.frequency.UnwrapOr(0);
                      r.value.current == WifiLinkData(Generation(stations[0], mhz), mhz,
                                                       BitsPerSecond(stations[0].rxBitrate),
                                                       BitsPerSecond(stations[0].txBitrate),
                                                       found.value.ssid)
  {
    if interfaceType != Network.Wlan then Err("Wifi interface type is required for wifi generation detection")
    else if found.None? || |stations| == 0 then Err("Could not find matching WIFI interface")
    else
      var station := stations[0];
      var mhz := found.value.frequency.UnwrapOr(0);
      Ok(LinkData(
        WifiLinkData(Generation(station, mhz), mhz, BitsPerSecond(station.rxBitrate),
                     BitsPerSecond(station.txBitrate), found.value.ssid),
        Err("No max yet supported")))
  }

  /** A Wi-Fi link is always shown without a maximum. */
  lemma WifiShowsOnlyCurrent(interfaceType: Network.InterfaceType, found: Option<WifiInterface>,
                             stations: seq<Station>, show: WifiLinkData -> string)
    requires forall i :: 0 <= i < |stations| ==>
               (stations[i].rxBitrate.Some? ==> stations[i].rxBitrate.value < U32Bound)
               && (stations[i].txBitrate.Some? ==> stations[i].txBitrate.value < U32Bound)
    requires FromWifiAdapter(interfaceType, found, stations).Ok?
    ensures var d := FromWifiAdapter(interfaceType, found, stations).value;
            LinkDataToString(d, show) == show(d.current)
  {
  }
}

/** SATA link speed of an ATA port, as read from `/sys/class/ata_link`. */
module SataLink {
  import opened Wrappers
  import opened Text
  import opened LinkDisplay

  datatype SataSpeed = Sata150 | Sata300 | Sata600

  /** The text the kernel writes to `sata_spd` / `sata_spd_max` for each speed. */
  function SysfsText(speed: SataSpeed): string
  {
    match speed
    case Sata150 => "1.5 Gbps"
    case Sata300 => "3.0 Gbps"
    case Sata600 => "6.0 Gbps"
  }

  /** `FromStr for SataSpeed`: exactly the three sysfs texts, anything else an error quoting it. */
  function FromStr(s: string): (r: Result<SataSpeed, string>)
    ensures r.Ok? ==> SysfsText(r.value) == s
    ensures r.Err? ==> r.error == "Could not parse SATA speed: '" + s + "'"
  {
    match s
    case "1.5 Gbps" => Ok(Sata150)
    case "3.0 Gbps" => Ok(Sata300)
    case "6.0 Gbps" => Ok(Sata600)
    case _ => Err("Could not parse SATA speed: '" + s + "'")
  }

  lemma RoundTrip(speed: SataSpeed)
    ensures FromStr(SysfsText(speed)) == Ok(speed)
  {
  }

  /** `Display for SataSpeed`: the megabyte-per-second class. */
  function ToString(speed: SataSpeed): (s: string)
    ensures |s| == 8 && s[..5] == "SATA-"
  {
    match speed
    case Sata150 => "SATA-150"
    case Sata300 => "SATA-300"
    case Sata600 => "SATA-600"
  }

  lemma ToStringInjective(a: SataSpeed, b: SataSpeed)
    ensures ToString(a) == ToString(b) ==> a == b
  {
  }

  /** No speed's text contains '/', so a differing maximum is shown exactly when there is one. */
  lemma ShowsMaxIffDifferentSata(d: LinkData<SataSpeed>)
    ensures Contains(LinkDataToString(d, ToString), " / ") <==> HasDifferentMax(d)
  {
    forall x: SataSpeed ensures '/' !in ToString(x) {
      assert ToString(x)[5..] in {"150", "300", "600"};
    }
    ShowsMaxIffDifferent(d, ToString);
  }

  /** `from_ata_slot`, with the two sysfs reads as parameters (`None` when unreadable). The
      current speed is required; the maximum carries its own read or parse error. */
  function FromAtaSlot(current: Option<string>, max: Option<string>): (r: Result<LinkData<SataSpeed>, string>)
    ensures current.None? ==> r == Err("Could not read sata_spd")
    ensures r.Ok? <==> current.Some? && FromStr(Trim(current.value)).Ok?
    ensures r.Ok? ==> SysfsText(r.value.current) == Trim(current.value)
    ensures r.Ok? && max.None? ==> r.value.max == Err("Could not read sata_spd_max")
    ensures r.Ok? && max.Some? ==> r.value.max == FromStr(Trim(max.value))
  {
    if current.None? then Err("Could not read sata_spd")
    else
      match FromStr(Trim(current.value))
      case Err(_) => Err("Could not parse current sata speed")
      case Ok(cur) =>
        var m := if max.Some? then FromStr(Trim(max.value)) else Err("Could not read sata_spd_max");
        Ok(LinkData(cur, m))
  }

  lemma RejectedInputs()
    ensures FromStr("4.0 Gbps").Err?
    ensures FromStr("SOMETHING_ELSE").Err?
    ensures FromStr("").Err?
  {
  }
}

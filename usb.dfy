/** USB link speed of a device and of the bus it sits on, as read from `/sys/bus/usb/devices`. */
module UsbLink {
  import opened Wrappers
  import opened Text
  import opened LinkDisplay

  /** A USB generation; all but 1.0 carry the signalling rate in Mbit/s that the kernel reported. */
  datatype UsbSpeed =
    | Usb1_0
    | Usb1_1(mbit: nat)
    | Usb2_0(mbit: nat)
    | Usb3_0(mbit: nat)
    | Usb3_1(mbit: nat)
    | Usb3_2(mbit: nat)
    | Usb4(mbit: nat)
    | Usb4_2_0(mbit: nat)

  /** `FromStr for UsbSpeed`: the nine rates of the kernel's `speed` attribute, anything else
      an error quoting the input. */
  function FromStr(s: string): (r: Result<UsbSpeed, string>)
    ensures r.Err? ==> r.error == "Could not parse USB speed: '" + s + "'"
  {
    match s
    case "1.5" => Ok(Usb1_0)
    case "12" => Ok(Usb1_1(12))
    case "480" => Ok(Usb2_0(480))
    case "5000" => Ok(Usb3_0(5_000))
    case "10000" => Ok(Usb3_1(10_000))
    case "20000" => Ok(Usb3_2(20_000))
    case "40000" => Ok(Usb4(40_000))
    case "80000" => Ok(Usb4_2_0(80_000))
    case "120000" => Ok(Usb4_2_0(120_000))
    case _ => Err("Could not parse USB speed: '" + s + "'")
  }

  /** The accepted texts. */
  predicate IsKernelRate(s: string)
  {
    s in {"1.5", "12", "480", "5000", "10000", "20000", "40000", "80000", "120000"}
  }

  /** The parser accepts exactly the kernel's rates. */
  lemma AcceptsExactlyKernelRates(s: string)
    ensures FromStr(s).Ok? <==> IsKernelRate(s)
  {
  }

  /** Both USB4 2.0 rates land on the same generation, told apart only by the payload. */
  lemma Usb4Version2Rates()
    ensures FromStr("80000") == Ok(Usb4_2_0(80_000))
    ensures FromStr("120000") == Ok(Usb4_2_0(120_000))
    ensures FromStr("80000") != FromStr("120000")
  {
  }

  /** For every accepted text other than "1.5", the payload is the number the text denotes:
      printing the payload in decimal gives back the text, and parsing the text gives the payload. */
  lemma PayloadIsInput(s: string)
    requires FromStr(s).Ok? && s != "1.5"
    ensures ToDigits(FromStr(s).value.mbit, 10) == s
    ensures ParseUnsigned(s, 10, 0x1_0000_0000_0000_0000) == Some(FromStr(s).value.mbit)
  {
    var m := FromStr(s).value.mbit;
    PayloadText(s);
    PrintedPayloadParses(m, s);
  }

  lemma PrintedPayloadParses(m: nat, s: string)
    requires m <= 120_000 && ToDigits(m, 10) == s
    ensures ParseUnsigned(s, 10, 0x1_0000_0000_0000_0000) == Some(m)
  {
    ParseDecimal(m, 0x1_0000_0000_0000_0000);
  }

  lemma PayloadText(s: string)
    requires FromStr(s).Ok? && s != "1.5"
    ensures FromStr(s).value.mbit <= 120_000
    ensures ToDigits(FromStr(s).value.mbit, 10) == s
  {
    AcceptsExactlyKernelRates(s);
    if s == "12" {
      Rate12();
    } else if s == "480" {
      Rate480();
    } else if s == "5000" {
      Rate5000();
    } else if s == "10000" {
      Rate10000();
    } else if s == "20000" {
      Rate20000();
    } else if s == "40000" {
      Rate40000();
    } else if s == "80000" {
      Rate80000();
    } else if s == "120000" {
      Rate120000();
    }
  }

  lemma Rate12()
    ensures FromStr("12") == Ok(Usb1_1(12)) && ToDigits(12, 10) == "12"
  {
    assert ToDigits(1, 10) == "1";
  }

  lemma Rate480()
    ensures FromStr("480") == Ok(Usb2_0(480)) && ToDigits(480, 10) == "480"
  {
    assert ToDigits(48, 10) == "48";
  }

  lemma Rate5000()
    ensures FromStr("5000") == Ok(Usb3_0(5_000)) && ToDigits(5_000, 10) == "5000"
  {
    assert ToDigits(50, 10) == "50" && ToDigits(500, 10) == "500";
  }

  lemma Rate10000()
    ensures FromStr("10000") == Ok(Usb3_1(10_000)) && ToDigits(10_000, 10) == "10000"
  {
    assert ToDigits(10, 10) == "10" && ToDigits(100, 10) == "100" && ToDigits(1000, 10) == "1000";
  }

  lemma Rate20000()
    ensures FromStr("20000") == Ok(Usb3_2(20_000)) && ToDigits(20_000, 10) == "20000"
  {
    assert ToDigits(20, 10) == "20" && ToDigits(200, 10) == "200" && ToDigits(2000, 10) == "2000";
  }

  lemma Rate40000()
    ensures FromStr("40000") == Ok(Usb4(40_000)) && ToDigits(40_000, 10) == "40000"
  {
    assert ToDigits(40, 10) == "40" && ToDigits(400, 10) == "400" && ToDigits(4000, 10) == "4000";
  }

  lemma Rate80000()
    ensures FromStr("80000") == Ok(Usb4_2_0(80_000)) && ToDigits(80_000, 10) == "80000"
  {
    assert ToDigits(80, 10) == "80" && ToDigits(800, 10) == "800" && ToDigits(8000, 10) == "8000";
  }

  lemma Rate120000()
    ensures FromStr("120000") == Ok(Usb4_2_0(120_000)) && ToDigits(120_000, 10) == "120000"
  {
    assert ToDigits(12, 10) == "12" && ToDigits(120, 10) == "120";
    assert ToDigits(1200, 10) == "1200" && ToDigits(12000, 10) == "12000";
  }

  /** The generation label of `Display for UsbSpeed`. */
  function VersionLabel(speed: UsbSpeed): string
  {
    match speed
    case Usb1_0 => "USB 1.0"
    case Usb1_1(_) => "USB 1.1"
    case Usb2_0(_) => "USB 2.0"
    case Usb3_0(_) => "USB 3.0"
    case Usb3_1(_) => "USB 3.1"
    case Usb3_2(_) => "USB 3.2"
    case Usb4(_) => "USB4"
    case Usb4_2_0(_) => "USB4 2.0"
  }

  /** The same generation constructor, whatever the payload. */
  predicate SameGeneration(a: UsbSpeed, b: UsbSpeed)
  {
    match (a, b)
    case (Usb1_0, Usb1_0) => true
    case (Usb1_1(_), Usb1_1(_)) => true
    case (Usb2_0(_), Usb2_0(_)) => true
    case (Usb3_0(_), Usb3_0(_)) => true
    case (Usb3_1(_), Usb3_1(_)) => true
    case (Usb3_2(_), Usb3_2(_)) => true
    case (Usb4(_), Usb4(_)) => true
    case (Usb4_2_0(_), Usb4_2_0(_)) => true
    case _ => false
  }

  /** The label names the generation and nothing else: two speeds share a label exactly when
      they are the same generation. */
  lemma LabelIsGeneration(a: UsbSpeed, b: UsbSpeed)
    ensures VersionLabel(a) == VersionLabel(b) <==> SameGeneration(a, b)
  {
  }

  /** The bit rate shown in parentheses: 1.5 Mbit/s with one decimal place for USB 1.0, the
      payload with none otherwise. */
  function RateArguments(speed: UsbSpeed): (r: (real, nat))
    ensures speed.Usb1_0? ==> r == (1_500_000.0, 1)
    ensures !speed.Usb1_0? ==> r == ((speed.mbit * 1_000_000) as real, 0)
  {
    match speed
    case Usb1_0 => (1.5 * 1_000_000.0, 1)
    case _ => ((speed.mbit as real) * 1_000_000.0, 0)
  }

  /** `Display for UsbSpeed`: "label (rate)", the rate text produced by the unit formatter
      `formatRate`, which takes a bit rate and a number of decimal places. */
  function ToString(speed: UsbSpeed, formatRate: (real, nat) -> string): (s: string)
    ensures |s| > |VersionLabel(speed)| && s[..|VersionLabel(speed)|] == VersionLabel(speed)
    ensures s[|VersionLabel(speed)|..] == " (" + formatRate(RateArguments(speed).0, RateArguments(speed).1) + ")"
  {
    var args := RateArguments(speed);
    VersionLabel(speed) + " (" + formatRate(args.0, args.1) + ")"
  }

  /** `from_usb_slot`, with the two sysfs reads as parameters (`None` when unreadable): the
      device's speed is required, the bus's speed is the optional maximum. */
  function FromUsbSlot(portSpeed: Option<string>, deviceSpeed: Option<string>)
    : (r: Result<LinkData<UsbSpeed>, string>)
    ensures deviceSpeed.None? ==> r == Err("Could not read usb device speed")
    ensures r.Ok? <==> deviceSpeed.Some? && FromStr(Trim(deviceSpeed.value)).Ok?
    ensures r.Ok? ==> Ok(r.value.current) == FromStr(Trim(deviceSpeed.value))
    ensures r.Ok? && portSpeed.None? ==> r.value.max == Err("Could not read usb port speed")
    ensures r.Ok? && portSpeed.Some? ==> r.value.max == FromStr(Trim(portSpeed.value))
  {
    if deviceSpeed.None? then Err("Could not read usb device speed")
    else
      var max := if portSpeed.Some? then FromStr(Trim(portSpeed.value)) else Err("Could not read usb port speed");
      match FromStr(Trim(deviceSpeed.value))
      case Err(_) => Err("Could not parse USB device speed")
      case Ok(current) => Ok(LinkData(current, max))
  }

  lemma RejectedInputs()
    ensures FromStr("4000").Err?
    ensures FromStr("160000").Err?
    ensures FromStr("SOMETHING_ELSE").Err?
    ensures FromStr("").Err?
  {
  }
}

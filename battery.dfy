/** Batteries under /sys/class/power_supply (src/utils/battery.rs): the charging state and the
    cell chemistry read from sysfs text, the figures derived from the energy and capacity
    files, and the scan that finds the batteries among the power supplies. A battery's sysfs
    directory is a map from file name to contents, a missing name standing for a file that
    cannot be read. Ratios are kept exact as numerator/denominator pairs. */
module Battery {
  import opened Wrappers
  import opened Text
  import Counters
  import I18n
  import DirListing

  // ---------------------------------------------------------------- State

  datatype State = Charging | Discharging | Empty | Full | Unknown

  /** `State::from_str`: the lower-cased text against the four known states; anything else is
      `Unknown`, so parsing never fails. */
  function StateFromStr(s: string): State
  {
    var l := LowerStr(s);
    if l == "charging" then Charging
    else if l == "discharging" then Discharging
    else if l == "empty" then Empty
    else if l == "full" then Full
    else State.Unknown
  }

  /** `State`'s `Display` (the untranslated message). */
  function StateDisplay(st: State): string
  {
    match st
    case Charging => "Charging"
    case Discharging => "Discharging"
    case Empty => "Empty"
    case Full => "Full"
    case _ => "Unknown"
  }

  /** Parsing ignores case. */
  lemma StateIgnoresCase(s: string)
    ensures StateFromStr(LowerStr(s)) == StateFromStr(s)
  {
    LowerStrIdempotent(s);
  }

  /** Every state's displayed name parses back to that state. */
  lemma StateRoundTrip(st: State)
    ensures StateFromStr(StateDisplay(st)) == st
  {
    match st
    case Charging => assert LowerStr("Charging") == "charging";
    case Discharging => assert LowerStr("Discharging") == "discharging";
    case Empty => assert LowerStr("Empty") == "empty";
    case Full => assert LowerStr("Full") == "full";
    case _ =>
      assert LowerStr("Unknown") == "unknown";
  }

  // ---------------------------------------------------------------- Technology

  datatype Technology = NickelMetalHydride | NickelCadmium | NickelZinc | LeadAcid | LithiumIon
    | LithiumIronPhosphate | LithiumPolymer | RechargeableAlkalineManganese | Unknown

  /** `Technology::from_str`: the lower-cased text against the kernel's names and their
      aliases; anything else is `Unknown`, so parsing never fails. */
  function TechnologyFromStr(s: string): Technology
  {
    match LowerStr(s)
    case "nimh" => NickelMetalHydride
    case "nicd" => NickelCadmium
    case "nizn" => NickelZinc
    case "pb" => LeadAcid
    case "pbac" => LeadAcid
    case "li-i" => LithiumIon
    case "li-ion" => LithiumIon
    case "lion" => LithiumIon
    case "life" => LithiumIronPhosphate
    case "lip" => LithiumPolymer
    case "lipo" => LithiumPolymer
    case "li-poly" => LithiumPolymer
    case "ram" => RechargeableAlkalineManganese
    case _ => Technology.Unknown
  }

  /** The names each chemistry is known by in sysfs, lower-case. */
  function Aliases(t: Technology): set<string>
  {
    match t
    case NickelMetalHydride => {"nimh"}
    case NickelCadmium => {"nicd"}
    case NickelZinc => {"nizn"}
    case LeadAcid => {"pb", "pbac"}
    case LithiumIon => {"li-i", "li-ion", "lion"}
    case LithiumIronPhosphate => {"life"}
    case LithiumPolymer => {"lip", "lipo", "li-poly"}
    case RechargeableAlkalineManganese => {"ram"}
    case _ => {}
  }

  /** A text names a chemistry exactly when its lower-cased form is one of that chemistry's
      aliases; a text that is no alias at all is `Unknown`. */
  lemma TechnologyFromAliases(s: string, t: Technology)
    requires t != Technology.Unknown
    ensures TechnologyFromStr(s) == t <==> LowerStr(s) in Aliases(t)
    ensures TechnologyFromStr(s) == Technology.Unknown <==>
      (forall u: Technology :: LowerStr(s) !in Aliases(u))
  {
    var l := LowerStr(s);
    var r := TechnologyFromStr(s);
    if r == Technology.Unknown {
      forall u: Technology ensures l !in Aliases(u) {
      }
    } else {
      assert l in Aliases(r);
    }
  }

  /** `Technology`'s `Display` (the untranslated message, spelling as in the program). */
  function TechnologyDisplay(t: Technology): string
  {
    match t
    case NickelMetalHydride => "Nickel-Metal Hydride"
    case NickelCadmium => "Nickel-Cadmium"
    case NickelZinc => "Nickel-Zinc"
    case LeadAcid => "Lead-Acid"
    case LithiumIon => "Lithium-Ion"
    case LithiumIronPhosphate => "Lithium Iron Phosphate"
    case LithiumPolymer => "Lithium Polymer"
    case RechargeableAlkalineManganese => "Rechargeable Alkaline Managanese"
    case _ => "N/A"
  }

  /** Different chemistries display differently, and an unknown one as "N/A". */
  lemma TechnologyDisplayDistinct(a: Technology, b: Technology)
    ensures TechnologyDisplay(a) == TechnologyDisplay(b) ==> a == b
    ensures TechnologyDisplay(Technology.Unknown) == "N/A"
  {
  }

  // ---------------------------------------------------------------- Battery

  /** A battery's static description; the design capacity is in watt-hours. */
  datatype Battery = Battery(sysfsPath: string, manufacturer: Option<string>, modelName: Option<string>,
                             designCapacity: Option<real>, technology: Technology)

  /** A file's contents with its line breaks removed, when it can be read. */
  function Line(files: map<string, string>, name: string): (r: Option<string>)
    ensures r.Some? <==> name in files
    ensures r.Some? ==> '\n' !in r.value
  {
    if name in files then Some(RemoveChar(files[name], '\n')) else None
  }

  /** `parse::<usize>()` of a file's trimmed contents: `None` when missing, else the parse. */
  function ParsedFile(files: map<string, string>, name: string, bound: nat): (r: Option<Option<nat>>)
    ensures r.Some? <==> name in files
    ensures r.Some? && r.value.Some? ==> r.value.value < bound
  {
    if name in files then Some(ParseUnsigned(Trim(files[name]), 10, bound)) else None
  }

  /** `Battery::from_sysfs`: manufacturer, model and chemistry are optional; an unreadable
      energy_full_design is an error, an unparsable one leaves the capacity unknown. */
  function FromSysfs(path: string, files: map<string, string>): (r: Result<Battery, string>)
    ensures r.Err? <==> "energy_full_design" !in files
    ensures r.Ok? ==> r.value.sysfsPath == path
    ensures r.Ok? ==> (r.value.designCapacity.Some? <==>
      ParseUnsigned(Trim(files["energy_full_design"]), 10, Counters.U64Bound).Some?)
    ensures r.Ok? ==> (r.value.manufacturer.Some? <==> "manufacturer" in files)
  {
    match ParsedFile(files, "energy_full_design", Counters.U64Bound)
    case None => Err("unable to read energy_full_design")
    case Some(design) =>
      Ok(Battery(
        path,
        Line(files, "manufacturer"),
        Line(files, "model_name"),
        match design case Some(uwh) => Some(uwh as real / 1000000.0) case None => None,
        TechnologyFromStr(Line(files, "technology").UnwrapOr(""))))
  }

  /** A file holding a line-free text and a line break reads as the text. */
  lemma LineOf(files: map<string, string>, name: string, v: string)
    requires name in files && files[name] == v + "\n" && '\n' !in v
    ensures Line(files, name) == Some(v)
  {
    RemoveCharAtEnd(v, '\n');
  }

  /** A file holding a number's decimal text and a line break parses as the number. */
  lemma ParsedFileOf(files: map<string, string>, name: string, x: nat, bound: nat)
    requires name in files && files[name] == ToDigits(x, 10) + "\n" && x < bound
    ensures ParsedFile(files, name, bound) == Some(Some(x))
  {
    ParseDecimalLine(x, bound);
  }

  /** Each alias is a lower-case word without line breaks that parses as its chemistry. */
  lemma AliasParses(t: Technology, alias: string)
    requires alias in Aliases(t)
    ensures '\n' !in alias && TechnologyFromStr(alias) == t
  {
    if t == LeadAcid || t == LithiumIon || t == LithiumPolymer {
      SharedAliasParses(t, alias);
    } else {
      assert |Aliases(t)| == 1;
      match t
      case NickelMetalHydride => assert LowerStr("nimh") == "nimh";
      case NickelCadmium => assert LowerStr("nicd") == "nicd";
      case NickelZinc => assert LowerStr("nizn") == "nizn";
      case LithiumIronPhosphate => assert LowerStr("life") == "life";
      case RechargeableAlkalineManganese => assert LowerStr("ram") == "ram";
    }
  }

  /** The chemistries known by more than one name. */
  lemma SharedAliasParses(t: Technology, alias: string)
    requires t == LeadAcid || t == LithiumIon || t == LithiumPolymer
    requires alias in Aliases(t)
    ensures '\n' !in alias && TechnologyFromStr(alias) == t
  {
    match t
    case LeadAcid =>
      assert LowerStr("pb") == "pb" && LowerStr("pbac") == "pbac";
    case LithiumIon =>
      assert LowerStr("li-i") == "li-i" && LowerStr("li-ion") == "li-ion" && LowerStr("lion") == "lion";
    case LithiumPolymer =>
      assert LowerStr("lip") == "lip" && LowerStr("lipo") == "lipo" && LowerStr("li-poly") == "li-poly";
  }

  /** A battery directory written out from its values reads back as those values. */
  lemma FromSysfsOfValues(path: string, manufacturer: string, technology: Technology, alias: string,
                          designUwh: nat, files: map<string, string>)
    requires alias in Aliases(technology)
    requires "manufacturer" in files && files["manufacturer"] == manufacturer + "\n" && '\n' !in manufacturer
    requires "model_name" !in files
    requires "technology" in files && files["technology"] == alias + "\n"
    requires "energy_full_design" in files && files["energy_full_design"] == ToDigits(designUwh, 10) + "\n"
    requires designUwh < Counters.U64Bound
    ensures FromSysfs(path, files) ==
      Ok(Battery(path, Some(manufacturer), None, Some(designUwh as real / 1000000.0), technology))
  {
    LineOf(files, "manufacturer", manufacturer);
    AliasParses(technology, alias);
    LineOf(files, "technology", alias);
    ParsedFileOf(files, "energy_full_design", designUwh, Counters.U64Bound);
  }

  /** `display_name`: "<energy> Battery" when the design capacity is known, otherwise
      "Battery"; the energy's text comes from `convert_energy`, a parameter here. */
  function DisplayName(b: Battery, convertEnergy: real -> string): string
  {
    match b.designCapacity
    case Some(capacity) => I18n.Freplaced("{} Battery", [convertEnergy(capacity)])
    case None => "Battery"
  }

  /** The name is the converted energy followed by " Battery", or "Battery" alone. */
  lemma DisplayNameOf(b: Battery, convertEnergy: real -> string)
    ensures b.designCapacity.Some? ==> DisplayName(b, convertEnergy) == convertEnergy(b.designCapacity.value) + " Battery"
    ensures b.designCapacity.None? ==> DisplayName(b, convertEnergy) == "Battery"
  {
    if b.designCapacity.Some? {
      var pieces := ["", " Battery"];
      assert I18n.JoinStr(pieces, I18n.Placeholder) == "{} Battery";
      I18n.FreplaceFillsInOrder(pieces, [convertEnergy(b.designCapacity.value)]);
      assert pieces[1..] == [" Battery"];
    }
  }

  /** `charge`: the capacity file's percentage (a `u8`) over 100. */
  function Charge(files: map<string, string>): (r: Result<Counters.Quotient, string>)
    ensures r.Ok? ==> r.value.denominator == 100 && r.value.numerator < 256
    ensures r.Ok? <==> "capacity" in files && ParseUnsigned(Trim(files["capacity"]), 10, 256).Some?
  {
    match ParsedFile(files, "capacity", 256)
    case None => Err("unable to read capacity")
    case Some(None) => Err("unable to parse capacity sysfs file")
    case Some(Some(percent)) => Ok(Counters.Quotient(percent, 100))
  }

  /** `health`: energy_full over energy_full_design, each a `usize`; the first file that
      cannot be read or parsed is the error. */
  function Health(files: map<string, string>): (r: Result<Counters.Quotient, string>)
    ensures r.Ok? <==>
      "energy_full" in files && ParseUnsigned(Trim(files["energy_full"]), 10, Counters.U64Bound).Some? &&
      "energy_full_design" in files && ParseUnsigned(Trim(files["energy_full_design"]), 10, Counters.U64Bound).Some?
  {
    match ParsedFile(files, "energy_full", Counters.U64Bound)
    case None => Err("unable to read energy_full")
    case Some(None) => Err("unable to parse energiy_full sysfs file")
    case Some(Some(full)) =>
      match ParsedFile(files, "energy_full_design", Counters.U64Bound)
      case None => Err("unable to read energy_full_design")
      case Some(None) => Err("unable to parse energy_full_design sysfs file")
      case Some(Some(design)) => Ok(Counters.Quotient(full, design))
  }

  /** `power_usage`: power_now in microwatts, as watts. */
  function PowerUsage(files: map<string, string>): (r: Result<Counters.Quotient, string>)
    ensures r.Ok? ==> r.value.denominator == 1000000
    ensures r.Ok? <==> "power_now" in files && ParseUnsigned(Trim(files["power_now"]), 10, Counters.U64Bound).Some?
  {
    match ParsedFile(files, "power_now", Counters.U64Bound)
    case None => Err("unable to read power_now")
    case Some(None) => Err("unable to parse power_now sysfs file")
    case Some(Some(microwatts)) => Ok(Counters.Quotient(microwatts, 1000000))
  }

  /** `state`: an unreadable status file is an error; any readable one is a state. */
  function StateOf(files: map<string, string>): (r: Result<State, string>)
    ensures r.Ok? <==> "status" in files
  {
    match Line(files, "status")
    case None => Err("unable to read status")
    case Some(status) => Ok(StateFromStr(status))
  }

  /** `charge_cycles`: cycle_count as a `usize`. */
  function ChargeCycles(files: map<string, string>): (r: Result<nat, string>)
    ensures r.Ok? ==> r.value < Counters.U64Bound
    ensures r.Ok? <==> "cycle_count" in files && ParseUnsigned(Trim(files["cycle_count"]), 10, Counters.U64Bound).Some?
  {
    match ParsedFile(files, "cycle_count", Counters.U64Bound)
    case None => Err("unable to read cycle_count")
    case Some(None) => Err("unable to parse power_now sysfs file")
    case Some(Some(n)) => Ok(n)
  }

  /** Files holding a charge percentage, the two energies and a status line read back as
      the charge, the health ratio and the state they describe. */
  lemma ReadingsOfValues(percent: nat, full: nat, design: nat, st: State, files: map<string, string>)
    requires "capacity" in files && files["capacity"] == ToDigits(percent, 10) + "\n" && percent < 256
    requires "energy_full" in files && files["energy_full"] == ToDigits(full, 10) + "\n" && full < Counters.U64Bound
    requires "energy_full_design" in files && files["energy_full_design"] == ToDigits(design, 10) + "\n"
    requires design < Counters.U64Bound
    requires "status" in files && files["status"] == StateDisplay(st) + "\n"
    ensures Charge(files) == Ok(Counters.Quotient(percent, 100))
    ensures Health(files) == Ok(Counters.Quotient(full, design))
    ensures StateOf(files) == Ok(st)
  {
    ParsedFileOf(files, "capacity", percent, 256);
    ParsedFileOf(files, "energy_full", full, Counters.U64Bound);
    ParsedFileOf(files, "energy_full_design", design, Counters.U64Bound);
    StateOfValue(files, st);
  }

  /** A status file holding a state's displayed name reads as that state. */
  lemma StateOfValue(files: map<string, string>, st: State)
    requires "status" in files && files["status"] == StateDisplay(st) + "\n"
    ensures StateOf(files) == Ok(st)
  {
    assert '\n' !in StateDisplay(st) by {
      match st
      case _ =>
    }
    LineOf(files, "status", StateDisplay(st));
    StateRoundTrip(st);
  }

  /** `BatteryData::new`: the battery and each of its readings, every reading failing on
      its own; only the battery itself failing fails the whole. */
  datatype BatteryData = BatteryData(inner: Battery, charge: Result<Counters.Quotient, string>,
                                     powerUsage: Result<Counters.Quotient, string>,
                                     health: Result<Counters.Quotient, string>,
                                     state: Result<State, string>, chargeCycles: Result<nat, string>)

  function DataOf(path: string, files: map<string, string>): (r: Result<BatteryData, string>)
    ensures r.Ok? <==> FromSysfs(path, files).Ok?
    ensures r.Ok? ==>
      (r.value.inner == FromSysfs(path, files).value && r.value.state == StateOf(files) &&
       r.value.charge == Charge(files) && r.value.health == Health(files))
  {
    match FromSysfs(path, files)
    case Err(e) => Err(e)
    case Ok(b) => Ok(BatteryData(b, Charge(files), PowerUsage(files), Health(files), StateOf(files), ChargeCycles(files)))
  }

  // ---------------------------------------------------------------- get_sysfs_paths

  /** A power supply is a battery when its "type" file, lower-cased and trimmed, says
      "battery"; an unreadable type file counts as empty. */
  predicate IsBatteryType(supplyType: Option<string>)
  {
    Trim(LowerStr(supplyType.UnwrapOr(""))) == "battery"
  }

  /** `get_sysfs_paths`: the power supplies whose type is battery, in directory order. */
  method SysfsPaths(entries: seq<Result<DirListing.Entry<Option<string>>, string>>) returns (r: Result<seq<string>, string>)
    ensures r == DirListing.Kept(entries, IsBatteryType)
  {
    r := DirListing.ListKept(entries, IsBatteryType);
  }

  /** A supply's path is listed exactly when its type file reads "battery" in any case and
      with any surrounding whitespace. */
  lemma SysfsPathsKeepBatteries(entries: seq<Result<DirListing.Entry<Option<string>>, string>>, p: string)
    requires forall i :: 0 <= i < |entries| ==> entries[i].Ok?
    ensures DirListing.Kept(entries, IsBatteryType).Ok?
    ensures p in DirListing.Kept(entries, IsBatteryType).value <==>
      (exists i :: 0 <= i < |entries| && entries[i].value.path == p &&
         Trim(LowerStr(entries[i].value.info.UnwrapOr(""))) == "battery")
  {
    DirListing.KeptMembers(entries, IsBatteryType, p);
  }

  /** The kernel's "Battery\n" is a battery. */
  lemma BatteryTypeOfKernel()
    ensures IsBatteryType(Some("Battery\n"))
  {
    LowerStrConcat("Batt", "ery\n");
    assert LowerStr("Batt") == "batt";
    assert LowerStr("ery\n") == "ery\n";
    assert "Batt" + "ery\n" == "Battery\n";
    assert "batt" + "ery\n" == "battery" + "\n";
    TrimLineWord("battery");
  }

  /** "Mains" and an unreadable type are not batteries. */
  lemma NotBatteryTypes()
    ensures !IsBatteryType(Some("Mains\n"))
    ensures !IsBatteryType(None)
  {
    LowerStrConcat("Ma", "ins\n");
    assert LowerStr("Ma") == "ma";
    assert LowerStr("ins\n") == "ins\n";
    assert "Ma" + "ins\n" == "Mains\n";
    assert "ma" + "ins\n" == "mains" + "\n";
    TrimLineWord("mains");
    assert LowerStr("") == "";
  }

  /** A word of letters followed by a line break trims to the word. */
  lemma TrimLineWord(w: string)
    requires |w| > 0 && forall i :: 0 <= i < |w| ==> 'a' <= w[i] <= 'z'
    ensures Trim(w + "\n") == w
  {
    var t := w + "\n";
    assert !IsSpace(t[0]);
    assert TrimStart(t) == t;
    assert t[..|t| - 1] == w;
    assert TrimEnd(t) == TrimEnd(w);
    assert !IsSpace(w[|w| - 1]);
    assert TrimEnd(w) == w;
  }
}

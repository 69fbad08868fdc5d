/** A PCI slot address (domain:bus:number.function) packed into one 32-bit word
    (lib/process_data/src/pci_slot.rs). */
module PciSlot {
  import opened Wrappers
  import opened Text

  /** The errors of `try_new` and `from_str`. The `ParseIntError` payloads are not modelled. */
  datatype PciSlotError =
    | NumberOutOfBounds(number: nat)
    | FunctionOutOfBounds(func: nat)
    | InvalidFormat
    | ParseDomain
    | ParseBus
    | ParseNumber
    | ParseFunction

  /** The characters `from_str` splits on. */
  const Separators: set<char> := {':', '.'}

  type U32 = x: nat | x < 0x1_0000_0000

  /** The slot: 16 bits of domain, 8 of bus, 5 of number and 3 of function, most significant
      first. A right shift by k of the unsigned word is a division by 2^k and a mask of k low
      bits is a remainder modulo 2^k, which is how the accessors are written here. */
  datatype Slot = Slot(data: U32)
  {
    /** `(data >> 16) & 0xffff`. */
    function Domain(): (d: nat)
      ensures d < 0x1_0000
    {
      (data / 0x1_0000) % 0x1_0000
    }

    /** `(data >> 8) & 0xff`. */
    function Bus(): (b: nat)
      ensures b < 0x100
    {
      (data / 0x100) % 0x100
    }

    /** `(data >> 3) & 0x1f`: always a 5-bit value. */
    function Number(): (n: nat)
      ensures n < 32
    {
      (data / 8) % 0x20
    }

    /** `data & 0x7`: always a 3-bit value. */
    function Function(): (f: nat)
      ensures f < 8
    {
      data % 8
    }

    /** `Display`: "{:04x}:{:02x}:{:02x}.{:x}". */
    function ToString(): string
    {
      PadZeros(ToDigits(Domain(), 16), 4) + ":" + PadZeros(ToDigits(Bus(), 16), 2) + ":"
        + PadZeros(ToDigits(Number(), 16), 2) + "." + ToDigits(Function(), 16)
    }
  }

  /** `PciSlot::try_new`: the number is checked before the function. */
  function TryNew(domain: nat, bus: nat, number: nat, func: nat): (r: Result<Slot, PciSlotError>)
    requires domain < 0x1_0000 && bus < 0x100 && number < 0x100 && func < 0x100
    ensures number > 0x1f ==> r == Err(NumberOutOfBounds(number))
    ensures number <= 0x1f && func > 7 ==> r == Err(FunctionOutOfBounds(func))
    ensures r.Ok? <==> number <= 0x1f && func <= 7
    ensures r.Ok? ==> r.value.Domain() == domain && r.value.Bus() == bus
                      && r.value.Number() == number && r.value.Function() == func
  {
    if number > 0x1f then Err(NumberOutOfBounds(number))
    else if func > 7 then Err(FunctionOutOfBounds(func))
    else
      // The four fields occupy disjoint bits, so the source's `|` of the shifted fields is their sum.
      PackFields(domain, bus, number, func);
      Ok(Slot(domain * 0x1_0000 + bus * 0x100 + number * 8 + func))
  }

  /** Division and remainder by the field widths used here are determined by a quotient and
      remainder that rebuild the dividend. */
  lemma DivModBy(x: int, k: int, q: int, r: int)
    requires k == 8 || k == 0x20 || k == 0x100 || k == 0x1_0000
    requires 0 <= r < k && x == q * k + r
    ensures x / k == q && x % k == r
  {
    if k == 8 {} else if k == 0x20 {} else if k == 0x100 {} else {}
  }

  /** The four fields read back from a packed word are the ones packed into it. */
  lemma PackFields(d: nat, b: nat, n: nat, f: nat)
    requires d < 0x1_0000 && b < 0x100 && n < 32 && f < 8
    ensures var w := d * 0x1_0000 + b * 0x100 + n * 8 + f;
      w < 0x1_0000_0000 && Slot(w).Domain() == d && Slot(w).Bus() == b
      && Slot(w).Number() == n && Slot(w).Function() == f
  {
    var w := d * 0x1_0000 + b * 0x100 + n * 8 + f;
    DivModBy(w, 8, d * 0x2000 + b * 0x20 + n, f);
    DivModBy(d * 0x2000 + b * 0x20 + n, 0x20, d * 0x100 + b, n);
    DivModBy(w, 0x100, d * 0x100 + b, n * 8 + f);
    DivModBy(d * 0x100 + b, 0x100, d, b);
    DivModBy(w, 0x1_0000, d, b * 0x100 + n * 8 + f);
    DivModBy(d, 0x1_0000, 0, d);
  }

  /** The four fields cover every bit of the word, so packing them again gives the word. */
  lemma UnpackFields(slot: Slot)
    ensures slot.data == slot.Domain() * 0x1_0000 + slot.Bus() * 0x100 + slot.Number() * 8 + slot.Function()
  {
    var f, q1 := slot.data % 8, slot.data / 8;
    var n, q2 := q1 % 0x20, q1 / 0x20;
    var b, d := q2 % 0x100, q2 / 0x100;
    assert slot.data == q1 * 8 + f;
    assert q1 == q2 * 0x20 + n;
    assert q2 == d * 0x100 + b;
    assert slot.data == d * 0x1_0000 + b * 0x100 + n * 8 + f;
    PackFields(d, b, n, f);
  }

  /** `FromStr for PciSlot`. */
  function FromStr(s: string): (r: Result<Slot, PciSlotError>)
    ensures |Split(s, Separators)| != 4 ==> r == Err(InvalidFormat)
    ensures r.Ok? ==> var p := Split(s, Separators);
      ParseUnsigned(p[0], 16, 0x1_0000) == Some(r.value.Domain())
      && ParseUnsigned(p[1], 16, 0x100) == Some(r.value.Bus())
      && ParseUnsigned(p[2], 16, 0x100) == Some(r.value.Number())
      && ParseUnsigned(p[3], 16, 0x100) == Some(r.value.Function())
  {
    var parts := Split(s, Separators);
    if |parts| != 4 then Err(InvalidFormat)
    else match ParseUnsigned(parts[0], 16, 0x1_0000)
      case None => Err(ParseDomain)
      case Some(domain) =>
        match ParseUnsigned(parts[1], 16, 0x100)
        case None => Err(ParseBus)
        case Some(bus) =>
          match ParseUnsigned(parts[2], 16, 0x100)
          case None => Err(ParseNumber)
          case Some(number) =>
            match ParseUnsigned(parts[3], 16, 0x100)
            case None => Err(ParseFunction)
            case Some(func) => TryNew(domain, bus, number, func)
  }

  /** A part that is not hex text yields the error naming that part, in domain, bus, number,
      function order. */
  lemma FromStrPartErrors(s: string)
    requires |Split(s, Separators)| == 4
    ensures var p := Split(s, Separators);
      (ParseUnsigned(p[0], 16, 0x1_0000).None? ==> FromStr(s) == Err(ParseDomain))
      && (ParseUnsigned(p[0], 16, 0x1_0000).Some? && ParseUnsigned(p[1], 16, 0x100).None?
          ==> FromStr(s) == Err(ParseBus))
      && (ParseUnsigned(p[0], 16, 0x1_0000).Some? && ParseUnsigned(p[1], 16, 0x100).Some?
          && ParseUnsigned(p[2], 16, 0x100).None?
          ==> FromStr(s) == Err(ParseNumber))
      && (ParseUnsigned(p[0], 16, 0x1_0000).Some? && ParseUnsigned(p[1], 16, 0x100).Some?
          && ParseUnsigned(p[2], 16, 0x100).Some?
          && ParseUnsigned(p[3], 16, 0x100).None?
          ==> FromStr(s) == Err(ParseFunction))
  {
  }

  lemma HexHasNoSeparator(s: string)
    requires AllDigits(s, 16)
    ensures NoneOf(s, Separators)
  {
    forall i | 0 <= i < |s| ensures s[i] !in Separators {
      assert DigitValue(s[i], 16).Some?;
    }
  }

  lemma PaddedHexHasNoSeparator(x: nat, width: nat)
    ensures NoneOf(PadZeros(ToDigits(x, 16), width), Separators)
  {
    var s := ToDigits(x, 16);
    HexHasNoSeparator(s);
    if |s| < width {
      LeadingZeros(width - |s|, s, 16);
      HexHasNoSeparator(PadZeros(s, width));
    }
  }

  /** The four printed fields, as `Display` writes them between the separators. */
  function Fields(slot: Slot): seq<string>
  {
    [PadZeros(ToDigits(slot.Domain(), 16), 4), PadZeros(ToDigits(slot.Bus(), 16), 2),
     PadZeros(ToDigits(slot.Number(), 16), 2), ToDigits(slot.Function(), 16)]
  }

  /** The printed text splits back into exactly the four printed fields. */
  lemma SplitToString(slot: Slot)
    ensures Split(slot.ToString(), Separators) == Fields(slot)
  {
    var p := Fields(slot);
    var d, b, n, f := p[0], p[1], p[2], p[3];
    PaddedHexHasNoSeparator(slot.Domain(), 4);
    PaddedHexHasNoSeparator(slot.Bus(), 2);
    PaddedHexHasNoSeparator(slot.Number(), 2);
    PaddedHexHasNoSeparator(slot.Function(), 0);
    assert f == PadZeros(f, 0);
    SplitPlain(f, Separators);
    SplitAfterPiece(n, '.', f, Separators);
    SplitAfterPiece(b, ':', n + "." + f, Separators);
    SplitAfterPiece(d, ':', b + ":" + n + "." + f, Separators);
    assert b + ":" + n + "." + f == b + [':'] + (n + "." + f);
    assert d + ":" + b + ":" + n + "." + f == d + [':'] + (b + ":" + n + "." + f);
    assert slot.ToString() == d + ":" + b + ":" + n + "." + f;
  }

  /** Each printed field parses back to the field's value. */
  lemma ParseFields(slot: Slot)
    ensures ParseUnsigned(Fields(slot)[0], 16, 0x1_0000) == Some(slot.Domain())
    ensures ParseUnsigned(Fields(slot)[1], 16, 0x100) == Some(slot.Bus())
    ensures ParseUnsigned(Fields(slot)[2], 16, 0x100) == Some(slot.Number())
    ensures ParseUnsigned(Fields(slot)[3], 16, 0x100) == Some(slot.Function())
  {
    ParseFormatted(slot.Domain(), 4, 16, 0x1_0000);
    ParseFormatted(slot.Bus(), 2, 16, 0x100);
    ParseFormatted(slot.Number(), 2, 16, 0x100);
    ParseFormatted(slot.Function(), 0, 16, 0x100);
    assert ToDigits(slot.Function(), 16) == PadZeros(ToDigits(slot.Function(), 16), 0);
  }

  /** In-range fields are packed as the sum of the shifted fields. */
  lemma TryNewPacks(d: nat, b: nat, n: nat, f: nat)
    requires d < 0x1_0000 && b < 0x100 && n < 32 && f < 8
    ensures TryNew(d, b, n, f) == Ok(Slot(d * 0x1_0000 + b * 0x100 + n * 8 + f))
  {
  }

  /** Every slot is the one `try_new` builds from its own fields. */
  lemma TryNewOfFields(slot: Slot)
    ensures TryNew(slot.Domain(), slot.Bus(), slot.Number(), slot.Function()) == Ok(slot)
  {
    var d, b, n, f := slot.Domain(), slot.Bus(), slot.Number(), slot.Function();
    TryNewPacks(d, b, n, f);
    UnpackFields(slot);
  }

  /** Text that splits into a slot's printed fields parses to that slot. */
  lemma FromStrOfFields(s: string, slot: Slot)
    requires Split(s, Separators) == Fields(slot)
    ensures FromStr(s) == Ok(slot)
  {
    ParseFields(slot);
    assert FromStr(s) == TryNew(slot.Domain(), slot.Bus(), slot.Number(), slot.Function());
    TryNewOfFields(slot);
  }

  /** `Display` round-trips through `FromStr` for every slot. */
  lemma FromStrToString(slot: Slot)
    ensures FromStr(slot.ToString()) == Ok(slot)
  {
    SplitToString(slot);
    FromStrOfFields(slot.ToString(), slot);
  }

  /** The derived `Ord` compares the packed words, which is the lexicographic order on
      (domain, bus, number, function). */
  predicate LexLess(a: Slot, b: Slot)
  {
    a.Domain() < b.Domain()
    || (a.Domain() == b.Domain() && a.Bus() < b.Bus())
    || (a.Domain() == b.Domain() && a.Bus() == b.Bus() && a.Number() < b.Number())
    || (a.Domain() == b.Domain() && a.Bus() == b.Bus() && a.Number() == b.Number()
        && a.Function() < b.Function())
  }

  lemma OrderIsLexicographic(a: Slot, b: Slot)
    ensures a.data < b.data <==> LexLess(a, b)
  {
    UnpackFields(a);
    UnpackFields(b);
  }

  /** Two slots are equal exactly when they print the same. */
  lemma ToStringInjective(a: Slot, b: Slot)
    ensures a == b <==> a.ToString() == b.ToString()
  {
    if a.ToString() == b.ToString() {
      FromStrToString(a);
      FromStrToString(b);
    }
  }

  /** The unit tests' pairs for `try_new` and `Display`. */
  lemma TestVectors()
    ensures TryNew(0x5, 0x1, 0x1b, 0x3).Ok? && TryNew(0x5, 0x1, 0x1b, 0x3).value.ToString() == "0005:01:1b.3"
    ensures TryNew(0, 0, 0x20, 0) == Err(NumberOutOfBounds(0x20))
    ensures TryNew(0, 0, 0, 8) == Err(FunctionOutOfBounds(8))
  {
  }
}

/** `to_largest_unit` (src/utils/units.rs): an amount scaled down by the largest power of the
    base (1000 or 1024) that leaves it below the base, with the matching SI or IEC prefix.
    Amounts are `f64` in the program and reals here. */
module Units {
  datatype Base = Decimal | Binary

  const DecimalPrefixes: seq<string> := ["", "k", "M", "G", "T", "P", "E", "Z", "Y"]
  const BinaryPrefixes: seq<string> := ["", "Ki", "Mi", "Gi", "Ti", "Pi", "Ei", "Zi", "Yi"]

  function Prefixes(base: Base): (r: seq<string>)
    ensures |r| == 9
  {
    match base
    case Decimal => DecimalPrefixes
    case Binary => BinaryPrefixes
  }

  function Factor(base: Base): (r: real)
    ensures r > 1.0
  {
    match base
    case Decimal => 1000.0
    case Binary => 1024.0
  }

  function Pow(b: real, k: nat): (r: real)
    requires b > 1.0
    ensures r >= 1.0
  {
    if k == 0 then 1.0 else b * Pow(b, k - 1)
  }

  /** How many times the loop divides: the first `k` below 9 at which the scaled amount is
      below the base, or 9 when there is none. */
  function Level(amount: real, b: real, k: nat): (r: nat)
    requires b > 1.0 && k <= 9
    ensures k <= r <= 9
    decreases 9 - k
  {
    if k == 9 then 9
    else if amount / Pow(b, k) < b then k
    else Level(amount, b, k + 1)
  }

  /** Dividing by the base once more is dividing by the next power. */
  lemma DivideAgain(amount: real, b: real, k: nat)
    requires b > 1.0
    ensures (amount / Pow(b, k)) / b == amount / Pow(b, k + 1)
  {
    var p := Pow(b, k);
    assert Pow(b, k + 1) == b * p;
  }

  /** `to_largest_unit`: the loop over the prefixes, dividing by the base until the amount
      is below it; past the last prefix the amount is divided once more and the last prefix
      kept. */
  method ToLargestUnit(amount: real, base: Base) returns (x: real, unit: string)
    ensures var k := Level(amount, Factor(base), 0);
      x == amount / Pow(Factor(base), k) && unit == Prefixes(base)[if k == 9 then 8 else k]
  {
    var prefixes := Prefixes(base);
    var b := Factor(base);
    x := amount;
    var i := 0;
    while i < |prefixes|
      invariant 0 <= i <= 9
      invariant x == amount / Pow(b, i)
      invariant Level(amount, b, 0) == Level(amount, b, i)
    {
      if x < b {
        return x, prefixes[i];
      }
      DivideAgain(amount, b, i);
      x := x / b;
      i := i + 1;
    }
    unit := prefixes[|prefixes| - 1];
  }

  /** The result is the amount over the base to the power of the prefix's position, below
      the base unless the amount is past the last prefix; the position is the least one
      below the base. */
  lemma {:induction false} LevelIsLeast(amount: real, b: real, k: nat)
    requires b > 1.0 && k <= 9
    ensures Level(amount, b, k) < 9 ==> amount / Pow(b, Level(amount, b, k)) < b
    ensures forall j :: k <= j < Level(amount, b, k) ==> amount / Pow(b, j) >= b
    decreases 9 - k
  {
    if k < 9 && amount / Pow(b, k) >= b {
      LevelIsLeast(amount, b, k + 1);
    }
  }

  /** Scaling back: the result times the base to the power of the level is the amount. */
  lemma ScaleBack(amount: real, b: real, k: nat)
    requires b > 1.0
    ensures (amount / Pow(b, k)) * Pow(b, k) == amount
  {
  }

  /** An amount below the base keeps its value and gets no prefix. */
  lemma SmallAmountUnscaled(amount: real, base: Base)
    requires amount < Factor(base)
    ensures Level(amount, Factor(base), 0) == 0
    ensures Prefixes(base)[0] == ""
  {
    assert Pow(Factor(base), 0) == 1.0;
  }

  /** A scaled non-negative amount is at least 1 once any prefix is used: the previous
      division left it at least the base. */
  lemma ScaledAtLeastOne(amount: real, b: real)
    requires b > 1.0 && amount >= 0.0
    ensures Level(amount, b, 0) > 0 ==> amount / Pow(b, Level(amount, b, 0)) >= 1.0
  {
    var k := Level(amount, b, 0);
    LevelIsLeast(amount, b, 0);
    if k > 0 {
      assert amount / Pow(b, k - 1) >= b;
      DivideAgain(amount, b, k - 1);
    }
  }
}

/** Rust's string and integer-text primitives as the modules below use them: splitting,
    trimming, prefix tests, and `from_str_radix`/`parse` for unsigned integers. Whitespace
    and case folding are restricted to ASCII. */
module Text {
  import opened Wrappers

  // ---------------------------------------------------------------- characters

  /** `char::is_whitespace` restricted to ASCII. */
  predicate IsSpace(c: char)
  {
    c == ' ' || c == '\t' || c == '\n' || c == '\r' || c == '\U{0B}' || c == '\U{0C}'
  }

  predicate IsDecDigit(c: char)
  {
    '0' <= c <= '9'
  }

  /** `char::to_digit(radix)` for radix 10 or 16: either case of a–f counts as a hex digit. */
  function DigitValue(c: char, radix: nat): (r: Option<nat>)
    requires radix == 10 || radix == 16
    ensures r.Some? ==> r.value < radix
    ensures IsDecDigit(c) ==> r == Some(c as nat - '0' as nat)
  {
    if '0' <= c <= '9' then Some(c as nat - '0' as nat)
    else if radix == 16 && 'a' <= c <= 'f' then Some(c as nat - 'a' as nat + 10)
    else if radix == 16 && 'A' <= c <= 'F' then Some(c as nat - 'A' as nat + 10)
    else None
  }

  /** ASCII lower-casing of one character. */
  function Lower(c: char): char
  {
    if 'A' <= c <= 'Z' then (c as int + 32) as char else c
  }

  function LowerStr(s: string): (r: string)
    ensures |r| == |s|
    ensures forall i :: 0 <= i < |s| ==> r[i] == Lower(s[i])
  {
    seq(|s|, i requires 0 <= i < |s| => Lower(s[i]))
  }

  /** Lower-casing twice is lower-casing once. */
  lemma LowerStrIdempotent(s: string)
    ensures LowerStr(LowerStr(s)) == LowerStr(s)
  {
    var l := LowerStr(s);
    assert forall i :: 0 <= i < |l| ==> Lower(l[i]) == l[i];
  }

  /** Lower-casing goes piecewise over a concatenation. */
  lemma LowerStrConcat(a: string, b: string)
    ensures LowerStr(a + b) == LowerStr(a) + LowerStr(b)
  {
    assert forall i :: 0 <= i < |a + b| ==> LowerStr(a + b)[i] == (LowerStr(a) + LowerStr(b))[i];
  }

  // ---------------------------------------------------------------- prefixes and search

  predicate StartsWith(s: string, p: string)
  {
    |p| <= |s| && s[..|p|] == p
  }

  predicate EndsWith(s: string, p: string)
  {
    |p| <= |s| && s[|s| - |p|..] == p
  }

  /** `str::contains` for a string pattern. */
  predicate Contains(s: string, p: string)
  {
    exists i :: 0 <= i <= |s| && StartsWith(s[i..], p)
  }

  /** Text missing one of the pattern's characters does not contain the pattern. */
  lemma NotContainsWithoutChar(s: string, p: string, k: nat)
    requires k < |p| && p[k] !in s
    ensures !Contains(s, p)
  {
    forall i | 0 <= i <= |s| ensures !StartsWith(s[i..], p) {
      if |p| <= |s| - i {
        assert s[i..][..|p|][k] == s[i + k];
      }
    }
  }

  /** The pattern occurs where it is placed. */
  lemma ContainsPlaced(a: string, p: string, b: string)
    ensures Contains(a + p + b, p)
  {
    var s := a + p + b;
    assert s[|a|..][..|p|] == p;
  }

  /** Position of the first occurrence of `c`. */
  function IndexOf(s: string, c: char): (i: nat)
    requires c in s
    ensures i < |s| && s[i] == c && c !in s[..i]
  {
    if s[0] == c then 0 else 1 + IndexOf(s[1..], c)
  }

  /** Position of the last occurrence of `c`. */
  function LastIndexOf(s: string, c: char): (i: nat)
    requires c in s
    ensures i < |s| && s[i] == c && c !in s[i + 1..]
  {
    if s[|s| - 1] == c then |s| - 1 else LastIndexOf(s[..|s| - 1], c)
  }

  // ---------------------------------------------------------------- splitting

  /** `str::split` with a character predicate given as a set of separators: the maximal
      pieces between separators, so there is always at least one piece. */
  function Split(s: string, seps: set<char>): (parts: seq<string>)
    ensures |parts| >= 1
    decreases |s|
  {
    if |s| == 0 then [""]
    else if s[0] in seps then [""] + Split(s[1..], seps)
    else
      var rest := Split(s[1..], seps);
      [[s[0]] + rest[0]] + rest[1..]
  }

  /** The first piece is a separator-free prefix. */
  lemma {:induction false} SplitFirstPiece(s: string, seps: set<char>)
    ensures StartsWith(s, Split(s, seps)[0]) && NoneOf(Split(s, seps)[0], seps)
    ensures |Split(s, seps)[0]| < |s| ==> s[|Split(s, seps)[0]|] in seps
    decreases |s|
  {
    if |s| > 0 && s[0] !in seps {
      SplitFirstPiece(s[1..], seps);
      var p := Split(s[1..], seps)[0];
      assert Split(s, seps)[0] == [s[0]] + p;
      assert s[..1 + |p|] == [s[0]] + s[1..][..|p|];
    }
  }

  /** Only separator-free text is a single piece. */
  lemma {:induction false} SplitSingle(s: string, seps: set<char>)
    requires |Split(s, seps)| == 1
    ensures NoneOf(s, seps)
    decreases |s|
  {
    if |s| > 0 {
      SplitSingle(s[1..], seps);
    }
  }

  /** The last piece is a separator-free suffix. */
  lemma {:induction false} SplitLastPiece(s: string, seps: set<char>)
    ensures var p := Split(s, seps); var l := p[|p| - 1];
      EndsWith(s, l) && NoneOf(l, seps) && (|l| < |s| ==> s[|s| - |l| - 1] in seps)
    decreases |s|
  {
    if |s| > 0 {
      var rest := Split(s[1..], seps);
      if s[0] !in seps && |rest| == 1 {
        SplitSingle(s[1..], seps);
        SplitPlain(s, seps);
      } else {
        SplitLastPiece(s[1..], seps);
        SplitTailLast(s, seps);
        var l := rest[|rest| - 1];
        SplitLastShift(s, seps, l);
        assert Split(s, seps)[|Split(s, seps)| - 1] == l;
      }
    }
  }

  /** A separator-free suffix of the text after the first character that is the last of
      several pieces is also a suffix of the whole text, preceded by a separator. */
  lemma SplitLastShift(s: string, seps: set<char>, l: string)
    requires |s| > 0 && (s[0] in seps || |Split(s[1..], seps)| > 1)
    requires EndsWith(s[1..], l) && NoneOf(l, seps) && (|l| < |s| - 1 ==> s[1..][|s| - 1 - |l| - 1] in seps)
    ensures EndsWith(s, l) && (|l| < |s| ==> s[|s| - |l| - 1] in seps)
  {
    assert s[1..][|s[1..]| - |l|..] == s[|s| - |l|..];
    if |l| == |s| - 1 && s[0] !in seps {
      assert l == s[1..];
      SplitPlain(s[1..], seps);
    }
  }

  /** Unless the first character joins a single following piece, the last piece is that of
      the text after the first character. */
  lemma SplitTailLast(s: string, seps: set<char>)
    requires |s| > 0 && (s[0] in seps || |Split(s[1..], seps)| > 1)
    ensures var p := Split(s, seps); var rest := Split(s[1..], seps);
      p[|p| - 1] == rest[|rest| - 1]
  {
    var p, rest := Split(s, seps), Split(s[1..], seps);
    if s[0] in seps {
      assert p == [""] + rest;
    } else {
      assert p == [[s[0]] + rest[0]] + rest[1..];
      assert p[|p| - 1] == rest[1..][|rest| - 2];
    }
  }

  /** Inverse of `Split` on one separator: the pieces glued back with `c`. */
  function Join(parts: seq<string>, c: char): string
  {
    if |parts| == 0 then ""
    else if |parts| == 1 then parts[0]
    else parts[0] + [c] + Join(parts[1..], c)
  }

  predicate NoneOf(s: string, seps: set<char>)
  {
    forall i :: 0 <= i < |s| ==> s[i] !in seps
  }

  /** A piece free of separators followed by a separator starts a new piece. */
  lemma {:induction false} SplitAfterPiece(a: string, x: char, rest: string, seps: set<char>)
    requires NoneOf(a, seps) && x in seps
    ensures Split(a + [x] + rest, seps) == [a] + Split(rest, seps)
    decreases |a|
  {
    if |a| == 0 {
      assert a + [x] + rest == [x] + rest;
      assert ([x] + rest)[1..] == rest;
    } else {
      var s := a + [x] + rest;
      assert s[0] == a[0] && s[0] !in seps;
      assert s[1..] == a[1..] + [x] + rest;
      SplitAfterPiece(a[1..], x, rest, seps);
      assert [a[0]] + a[1..] == a;
    }
  }

  /** A piece free of separators is split into itself. */
  lemma {:induction false} SplitPlain(a: string, seps: set<char>)
    requires NoneOf(a, seps)
    ensures Split(a, seps) == [a]
    decreases |a|
  {
    if |a| > 0 {
      SplitPlain(a[1..], seps);
      assert [a[0]] + a[1..] == a;
    }
  }

  /** Joining separator-free pieces then splitting gives the pieces back. */
  lemma {:induction false} SplitJoin(parts: seq<string>, c: char)
    requires |parts| >= 1
    requires forall i :: 0 <= i < |parts| ==> NoneOf(parts[i], {c})
    ensures Split(Join(parts, c), {c}) == parts
    decreases |parts|
  {
    if |parts| == 1 {
      SplitPlain(parts[0], {c});
    } else {
      SplitAfterPiece(parts[0], c, Join(parts[1..], c), {c});
      SplitJoin(parts[1..], c);
    }
  }

  /** Whatever precedes the last separator, the last piece is what follows it. */
  lemma {:induction false} SplitLast(a: string, x: char, rest: string, seps: set<char>)
    requires x in seps && NoneOf(rest, seps)
    ensures |Split(a + [x] + rest, seps)| >= 2
    ensures Split(a + [x] + rest, seps)[|Split(a + [x] + rest, seps)| - 1] == rest
    decreases |a|
  {
    var s := a + [x] + rest;
    if |a| == 0 {
      assert s == [x] + rest && s[1..] == rest;
      SplitPlain(rest, seps);
    } else {
      assert s[1..] == a[1..] + [x] + rest;
      SplitLast(a[1..], x, rest, seps);
    }
  }

  /** Splitting then joining on one character gives the input back. */
  lemma {:induction false} JoinSplit(s: string, c: char)
    ensures Join(Split(s, {c}), c) == s
    decreases |s|
  {
    if |s| > 0 {
      JoinSplit(s[1..], c);
      var rest := Split(s[1..], {c});
      if s[0] == c {
        assert Join([""] + rest, c) == "" + [c] + Join(rest, c);
        assert [s[0]] + s[1..] == s;
      } else {
        var parts := [[s[0]] + rest[0]] + rest[1..];
        if |rest| == 1 {
          assert Join(parts, c) == [s[0]] + rest[0];
        } else {
          assert parts[1..] == rest[1..];
          assert Join(rest, c) == rest[0] + [c] + Join(rest[1..], c);
        }
        assert [s[0]] + s[1..] == s;
      }
    }
  }

  /** `str::split` with a string pattern: leftmost non-overlapping matches. */
  function SplitStr(s: string, pat: string): (parts: seq<string>)
    requires |pat| > 0
    ensures |parts| >= 1
    decreases |s|
  {
    if |s| < |pat| then [s]
    else if s[..|pat|] == pat then [""] + SplitStr(s[|pat|..], pat)
    else
      var rest := SplitStr(s[1..], pat);
      [[s[0]] + rest[0]] + rest[1..]
  }

  /** A pattern-free piece followed by the pattern starts a new piece. */
  lemma {:induction false} SplitStrAfterPiece(a: string, pat: string, rest: string)
    requires |pat| > 0 && pat[0] !in a
    ensures SplitStr(a + pat + rest, pat) == [a] + SplitStr(rest, pat)
    decreases |a|
  {
    var s := a + pat + rest;
    if |a| == 0 {
      assert s == pat + rest && s[..|pat|] == pat && s[|pat|..] == rest;
    } else {
      assert s[0] == a[0] != pat[0];
      assert s[1..] == a[1..] + pat + rest;
      SplitStrAfterPiece(a[1..], pat, rest);
      assert [a[0]] + a[1..] == a;
    }
  }

  /** Text in which the pattern never occurs is one piece. */
  lemma {:induction false} SplitStrNoMatch(s: string, pat: string)
    requires |pat| > 0 && !Contains(s, pat)
    ensures SplitStr(s, pat) == [s]
    decreases |s|
  {
    if |s| >= |pat| {
      assert s[0..] == s;
      forall i | 0 <= i <= |s[1..]| ensures !StartsWith(s[1..][i..], pat) {
        assert s[1..][i..] == s[i + 1..];
      }
      SplitStrNoMatch(s[1..], pat);
      assert [s[0]] + s[1..] == s;
    }
  }

  /** `str::splitn(n, c)`: at most `n` pieces, the last holding the unsplit remainder. */
  function SplitN(s: string, n: nat, c: char): (parts: seq<string>)
    requires n >= 1
    ensures 1 <= |parts| <= n
    decreases n
  {
    if n == 1 || c !in s then [s]
    else
      var i := IndexOf(s, c);
      [s[..i]] + SplitN(s[i + 1..], n - 1, c)
  }

  /** A piece free of `c` followed by `c` is the first of the `splitn` pieces. */
  lemma SplitNAfterPiece(a: string, c: char, rest: string, n: nat)
    requires n >= 2 && c !in a
    ensures SplitN(a + [c] + rest, n, c) == [a] + SplitN(rest, n - 1, c)
  {
    var s := a + [c] + rest;
    assert s[|a|] == c;
    var i := IndexOf(s, c);
    assert s[..|a|] == a && s[|a|] == c;
    assert forall j :: 0 <= j < i ==> s[..i][j] == s[j];
    assert i == |a|;
    assert s[..i] == a && s[i + 1..] == rest;
  }

  /** `str::split_once(c)`. */
  function SplitOnce(s: string, c: char): (r: Option<(string, string)>)
    ensures r.None? <==> c !in s
    ensures r.Some? ==> r.value.0 + [c] + r.value.1 == s && c !in r.value.0
  {
    if c !in s then None
    else
      var i := IndexOf(s, c);
      assert s[..i] + [c] + s[i + 1..] == s;
      Some((s[..i], s[i + 1..]))
  }

  // ---------------------------------------------------------------- trimming and replacing

  function TrimStart(s: string): (r: string)
    ensures |r| <= |s| && s[|s| - |r|..] == r
    ensures |r| > 0 ==> !IsSpace(r[0])
    decreases |s|
  {
    if |s| > 0 && IsSpace(s[0]) then TrimStart(s[1..]) else s
  }

  /** Leading whitespace before a non-space character is dropped by `TrimStart`. */
  lemma {:induction false} TrimStartPrefix(ws: string, s: string)
    requires forall i :: 0 <= i < |ws| ==> IsSpace(ws[i])
    requires |s| > 0 && !IsSpace(s[0])
    ensures TrimStart(ws + s) == s
    decreases |ws|
  {
    if |ws| > 0 {
      assert (ws + s)[1..] == ws[1..] + s;
      TrimStartPrefix(ws[1..], s);
    } else {
      assert ws + s == s;
    }
  }

  function TrimEnd(s: string): (r: string)
    ensures |r| <= |s| && s[..|r|] == r
    ensures |r| > 0 ==> !IsSpace(r[|r| - 1])
    decreases |s|
  {
    if |s| > 0 && IsSpace(s[|s| - 1]) then TrimEnd(s[..|s| - 1]) else s
  }

  function Trim(s: string): string
  {
    TrimEnd(TrimStart(s))
  }

  /** A string without surrounding whitespace is its own trim. */
  lemma TrimFixed(s: string)
    requires |s| > 0 ==> !IsSpace(s[0]) && !IsSpace(s[|s| - 1])
    ensures Trim(s) == s
  {
  }

  /** `str::replace` of one character by another character. */
  function ReplaceChar(s: string, from: char, to: char): (r: string)
    ensures |r| == |s|
    ensures forall i :: 0 <= i < |s| ==> r[i] == (if s[i] == from then to else s[i])
  {
    seq(|s|, i requires 0 <= i < |s| => if s[i] == from then to else s[i])
  }

  /** `str::replace(c, "")`: every occurrence of `c` removed. */
  function RemoveChar(s: string, c: char): (r: string)
    ensures c !in r && |r| <= |s|
  {
    if |s| == 0 then ""
    else if s[0] == c then RemoveChar(s[1..], c)
    else [s[0]] + RemoveChar(s[1..], c)
  }

  // ---------------------------------------------------------------- unsigned integers

  predicate AllDigits(s: string, radix: nat)
    requires radix == 10 || radix == 16
  {
    forall i :: 0 <= i < |s| ==> DigitValue(s[i], radix).Some?
  }

  /** The number a digit string denotes, most significant digit first. */
  function DigitsValue(s: string, radix: nat): nat
    requires radix == 10 || radix == 16
    requires AllDigits(s, radix)
  {
    if |s| == 0 then 0
    else DigitsValue(s[..|s| - 1], radix) * radix + DigitValue(s[|s| - 1], radix).value
  }

  /** Rust's `uN::from_str_radix(s, radix)` (and `s.parse::<uN>()` for radix 10), where
      `bound` is 2^N: an optional '+', then at least one digit, and no overflow. */
  function ParseUnsigned(s: string, radix: nat, bound: nat): (r: Option<nat>)
    requires radix == 10 || radix == 16
    ensures r.Some? ==> r.value < bound
    ensures |s| == 0 ==> r.None?
  {
    var digits := if |s| > 0 && s[0] == '+' then s[1..] else s;
    if |digits| == 0 || !AllDigits(digits, radix) then None
    else if DigitsValue(digits, radix) < bound then Some(DigitsValue(digits, radix))
    else None
  }

  const EmptyIntMessage := "cannot parse integer from empty string"
  const InvalidDigitMessage := "invalid digit found in string"
  const OverflowMessage := "number too large to fit in target type"

  /** The message of the error `uN::from_str_radix(s, radix)` returns: empty input, a lone
      sign, or the first failure met scanning the digits from the left (a character that
      is not a digit, or a prefix whose value reaches `bound`). */
  function UnsignedParseError(s: string, radix: nat, bound: nat): (m: string)
    requires radix == 10 || radix == 16
    ensures m == EmptyIntMessage <==> |s| == 0
    ensures m == InvalidDigitMessage ==> ParseUnsigned(s, radix, bound).None?
  {
    if |s| == 0 then EmptyIntMessage
    else if s == "+" || s == "-" then InvalidDigitMessage
    else ScanError(if s[0] == '+' then s[1..] else s, radix, bound, 0)
  }

  /** The first failure in `digits` when `acc` is the value of the digits already read;
      the empty string when there is none. */
  function ScanError(digits: string, radix: nat, bound: nat, acc: nat): (m: string)
    requires radix == 10 || radix == 16
    ensures m == "" || m == InvalidDigitMessage || m == OverflowMessage
    ensures m == InvalidDigitMessage ==> !AllDigits(digits, radix)
    decreases |digits|
  {
    if |digits| == 0 then ""
    else match DigitValue(digits[0], radix)
      case None => InvalidDigitMessage
      case Some(d) =>
        if acc * radix + d >= bound then OverflowMessage
        else
          ScanError(digits[1..], radix, bound, acc * radix + d)
  }

  function DigitChar(d: nat): (c: char)
    requires d < 16
    ensures DigitValue(c, 16) == Some(d)
    ensures d < 10 ==> DigitValue(c, 10) == Some(d)
    ensures '0' <= c <= '9' || 'a' <= c <= 'f'
  {
    if d < 10 then ('0' as int + d) as char else ('a' as int + d - 10) as char
  }

  /** The shortest digit string for `x` in `radix` (lower-case for hex), as `{:x}`/`{}` print it. */
  function ToDigits(x: nat, radix: nat): (s: string)
    requires radix == 10 || radix == 16
    ensures |s| >= 1 && AllDigits(s, radix) && DigitsValue(s, radix) == x
    ensures s[0] != '+'
  {
    if x < radix then [DigitChar(x)]
    else
      var s := ToDigits(x / radix, radix) + [DigitChar(x % radix)];
      assert s[..|s| - 1] == ToDigits(x / radix, radix);
      s
  }

  /** Hex digits are printed in lower case. */
  lemma {:induction false} ToDigitsLowerCase(x: nat, radix: nat)
    requires radix == 10 || radix == 16
    ensures forall i :: 0 <= i < |ToDigits(x, radix)| ==>
      '0' <= ToDigits(x, radix)[i] <= '9' || 'a' <= ToDigits(x, radix)[i] <= 'f'
    decreases x
  {
    if x >= radix {
      ToDigitsLowerCase(x / radix, radix);
    }
  }

  function Zeros(n: nat): (z: string)
    ensures |z| == n && forall i :: 0 <= i < n ==> z[i] == '0'
  {
    seq(n, _ => '0')
  }

  /** `{:0w}`-style left padding with zeros to at least `width` characters. */
  function PadZeros(s: string, width: nat): (r: string)
    ensures |r| >= width && |r| >= |s|
  {
    if |s| >= width then s else Zeros(width - |s|) + s
  }

  /** Leading zeros do not change the value of a digit string. */
  lemma {:induction false} LeadingZeros(n: nat, s: string, radix: nat)
    requires radix == 10 || radix == 16
    requires AllDigits(s, radix)
    ensures AllDigits(Zeros(n) + s, radix)
    ensures DigitsValue(Zeros(n) + s, radix) == DigitsValue(s, radix)
    decreases |s|
  {
    var t := Zeros(n) + s;
    assert forall i :: 0 <= i < |t| ==> t[i] == '0' || t[i] == s[i - n];
    if |s| == 0 {
      assert t == Zeros(n);
      ZerosValue(n, radix);
    } else {
      assert t[..|t| - 1] == Zeros(n) + s[..|s| - 1];
      LeadingZeros(n, s[..|s| - 1], radix);
    }
  }

  lemma {:induction false} ZerosValue(n: nat, radix: nat)
    requires radix == 10 || radix == 16
    ensures AllDigits(Zeros(n), radix) && DigitsValue(Zeros(n), radix) == 0
  {
    if n > 0 {
      assert Zeros(n)[..n - 1] == Zeros(n - 1);
      ZerosValue(n - 1, radix);
    }
  }

  /** Printing a number (zero-padded or not) and parsing it back gives the number. */
  lemma ParseFormatted(x: nat, width: nat, radix: nat, bound: nat)
    requires radix == 10 || radix == 16
    requires x < bound
    ensures ParseUnsigned(PadZeros(ToDigits(x, radix), width), radix, bound) == Some(x)
  {
    var s := ToDigits(x, radix);
    if |s| < width {
      LeadingZeros(width - |s|, s, radix);
      assert PadZeros(s, width)[0] == '0';
    }
  }

  /** `parse::<uN>()` of the decimal text of a number in range gives the number back. */
  lemma ParseDecimal(x: nat, bound: nat)
    requires x < bound
    ensures ParseUnsigned(ToDigits(x, 10), 10, bound) == Some(x)
  {
    ParseFormatted(x, 0, 10, bound);
  }

  /** A character missing from the text, appended and then removed, leaves the text. */
  lemma {:induction false} RemoveCharAtEnd(s: string, c: char)
    requires c !in s
    ensures RemoveChar(s + [c], c) == s
    decreases |s|
  {
    if |s| == 0 {
      assert [c][1..] == [];
    } else {
      assert (s + [c])[1..] == s[1..] + [c];
      RemoveCharAtEnd(s[1..], c);
      assert [s[0]] + s[1..] == s;
    }
  }

  /** A sysfs file holding the decimal text of a number and a line break reads back as the
      number, whether the line break is removed or trimmed. */
  lemma ParseDecimalLine(x: nat, bound: nat)
    requires x < bound
    ensures ParseUnsigned(RemoveChar(ToDigits(x, 10) + "\n", '\n'), 10, bound) == Some(x)
    ensures ParseUnsigned(Trim(ToDigits(x, 10) + "\n"), 10, bound) == Some(x)
  {
    var d := ToDigits(x, 10);
    assert forall i :: 0 <= i < |d| ==> IsDecDigit(d[i]) by {
      forall i | 0 <= i < |d| ensures IsDecDigit(d[i]) {
        assert DigitValue(d[i], 10).Some?;
      }
    }
    assert '\n' !in d;
    RemoveCharAtEnd(d, '\n');
    TrimLine(d);
    ParseDecimal(x, bound);
  }

  /** Trimming a nonempty word of digits followed by a line break leaves the word. */
  lemma TrimLine(d: string)
    requires |d| > 0 && forall i :: 0 <= i < |d| ==> IsDecDigit(d[i])
    ensures Trim(d + "\n") == d
  {
    var t := d + "\n";
    assert !IsSpace(t[0]);
    assert TrimStart(t) == t;
    assert t[..|t| - 1] == d;
    assert TrimEnd(t) == TrimEnd(d);
    assert !IsSpace(d[|d| - 1]);
    assert TrimEnd(d) == d;
  }

  // ---------------------------------------------------------------- signed integers

  /** `s.parse::<iN>()`: an optional sign, then at least one decimal digit, in `min..=max`. */
  function ParseSigned(s: string, min: int, max: int): (r: Option<int>)
    ensures r.Some? ==> min <= r.value <= max
  {
    if |s| > 0 && s[0] == '-' then
      if |s| > 1 && AllDigits(s[1..], 10) && min <= 0 - DigitsValue(s[1..], 10) <= max
      then Some(0 - DigitsValue(s[1..], 10)) else None
    else
      match ParseUnsigned(s, 10, if max < 0 then 0 else max + 1)
      case Some(v) => if min <= v then Some(v) else None
      case None => None
  }

  const I32Min: int := -0x8000_0000
  const I32Max: int := 0x7fff_ffff

  function ParseI32(s: string): Option<int>
  {
    ParseSigned(s, I32Min, I32Max)
  }

  /** `to_string` of a signed integer: a '-' for negative numbers, then the decimal digits. */
  function IntToString(x: int): (s: string)
    ensures |s| >= 1 && (s[0] == '-' <==> x < 0)
  {
    if x < 0 then "-" + ToDigits(0 - x, 10) else ToDigits(x, 10)
  }

  /** Parsing the text of a number in range gives the number back. */
  lemma ParseIntToString(x: int, min: int, max: int)
    requires min <= x <= max
    ensures ParseSigned(IntToString(x), min, max) == Some(x)
  {
    if x < 0 {
      var d := ToDigits(0 - x, 10);
      assert IntToString(x)[1..] == d;
    } else {
      ParseDecimal(x, max + 1);
    }
  }

  /** The text of a number has no surrounding whitespace, so trimming keeps it. */
  lemma TrimIntToString(x: int)
    ensures Trim(IntToString(x)) == IntToString(x)
  {
    var s := IntToString(x);
    var d := ToDigits(if x < 0 then 0 - x else x, 10);
    assert DigitValue(d[|d| - 1], 10).Some?;
    assert s[|s| - 1] == d[|d| - 1];
    if x >= 0 {
      assert DigitValue(d[0], 10).Some?;
    }
    TrimFixed(s);
  }

  /** An `i32` written out and read back, surrounding whitespace trimmed, is itself. */
  lemma ParseI32IntToString(x: int)
    requires I32Min <= x <= I32Max
    ensures ParseI32(Trim(IntToString(x))) == Some(x)
  {
    TrimIntToString(x);
    ParseIntToString(x, I32Min, I32Max);
  }
}

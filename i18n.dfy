/** The formatting helpers around the translation lookup (src/i18n.rs): `freplace` fills the
    "{}" placeholders of a translated format in order, `kreplace` substitutes "{key}"
    placeholders by name. The translation lookup itself is a parameter. */
module I18n {
  import opened Text

  const Placeholder: string := "{}"

  /** The pieces joined with `sep` between each two. */
  function JoinStr(parts: seq<string>, sep: string): string
    requires |parts| >= 1
    decreases |parts|
  {
    if |parts| == 1 then parts[0] else parts[0] + sep + JoinStr(parts[1..], sep)
  }

  /** Splitting on a pattern and joining with it again gives back the text. */
  lemma {:induction false} JoinSplitStr(s: string, pat: string)
    requires |pat| > 0
    ensures JoinStr(SplitStr(s, pat), pat) == s
    decreases |s|
  {
    if |s| >= |pat| {
      if s[..|pat|] == pat {
        JoinSplitStr(s[|pat|..], pat);
        assert [""] + SplitStr(s[|pat|..], pat) == SplitStr(s, pat);
        assert s == "" + pat + s[|pat|..];
      } else {
        var rest := SplitStr(s[1..], pat);
        JoinSplitStr(s[1..], pat);
        JoinPrependChar(s[0], rest, pat);
        assert [s[0]] + s[1..] == s;
      }
    }
  }

  /** A character put in front of the first piece is put in front of the joined text. */
  lemma JoinPrependChar(c: char, rest: seq<string>, pat: string)
    requires |rest| >= 1
    ensures JoinStr([[c] + rest[0]] + rest[1..], pat) == [c] + JoinStr(rest, pat)
  {
    var parts := [[c] + rest[0]] + rest[1..];
    if |rest| > 1 {
      assert parts[1..] == rest[1..];
    }
  }

  /** Joining pieces that do not hold the pattern's first character, then splitting on the
      pattern, gives back the pieces. */
  lemma {:induction false} SplitJoinStr(parts: seq<string>, pat: string)
    requires |parts| >= 1 && |pat| > 0
    requires forall i :: 0 <= i < |parts| ==> pat[0] !in parts[i]
    ensures SplitStr(JoinStr(parts, pat), pat) == parts
    decreases |parts|
  {
    if |parts| == 1 {
      NotContainsWithoutChar(parts[0], pat, 0);
      SplitStrNoMatch(parts[0], pat);
    } else {
      SplitJoinStr(parts[1..], pat);
      SplitStrAfterPiece(parts[0], pat, JoinStr(parts[1..], pat));
      assert [parts[0]] + parts[1..] == parts;
    }
  }

  // ---------------------------------------------------------------- freplace

  /** The zipped loop's output: each argument followed by the piece after it, until either
      runs out. */
  function Fill(pieces: seq<string>, args: seq<string>): string
    decreases |pieces|
  {
    if |pieces| == 0 || |args| == 0 then "" else args[0] + pieces[0] + Fill(pieces[1..], args[1..])
  }

  /** What `freplace` gives: the first piece, then the zipped arguments and pieces. */
  function Freplaced(input: string, args: seq<string>): string
  {
    var parts := SplitStr(input, Placeholder);
    parts[0] + Fill(parts[1..], args)
  }

  /** `freplace`: the loop appending each argument and the piece after it. */
  method Freplace(input: string, args: seq<string>) returns (output: string)
    ensures output == Freplaced(input, args)
  {
    var parts := SplitStr(input, Placeholder);
    output := parts[0];
    var pieces := parts[1..];
    var i := 0;
    while i < |pieces| && i < |args|
      invariant 0 <= i <= |pieces| && i <= |args|
      invariant output + Fill(pieces[i..], args[i..]) == Freplaced(input, args)
    {
      assert pieces[i..][1..] == pieces[i + 1..] && args[i..][1..] == args[i + 1..];
      output := output + (args[i] + pieces[i]);
      i := i + 1;
    }
  }

  /** Text without a placeholder comes back unchanged. */
  lemma FreplaceNoPlaceholder(input: string, args: seq<string>)
    requires !Contains(input, Placeholder)
    ensures Freplaced(input, args) == input
  {
    SplitStrNoMatch(input, Placeholder);
  }

  /** Filling every placeholder with "{}" again gives back the format, when there are
      arguments enough. */
  lemma {:induction false} FillWithPlaceholders(pieces: seq<string>, args: seq<string>, first: string)
    requires |args| >= |pieces|
    requires forall i :: 0 <= i < |args| ==> args[i] == Placeholder
    ensures first + Fill(pieces, args) == JoinStr([first] + pieces, Placeholder)
    decreases |pieces|
  {
    if |pieces| > 0 {
      FillWithPlaceholders(pieces[1..], args[1..], pieces[0]);
      assert ([first] + pieces)[1..] == [pieces[0]] + pieces[1..] == pieces;
    }
  }

  /** `freplace` and "{}" are inverse: filling each placeholder with "{}" is the identity. */
  lemma FreplaceRoundTrip(input: string, args: seq<string>)
    requires |args| >= |SplitStr(input, Placeholder)| - 1
    requires forall i :: 0 <= i < |args| ==> args[i] == Placeholder
    ensures Freplaced(input, args) == input
  {
    var parts := SplitStr(input, Placeholder);
    FillWithPlaceholders(parts[1..], args, parts[0]);
    assert [parts[0]] + parts[1..] == parts;
    JoinSplitStr(input, Placeholder);
  }

  /** The placeholders of a format made of placeholder-free pieces are filled in order: the
      i-th placeholder becomes the i-th argument. */
  lemma FreplaceFillsInOrder(pieces: seq<string>, args: seq<string>)
    requires |pieces| >= 1
    requires forall i :: 0 <= i < |pieces| ==> '{' !in pieces[i]
    ensures Freplaced(JoinStr(pieces, Placeholder), args) == pieces[0] + Fill(pieces[1..], args)
  {
    SplitJoinStr(pieces, Placeholder);
  }

  /** A format with one placeholder is the text around it with the argument in its place. */
  lemma FreplaceSingle(prefix: string, arg: string, suffix: string)
    requires '{' !in prefix && '{' !in suffix
    ensures Freplaced(prefix + Placeholder + suffix, [arg]) == prefix + arg + suffix
  {
    var pieces := [prefix, suffix];
    assert JoinStr(pieces, Placeholder) == prefix + Placeholder + suffix by {
      assert JoinStr(pieces[1..], Placeholder) == suffix;
    }
    FreplaceFillsInOrder(pieces, [arg]);
    assert pieces[1..] == [suffix];
    assert Fill([suffix], [arg]) == arg + suffix;
  }

  /** Arguments past the last placeholder are ignored. */
  lemma {:induction false} FillIgnoresExtra(pieces: seq<string>, args: seq<string>)
    requires |args| >= |pieces|
    ensures Fill(pieces, args) == Fill(pieces, args[..|pieces|])
    decreases |pieces|
  {
    if |pieces| > 0 {
      FillIgnoresExtra(pieces[1..], args[1..]);
      assert args[..|pieces|][1..] == args[1..][..|pieces| - 1];
    }
  }

  /** With too few arguments the output stops after the piece following the last argument:
      the remaining placeholders and their text are dropped. */
  lemma {:induction false} FillStopsEarly(pieces: seq<string>, args: seq<string>)
    requires |args| < |pieces|
    ensures Fill(pieces, args) == Fill(pieces[..|args|], args)
    decreases |args|
  {
    if |args| > 0 {
      FillStopsEarly(pieces[1..], args[1..]);
      assert pieces[..|args|][1..] == pieces[1..][..|args| - 1];
    }
  }

  /** `i18n_f`: the translated format with its placeholders filled. */
  function I18nF(translate: string -> string, format: string, args: seq<string>): (r: string)
    ensures !Contains(translate(format), Placeholder) ==> r == translate(format)
  {
    if !Contains(translate(format), Placeholder) then FreplaceNoPlaceholder(translate(format), args); Freplaced(translate(format), args)
    else Freplaced(translate(format), args)
  }

  /** `ni18n_f`: the singular or plural translation, chosen by the count, filled in. */
  function Ni18nF(ntranslate: (string, string, nat) -> string, single: string, multiple: string,
                  number: nat, args: seq<string>): (r: string)
    ensures !Contains(ntranslate(single, multiple, number), Placeholder) ==> r == ntranslate(single, multiple, number)
  {
    var s := ntranslate(single, multiple, number);
    if !Contains(s, Placeholder) then FreplaceNoPlaceholder(s, args); Freplaced(s, args)
    else Freplaced(s, args)
  }

  // ---------------------------------------------------------------- kreplace

  /** `replace_all` of a literal pattern: leftmost non-overlapping matches replaced. */
  function ReplaceAll(s: string, pat: string, with: string): string
    requires |pat| > 0
  {
    JoinStr(SplitStr(s, pat), with)
  }

  /** The characters the regex syntax gives a meaning of their own; a key free of them
      compiles, escaped braces around it, to a pattern matching exactly "{key}". */
  const RegexMeta: set<char> := {'\\', '.', '+', '*', '?', '(', ')', '|', '[', ']', '{', '}', '^', '$', '#', '&', '-', '~'}

  predicate LiteralKey(key: string)
  {
    forall i :: 0 <= i < |key| ==> key[i] !in RegexMeta
  }

  predicate LiteralKeys(kwargs: seq<(string, string)>)
  {
    forall j :: 0 <= j < |kwargs| ==> LiteralKey(kwargs[j].0)
  }

  /** The text the regex `\{key\}` matches, for a key without metacharacters. */
  function KeyPattern(key: string): (r: string)
    requires LiteralKey(key)
    ensures |r| == |key| + 2 && r[0] == '{' && r[|r| - 1] == '}' && r[1..|r| - 1] == key
  {
    "{" + key + "}"
  }

  /** What `kreplace` gives: each pair's pattern replaced, pair by pair in order. */
  function Kreplaced(input: string, kwargs: seq<(string, string)>): string
    requires LiteralKeys(kwargs)
    decreases |kwargs|
  {
    if |kwargs| == 0 then input
    else ReplaceAll(Kreplaced(input, kwargs[..|kwargs| - 1]), KeyPattern(kwargs[|kwargs| - 1].0), kwargs[|kwargs| - 1].1)
  }

  /** `kreplace`: the loop over the pairs. */
  method Kreplace(input: string, kwargs: seq<(string, string)>) returns (s: string)
    requires LiteralKeys(kwargs)
    ensures s == Kreplaced(input, kwargs)
  {
    s := input;
    for i := 0 to |kwargs|
      invariant s == Kreplaced(input, kwargs[..i])
    {
      assert kwargs[..i + 1][..i] == kwargs[..i];
      var (k, v) := kwargs[i];
      s := ReplaceAll(s, KeyPattern(k), v);
    }
    assert kwargs[..|kwargs|] == kwargs;
  }

  /** Every "{key}" is replaced by the value: text made of brace-free pieces around the
      placeholders becomes the pieces around the values. */
  lemma ReplaceEveryKey(pieces: seq<string>, key: string, value: string)
    requires |pieces| >= 1 && LiteralKey(key)
    requires forall i :: 0 <= i < |pieces| ==> '{' !in pieces[i]
    ensures ReplaceAll(JoinStr(pieces, KeyPattern(key)), KeyPattern(key), value) == JoinStr(pieces, value)
  {
    SplitJoinStr(pieces, KeyPattern(key));
  }

  /** Replacing a key's placeholder by itself changes nothing. */
  lemma ReplaceBySelf(s: string, key: string)
    requires LiteralKey(key)
    ensures ReplaceAll(s, KeyPattern(key), KeyPattern(key)) == s
  {
    JoinSplitStr(s, KeyPattern(key));
  }
}

/** Message naming: number formats (`formatNumber`, `validateNumberFormat`),
    the check of a naming pattern (`validateNamingPattern`), and the rendering
    of a pattern for one batch combination
    (`processNamingPatternForCombination`). Placeholders are `{num}`,
    `{num:fmt}`, `{ABBR}` and `{ABBR:fmt}`, where ABBR is a field's
    abbreviation and fmt is `[prefix:]<L>d<T>[:suffix]`. */
module Naming {
  import opened JsBits
  import opened Model
  import opened JsText
  import opened BitComposer

  // ---------------------------------------------------------------------------
  // Number formats
  // ---------------------------------------------------------------------------

  /** The number of leading decimal digits of s. */
  function DigitPrefixLength(s: string): (n: nat)
    ensures n <= |s| && (forall i :: 0 <= i < n ==> IsDigit(s[i])) && (n < |s| ==> !IsDigit(s[n]))
  {
    if s == [] || !IsDigit(s[0]) then 0 else 1 + DigitPrefixLength(s[1..])
  }

  /** `/^\d*[do]?$/`, the test `formatNumber` applies to the second of two
      colon-separated parts. */
  predicate IsShortFormat(s: string)
  {
    var i := DigitPrefixLength(s);
    i == |s| || (i == |s| - 1 && (s[i] == 'd' || s[i] == 'o'))
  }

  /** `/^(\d*)(d)(\d*)$/`: the leading-zero width L and the trailing-zero count
      T of a number format `<L>d<T>` (an empty digit string counts as 0). */
  function ParseNumberFormat(s: string): Option<(nat, nat)>
  {
    var i := DigitPrefixLength(s);
    if i < |s| && s[i] == 'd' && AllDigits(s[i + 1..]) then Some((ParseDigits(s[..i]), ParseDigits(s[i + 1..])))
    else None
  }

  /** `/^\d*d\d*$/`, the rule of `validateNumberFormat`. */
  predicate IsNumberFormat(s: string)
  {
    ParseNumberFormat(s).Some?
  }

  /** A number format is exactly digits, one `d`, digits, and its widths are
      the values of the two digit strings. */
  lemma NumberFormatOf(a: string, b: string)
    requires AllDigits(a) && AllDigits(b)
    ensures ParseNumberFormat(a + ['d'] + b) == Some((ParseDigits(a), ParseDigits(b)))
  {
    var s := a + ['d'] + b;
    assert s == a + (['d'] + b);
    DigitPrefixOf(a, ['d'] + b);
    assert s[|a|] == 'd';
    assert s[..|a|] == a;
    assert s[|a| + 1..] == b;
  }

  lemma {:induction false} DigitPrefixOf(a: string, b: string)
    requires AllDigits(a) && (b == [] || !IsDigit(b[0]))
    ensures DigitPrefixLength(a + b) == |a|
  {
    if a != [] {
      assert (a + b)[1..] == a[1..] + b;
      DigitPrefixOf(a[1..], b);
    } else {
      assert a + b == b;
    }
  }

  /** The parts `formatNumber` picks from a format: prefix, number format and
      suffix. */
  datatype FormatParts = FormatParts(prefix: string, numberFormat: string, suffix: string)

  function SplitFormat(format: string): FormatParts
  {
    var parts := Split(format, ':');
    if |parts| == 3 then FormatParts(parts[0], parts[1], parts[2])
    else if |parts| == 2 then
      (if IsShortFormat(parts[1]) then FormatParts(parts[0], parts[1], "") else FormatParts("", parts[0], parts[1]))
    else FormatParts("", format, "")
  }

  /** The picked parts put back together with their colons give the format:
      `prefix:fmt:suffix` for three parts; for two parts the second is the
      number format exactly when it matches `^\d*[do]?$`, otherwise the first
      is and the second is the suffix; any other count uses the whole format. */
  lemma SplitFormatSpec(format: string)
    ensures var p := SplitFormat(format);
            var n := |Split(format, ':')|;
            && (n == 3 ==> p.prefix + [':'] + p.numberFormat + [':'] + p.suffix == format)
            && (n == 2 && IsShortFormat(Split(format, ':')[1]) ==> p.suffix == "" && p.prefix + [':'] + p.numberFormat == format)
            && (n == 2 && !IsShortFormat(Split(format, ':')[1]) ==> p.prefix == "" && p.numberFormat + [':'] + p.suffix == format)
            && (n != 2 && n != 3 ==> p == FormatParts("", format, ""))
            && Free(p.prefix, ':') && Free(p.suffix, ':')
  {
    var parts := Split(format, ':');
    SplitJoin(format, ':');
    if |parts| == 3 {
      assert Join(parts, ':') == parts[0] + [':'] + (parts[1] + [':'] + parts[2]);
    } else if |parts| == 2 {
      assert Join(parts, ':') == parts[0] + [':'] + parts[1];
    }
  }

  /** The digits of a number rendered with format `<L>d<T>`. */
  function FormattedNumber(value: nat, leadingZeros: nat, trailingZeros: nat): string
  {
    PadStart(Dec(value), leadingZeros) + Zeros(trailingZeros)
  }

  /** `<L>d<T>` renders the decimal value left-padded with '0' to at least L
      characters, followed by T zeros: the result is all digits, as long as
      that, and reads as value * 10^T. */
  lemma FormattedNumberSpec(value: nat, leadingZeros: nat, trailingZeros: nat)
    ensures var r := FormattedNumber(value, leadingZeros, trailingZeros);
            var d := |Dec(value)|;
            && |r| == (if leadingZeros > d then leadingZeros else d) + trailingZeros
            && AllDigits(r)
            && ParseDigits(r) == value * Pow10(trailingZeros)
            && (forall i :: 0 <= i < leadingZeros - d ==> r[i] == '0')
            && (forall i :: |r| - trailingZeros <= i < |r| ==> r[i] == '0')
  {
    var padded := PadStart(Dec(value), leadingZeros);
    PaddedSpec(value, leadingZeros);
    ZerosAfter(padded, trailingZeros);
  }

  lemma PaddedSpec(value: nat, width: nat)
    ensures var padded := PadStart(Dec(value), width);
            var d := |Dec(value)|;
            && |padded| == (if width > d then width else d)
            && AllDigits(padded)
            && ParseDigits(padded) == value
            && (forall i :: 0 <= i < width - d ==> padded[i] == '0')
  {
    var dec := Dec(value);
    DecRoundTrip(value);
    if |dec| < width {
      ZerosBefore(width - |dec|, dec);
    }
  }

  /** Leading zeros do not change the value read. */
  lemma ZerosBefore(n: nat, s: string)
    requires AllDigits(s)
    ensures AllDigits(Zeros(n) + s) && ParseDigits(Zeros(n) + s) == ParseDigits(s)
  {
    ParseZeros(n);
    ParseDigitsAppend(Zeros(n), s);
  }

  /** Trailing zeros multiply the value read by a power of ten. */
  lemma ZerosAfter(s: string, n: nat)
    requires AllDigits(s)
    ensures var r := s + Zeros(n);
            && AllDigits(r) && |r| == |s| + n
            && ParseDigits(r) == ParseDigits(s) * Pow10(n)
            && (forall i :: 0 <= i < |s| ==> r[i] == s[i])
            && (forall i :: |s| <= i < |r| ==> r[i] == '0')
  {
    ParseZeros(n);
    ParseDigitsAppend(s, Zeros(n));
  }

  /** `formatNumber(value, format)` for a non-negative value. */
  function FormatNumber(value: nat, format: string): string
  {
    var p := SplitFormat(format);
    match ParseNumberFormat(p.numberFormat)
    case None => p.prefix + Dec(value) + p.suffix
    case Some((leadingZeros, trailingZeros)) => p.prefix + FormattedNumber(value, leadingZeros, trailingZeros) + p.suffix
  }

  /** The part `validateNumberFormat` checks. */
  function ValidatedPart(format: string): string
  {
    var parts := Split(format, ':');
    if |parts| == 1 then parts[0]
    else if |parts| == 2 then (if IsNumberFormat(parts[1]) then parts[1] else parts[0])
    else if |parts| == 3 then parts[1]
    else format
  }

  /** `validateNumberFormat`: None when valid, otherwise the offending part its
      message names. */
  function ValidateNumberFormat(format: string): (r: Option<string>)
    ensures r.None? <==> IsNumberFormat(ValidatedPart(format))
    ensures r.Some? ==> r.value == ValidatedPart(format)
  {
    var part := ValidatedPart(format);
    if IsNumberFormat(part) then None else Some(part)
  }

  /** Validation and formatting look at the same part of the format unless
      it has two parts whose second one matches only one of the two rules;
      so a validated format is then rendered with a valid number format. */
  lemma SamePartChecked(format: string)
    requires var parts := Split(format, ':');
             |parts| != 2 || (IsNumberFormat(parts[1]) <==> IsShortFormat(parts[1]))
    ensures SplitFormat(format).numberFormat == ValidatedPart(format)
    ensures ValidateNumberFormat(format).None? ==> ParseNumberFormat(SplitFormat(format).numberFormat).Some?
  {
    var parts := Split(format, ':');
    if |parts| == 1 {
      SplitJoin(format, ':');
    }
  }

  /** An instance of the disagreement: "x:3d2" passes validation ("3d2" is a
      number format), but formatting keeps "x" as number format and "3d2" as
      suffix, so 7 renders as "73d2". */
  lemma FormatRulesDisagree()
    ensures ValidateNumberFormat("x:3d2").None?
    ensures FormatNumber(7, "x:3d2") == "73d2"
  {
    ValidatedExample();
    FormattedExample();
  }

  lemma ValidatedExample()
    ensures ValidateNumberFormat("x:3d2").None?
  {
    ColonSplitExample();
    NumberFormatExample();
  }

  lemma FormattedExample()
    ensures FormatNumber(7, "x:3d2") == "73d2"
  {
    ColonSplitExample();
    NumberFormatExample();
    var p := SplitFormat("x:3d2");
    assert p == FormatParts("", "x", "3d2");
    assert Dec(7) == "7";
    assert p.prefix + Dec(7) + p.suffix == "73d2";
  }

  lemma ColonSplitExample()
    ensures Split("x:3d2", ':') == ["x", "3d2"]
  {
    JoinSplit(["x", "3d2"], ':');
    assert Join(["x", "3d2"], ':') == "x:3d2";
  }

  lemma NumberFormatExample()
    ensures IsNumberFormat("3d2") && !IsShortFormat("3d2") && ParseNumberFormat("x").None?
  {
    NumberFormatOf("3", "2");
    assert "3" + ['d'] + "2" == "3d2";
    assert DigitPrefixLength("3d2") == 1;
    assert DigitPrefixLength("x") == 0;
  }

  // ---------------------------------------------------------------------------
  // Placeholders
  // ---------------------------------------------------------------------------

  /** The index of the first '}' of s. */
  function FirstClose(s: string): (r: Option<nat>)
    ensures r.Some? ==> r.value < |s| && s[r.value] == '}' && forall i :: 0 <= i < r.value ==> s[i] != '}'
    ensures r.None? ==> Free(s, '}')
  {
    if s == [] then None
    else if s[0] == '}' then Some(0)
    else
      match FirstClose(s[1..])
      case None => None
      case Some(n) => Some(n + 1)
  }

  lemma FirstCloseOf(c: string, rest: string)
    requires Free(c, '}')
    ensures FirstClose(c + "}" + rest) == Some(|c|)
  {
    var s := c + "}" + rest;
    assert s[|c|] == '}' && s[..|c|] == c;
  }

  /** The contents of the placeholders of s, left to right, as the global
      search with `/\{([^}]+)\}/g` finds them. */
  function Placeholders(s: string): seq<string>
    decreases |s|
  {
    if s == [] then []
    else if s[0] == '{' then
      match FirstClose(s[1..])
      case Some(n) =>
        if n >= 1 then [s[1..n + 1]] + Placeholders(s[n + 2..]) else Placeholders(s[1..])
      case None => Placeholders(s[1..])
    else Placeholders(s[1..])
  }

  /** Text without '{' holds no placeholder. */
  lemma {:induction false} PlaceholdersOfText(s: string)
    requires Free(s, '{')
    ensures Placeholders(s) == []
  {
    if s != [] {
      PlaceholdersOfText(s[1..]);
    }
  }

  /** A placeholder `{c}` is found with its content c, and the search goes on
      after its closing brace. */
  lemma PlaceholdersOfToken(c: string, rest: string)
    requires |c| >= 1 && Free(c, '}')
    ensures Placeholders("{" + c + "}" + rest) == [c] + Placeholders(rest)
  {
    var s := "{" + c + "}" + rest;
    assert s[1..] == c + "}" + rest;
    FirstCloseOf(c, rest);
    assert s[1..|c| + 1] == c && s[|c| + 2..] == rest;
  }

  /** Errors and warnings of `validateNamingPattern`, as kinds rather than
      message texts. */
  datatype NamingError = EmptyPattern | BadFormat(placeholder: string, part: string) | UnknownPlaceholder(name: string)
  datatype NamingWarning = SurroundingWhitespace | NoPlaceholders

  datatype NamingValidation = NamingValidation(
    isValid: bool,
    errors: seq<NamingError>,
    warnings: seq<NamingWarning>,
    usedPlaceholders: seq<string>)

  /** The placeholder name: the content up to its first colon. */
  function MainName(content: string): string
  {
    Split(content, ':')[0]
  }

  /** The format after the first colon (`parts.slice(1).join(':')`). */
  function FormatPart(content: string): string
    requires |Split(content, ':')| > 1
  {
    Join(Split(content, ':')[1..], ':')
  }

  /** A content with a colon is its name, a colon and its format. */
  lemma ContentParts(content: string)
    requires |Split(content, ':')| > 1
    ensures content == MainName(content) + [':'] + FormatPart(content)
    ensures Free(MainName(content), ':')
  {
    var parts := Split(content, ':');
    SplitJoin(content, ':');
  }

  function FormatErrors(contents: seq<string>): seq<NamingError>
  {
    if contents == [] then []
    else
      var c := contents[0];
      var here :=
        if |Split(c, ':')| > 1 && ValidateNumberFormat(FormatPart(c)).Some?
        then [BadFormat(c, ValidateNumberFormat(FormatPart(c)).value)] else [];
      here + FormatErrors(contents[1..])
  }

  /** 'num' and every non-empty field abbreviation. */
  function ValidNames(fields: seq<Field>): seq<string>
  {
    ["num"] + AbbreviationsOf(fields)
  }

  function AbbreviationsOf(fields: seq<Field>): seq<string>
  {
    if fields == [] then []
    else (if fields[0].abbreviation != "" then [fields[0].abbreviation] else []) + AbbreviationsOf(fields[1..])
  }

  function MainNames(contents: seq<string>): (r: seq<string>)
    ensures |r| == |contents|
  {
    seq(|contents|, k requires 0 <= k < |contents| => MainName(contents[k]))
  }

  function UnknownErrors(names: seq<string>, valid: seq<string>): seq<NamingError>
  {
    if names == [] then []
    else (if names[0] in valid then [] else [UnknownPlaceholder(names[0])]) + UnknownErrors(names[1..], valid)
  }

  function KnownNames(names: seq<string>, valid: seq<string>): seq<string>
  {
    if names == [] then []
    else (if names[0] in valid then [names[0]] else []) + KnownNames(names[1..], valid)
  }

  /** `validateNamingPattern(pattern)`. */
  function ValidateNamingPattern(pattern: string, fields: seq<Field>): NamingValidation
  {
    if pattern == "" then NamingValidation(false, [EmptyPattern], [], [])
    else
      var contents := Placeholders(pattern);
      var names := MainNames(contents);
      var valid := ValidNames(fields);
      var errors := FormatErrors(contents) + UnknownErrors(names, valid);
      var warnings :=
        (if Trim(pattern) != pattern then [SurroundingWhitespace] else [])
        + (if contents == [] then [NoPlaceholders] else []);
      NamingValidation(errors == [], errors, warnings, KnownNames(names, valid))
  }

  ghost predicate AllKnown(names: seq<string>, valid: seq<string>)
  {
    forall k :: 0 <= k < |names| ==> names[k] in valid
  }

  ghost predicate AllFormatsValid(contents: seq<string>)
  {
    forall k :: 0 <= k < |contents| && |Split(contents[k], ':')| > 1 ==> IsNumberFormat(ValidatedPart(FormatPart(contents[k])))
  }

  lemma {:induction false} FormatErrorsEmpty(contents: seq<string>)
    ensures FormatErrors(contents) == [] <==> AllFormatsValid(contents)
  {
    if contents != [] {
      FormatErrorsEmpty(contents[1..]);
      assert AllFormatsValid(contents) <==>
        (|Split(contents[0], ':')| > 1 ==> IsNumberFormat(ValidatedPart(FormatPart(contents[0]))))
        && AllFormatsValid(contents[1..]) by {
        if AllFormatsValid(contents[1..]) && (|Split(contents[0], ':')| > 1 ==> IsNumberFormat(ValidatedPart(FormatPart(contents[0])))) {
          forall k | 0 <= k < |contents| && |Split(contents[k], ':')| > 1
            ensures IsNumberFormat(ValidatedPart(FormatPart(contents[k])))
          {
            if k > 0 {
              assert contents[k] == contents[1..][k - 1];
            }
          }
        }
      }
    }
  }

  /** Every name is either used or reported once as unknown. */
  lemma {:induction false} NamesPartition(names: seq<string>, valid: seq<string>)
    ensures |UnknownErrors(names, valid)| + |KnownNames(names, valid)| == |names|
    ensures UnknownErrors(names, valid) == [] <==> AllKnown(names, valid)
    ensures forall k :: 0 <= k < |KnownNames(names, valid)| ==> KnownNames(names, valid)[k] in valid
  {
    if names != [] {
      NamesPartition(names[1..], valid);
      if AllKnown(names[1..], valid) && names[0] in valid {
        forall k | 0 <= k < |names|
          ensures names[k] in valid
        {
          if k > 0 {
            assert names[k] == names[1..][k - 1];
          }
        }
      }
    }
  }

  /** The result of `validateNamingPattern`: an empty pattern is invalid with
      a single error; otherwise every placeholder is either used or reported
      as unknown, the pattern is valid exactly when every placeholder name is
      'num' or a field abbreviation and every format passes, and `isValid` is
      false exactly when there are errors. A pattern without placeholders only
      earns a warning. */
  lemma ValidateNamingPatternSpec(pattern: string, fields: seq<Field>)
    ensures var r := ValidateNamingPattern(pattern, fields);
            && (r.isValid <==> r.errors == [])
            && (pattern == "" ==> r == NamingValidation(false, [EmptyPattern], [], []))
    ensures pattern != "" ==>
              var r := ValidateNamingPattern(pattern, fields);
              var contents := Placeholders(pattern);
              && (r.isValid <==> AllKnown(MainNames(contents), ValidNames(fields)) && AllFormatsValid(contents))
              && |r.usedPlaceholders| + |UnknownErrors(MainNames(contents), ValidNames(fields))| == |contents|
              && (NoPlaceholders in r.warnings <==> contents == [])
              && (SurroundingWhitespace in r.warnings <==> Trim(pattern) != pattern)
              && (contents == [] ==> r.isValid)
  {
    if pattern != "" {
      var contents := Placeholders(pattern);
      FormatErrorsEmpty(contents);
      NamesPartition(MainNames(contents), ValidNames(fields));
    }
  }

  // ---------------------------------------------------------------------------
  // Rendering a pattern
  // ---------------------------------------------------------------------------

  /** One global replacement: `/\{num(?::([^}]+))?\}/g` with the message index,
      `\{ABBR:([^}]+)\}` or the literal `{ABBR}` with a field value. */
  datatype Token = NumToken(index: nat) | ExtToken(abbr: string, value: nat) | SimpleToken(abbr: string, value: nat)

  /** The text a token's match must start with. */
  function Head(t: Token): string
  {
    match t
    case NumToken(_) => "{num"
    case ExtToken(a, _) => "{" + a + ":"
    case SimpleToken(a, _) => "{" + a + "}"
  }

  /** A match of the token at the start of s: its length and its replacement. */
  function MatchAt(t: Token, s: string): (r: Option<(nat, string)>)
    ensures r.Some? ==> 1 <= r.value.0 <= |s|
  {
    var h := Head(t);
    if |s| < |h| || s[..|h|] != h then None
    else
      match t
      case SimpleToken(_, v) => Some((|h|, Dec(v)))
      case ExtToken(_, v) => FormattedMatch(s, |h|, v)
      case NumToken(i) =>
        if |s| > 4 && s[4] == '}' then Some((5, Dec(i)))
        else if |s| > 4 && s[4] == ':' then FormattedMatch(s, 5, i)
        else None
  }

  /** `([^}]+)\}` from position k: a non-empty format up to the first '}'. */
  function FormattedMatch(s: string, k: nat, value: nat): (r: Option<(nat, string)>)
    requires 1 <= k <= |s|
    ensures r.Some? ==> 1 <= r.value.0 <= |s|
  {
    match FirstClose(s[k..])
    case Some(n) => if n >= 1 then Some((k + n + 1, FormatNumber(value, s[k..k + n]))) else None
    case None => None
  }

  /** `s.replace(regex, ...)` with a global regex: non-overlapping matches
      left to right, replaced text not searched again. */
  function ReplaceAll(t: Token, s: string): string
    decreases |s|
  {
    if s == [] then []
    else
      match MatchAt(t, s)
      case Some((n, r)) => r + ReplaceAll(t, s[n..])
      case None => [s[0]] + ReplaceAll(t, s[1..])
  }

  /** The name of the function-code field, which naming recognises by name. */
  const FunctionCodeName: string := "功能码"

  /** The value a field contributes to a name: its combination value for a
      batch field that has one, the function code for the field named
      "功能码", otherwise its configured value; clamped to [0, 2^bits - 1]. */
  function NamingValue(field: Field, k: nat, values: map<nat, int>, functionCode: int): (r: nat)
    ensures r < Pow2(field.bits)
  {
    var v :=
      if field.usedForBatch && k in values then values[k]
      else if field.name == FunctionCodeName then functionCode
      else field.defaultValue;
    var maxValue := Pow2(field.bits) - 1;
    if v < 0 then 0 else if v > maxValue then maxValue else v
  }

  /** Which value a placeholder shows: the combination value of a batch
      field listed in the combination, else the function code for the field
      named "功能码", else the configured value; clamped to the field's width. */
  lemma NamingValueSpec(field: Field, k: nat, values: map<nat, int>, functionCode: int)
    ensures field.usedForBatch && k in values ==>
              ClampedFrom(NamingValue(field, k, values, functionCode), values[k], field.bits)
    ensures !(field.usedForBatch && k in values) && field.name == FunctionCodeName ==>
              ClampedFrom(NamingValue(field, k, values, functionCode), functionCode, field.bits)
    ensures !(field.usedForBatch && k in values) && field.name != FunctionCodeName ==>
              ClampedFrom(NamingValue(field, k, values, functionCode), field.defaultValue, field.bits)
  {
  }

  /** Where the name and the identifier agree on a field's value: a batch
      field listed in the combination, a plain field that is neither named
      nor bound as the function code, and a function-code field recognised
      both ways. */
  lemma NamingValueMatchesId(field: Field, k: nat, values: map<nat, int>, functionCode: int)
    ensures IsBatchField(field) && k in values ==>
              NamingValue(field, k, values, functionCode) == GetFieldValue(field, k, values, functionCode)
    ensures !field.usedForBatch && field.name != FunctionCodeName && !IsFunctionCodeField(field) ==>
              NamingValue(field, k, values, functionCode) == GetFieldValue(field, k, values, functionCode)
    ensures !field.usedForBatch && field.name == FunctionCodeName && IsFunctionCodeField(field) ==>
              NamingValue(field, k, values, functionCode) == GetFieldValue(field, k, values, functionCode)
  {
  }

  /** The two ways of recognising the function-code field part company: a
      fixed field named "功能码" with default value 1 shows the function code 5
      in names while the identifier carries its default value. */
  lemma FunctionCodeRecognisedByName()
    ensures var field := Field(FunctionCodeName, "FC", Fixed, 4, [Segment(0, 4)], 1, false, false, "", None);
            && NamingValue(field, 0, map[], 5) == 5
            && GetFieldValue(field, 0, map[], 5) == 1
  {
    assert Pow2(4) == 16 by {
      assert Pow2(1) == 2;
      assert Pow2(2) == 4;
      assert Pow2(3) == 8;
    }
  }

  /** The extended then the simple replacement for field k, skipped for a
      field without abbreviation. */
  function FieldPass(s: string, fields: seq<Field>, k: nat, values: map<nat, int>, functionCode: int): string
    requires k < |fields|
  {
    var a := fields[k].abbreviation;
    if a == "" then s
    else
      var v := NamingValue(fields[k], k, values, functionCode);
      ReplaceAll(SimpleToken(a, v), ReplaceAll(ExtToken(a, v), s))
  }

  /** The passes of the first n fields in order. */
  function FieldPasses(s: string, fields: seq<Field>, n: nat, values: map<nat, int>, functionCode: int): string
    requires n <= |fields|
  {
    if n == 0 then s else FieldPass(FieldPasses(s, fields, n - 1, values, functionCode), fields, n - 1, values, functionCode)
  }

  /** The name `processNamingPatternForCombination` produces. */
  function RenderName(pattern: string, fields: seq<Field>, combination: Combination, messageIndex: nat, functionCode: int): string
  {
    if pattern == "" then "Message_" + Dec(messageIndex)
    else FieldPasses(ReplaceAll(NumToken(messageIndex), pattern), fields, |fields|, BatchValues(combination), functionCode)
  }

  /** `processNamingPatternForCombination`. */
  method ProcessNamingPatternForCombination(pattern: string, fields: seq<Field>, combination: Combination, messageIndex: nat, functionCode: int)
    returns (result: string)
    ensures result == RenderName(pattern, fields, combination, messageIndex, functionCode)
  {
    if pattern == "" {
      return "Message_" + Dec(messageIndex);
    }
    result := ReplaceAll(NumToken(messageIndex), pattern);
    var fieldValueMap := BatchValues(combination);
    ghost var afterNum := result;
    for index := 0 to |fields|
      invariant result == FieldPasses(afterNum, fields, index, fieldValueMap, functionCode)
    {
      var field := fields[index];
      if field.abbreviation != "" {
        var fieldValue := NamingValue(field, index, fieldValueMap, functionCode);
        result := ReplaceAll(ExtToken(field.abbreviation, fieldValue), result);
        result := ReplaceAll(SimpleToken(field.abbreviation, fieldValue), result);
      }
    }
  }

  /** Text without '{' is left alone by every replacement. */
  lemma {:induction false} ReplaceAllText(t: Token, s: string, rest: string)
    requires Free(s, '{')
    ensures ReplaceAll(t, s + rest) == s + ReplaceAll(t, rest)
  {
    if s != [] {
      var c, tail := s[0], s[1..];
      assert s == [c] + tail;
      ReplaceAllText(t, tail, rest);
      NoMatchWithoutBrace(t, [c] + (tail + rest));
      ReplaceAllMiss(t, c, tail + rest);
      ConsAssoc(c, tail, rest);
      ConsAssoc(c, tail, ReplaceAll(t, rest));
    } else {
      assert s + rest == rest;
    }
  }

  lemma ConsAssoc<T>(c: T, a: seq<T>, b: seq<T>)
    ensures [c] + (a + b) == ([c] + a) + b
  {
  }

  /** Every match starts with '{'. */
  lemma NoMatchWithoutBrace(t: Token, s: string)
    requires s != [] && s[0] != '{'
    ensures MatchAt(t, s) == None
  {
    assert Head(t)[0] == '{';
  }

  /** Where no match starts, the first character is kept and the search
      goes on after it. */
  lemma ReplaceAllMiss(t: Token, c: char, rest: string)
    requires MatchAt(t, [c] + rest) == None
    ensures ReplaceAll(t, [c] + rest) == [c] + ReplaceAll(t, rest)
  {
    assert ([c] + rest)[1..] == rest;
  }

  lemma {:induction false} FieldPassesText(s: string, fields: seq<Field>, n: nat, values: map<nat, int>, functionCode: int)
    requires n <= |fields| && Free(s, '{')
    ensures FieldPasses(s, fields, n, values, functionCode) == s
  {
    if n > 0 {
      FieldPassesText(s, fields, n - 1, values, functionCode);
      var a := fields[n - 1].abbreviation;
      if a != "" {
        var v := NamingValue(fields[n - 1], n - 1, values, functionCode);
        ReplaceAllText(ExtToken(a, v), s, "");
        ReplaceAllText(SimpleToken(a, v), s, "");
        assert s + "" == s;
      }
    }
  }

  /** An empty pattern names the message `Message_<index>`; a pattern without
      any '{' is the name itself. */
  lemma RenderNamePlain(pattern: string, fields: seq<Field>, combination: Combination, messageIndex: nat, functionCode: int)
    ensures pattern == "" ==> RenderName(pattern, fields, combination, messageIndex, functionCode) == "Message_" + Dec(messageIndex)
    ensures Free(pattern, '{') && pattern != "" ==> RenderName(pattern, fields, combination, messageIndex, functionCode) == pattern
  {
    if Free(pattern, '{') && pattern != "" {
      ReplaceAllText(NumToken(messageIndex), pattern, "");
      assert pattern + "" == pattern;
      FieldPassesText(pattern, fields, |fields|, BatchValues(combination), functionCode);
    }
  }
}

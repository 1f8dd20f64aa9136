/**
 * JavaScript's `Number(string)` conversion (StringToNumber, section 7.1.4.1.1 of
 * ECMA-262), which the WKT parser of src/components/MapComponent.tsx applies to each
 * coordinate token, and `Number.isFinite` on its result.
 *
 * Values are exact reals: the rounding to the nearest double, and the overflow of a
 * huge literal to Infinity, are not modelled.
 */
module Numbers {
  import opened Wrappers
  import opened Text

  /** A number as far as the parser cares: a finite value, or one of Infinity,
      -Infinity and NaN (`Number.isFinite` is false for all three). */
  datatype Number = Finite(value: real) | NonFinite

  /** The value of a digit character in bases up to 16; letters a-f in either case. */
  function DigitValue(c: char): (r: Option<nat>)
    ensures r.Some? ==> r.value < 16
    ensures '0' <= c <= '9' ==> r == Some(c as int - '0' as int)
  {
    if '0' <= c <= '9' then Some(c as int - '0' as int)
    else if 'a' <= c <= 'f' then Some(c as int - 'a' as int + 10)
    else if 'A' <= c <= 'F' then Some(c as int - 'A' as int + 10)
    else None
  }

  predicate IsDigit(c: char, base: nat) {
    DigitValue(c).Some? && DigitValue(c).value < base
  }

  predicate AllDigits(s: string, base: nat) {
    forall i :: 0 <= i < |s| ==> IsDigit(s[i], base)
  }

  /** The value of a digit string, most significant digit first; "" is 0. */
  function DigitsValue(s: string, base: nat): (r: nat)
    requires AllDigits(s, base)
    decreases |s|
  {
    if |s| == 0 then 0
    else DigitsValue(s[..|s| - 1], base) * base + DigitValue(s[|s| - 1]).value
  }

  function Pow(base: nat, n: nat): (r: nat)
    ensures base > 0 ==> r > 0
  {
    if n == 0 then 1 else base * Pow(base, n - 1)
  }

  /** `10^e` for an integer exponent. */
  function Scale(e: int): (r: real)
    ensures r > 0.0
  {
    if e >= 0 then Pow(10, e) as real else 1.0 / (Pow(10, -e) as real)
  }

  /** The first index of `c` or `d` in `s`, or `|s|`. */
  function IndexOfEither(s: string, c: char, d: char): (r: nat)
    ensures r <= |s|
    ensures forall i :: 0 <= i < r ==> s[i] != c && s[i] != d
    ensures r < |s| ==> s[r] == c || s[r] == d
    decreases |s|
  {
    if |s| == 0 || s[0] == c || s[0] == d then 0 else 1 + IndexOfEither(s[1..], c, d)
  }

  /** An exponent: an optional sign and at least one decimal digit. */
  function ParseExponent(s: string): (r: Option<int>) {
    var sign := if |s| > 0 && (s[0] == '+' || s[0] == '-') then 1 else 0;
    var digits := s[sign..];
    if |digits| == 0 || !AllDigits(digits, 10) then None
    else if sign == 1 && s[0] == '-' then Some(-(DigitsValue(digits, 10) as int))
    else Some(DigitsValue(digits, 10))
  }

  /** Digits, an optional point and fraction digits, at least one digit in all:
      `12`, `12.`, `12.5`, `.5`. */
  function ParseMantissa(s: string): (r: Option<real>) {
    var p := IndexOfEither(s, '.', '.');
    var whole := s[..p];
    var fraction := if p < |s| then s[p + 1..] else "";
    if |whole| + |fraction| == 0 || !AllDigits(whole, 10) || !AllDigits(fraction, 10) then None
    else Some(DigitsValue(whole, 10) as real + DigitsValue(fraction, 10) as real / Pow(10, |fraction|) as real)
  }

  /** StrUnsignedDecimalLiteral: `Infinity`, or a mantissa with an optional exponent. */
  function ParseUnsignedDecimal(s: string): (r: Option<Number>) {
    if s == "Infinity" then Some(NonFinite)
    else
      var e := IndexOfEither(s, 'e', 'E');
      var m := ParseMantissa(s[..e]);
      var x := if e < |s| then ParseExponent(s[e + 1..]) else Some(0);
      if m.None? || x.None? then None else Some(Finite(m.value * Scale(x.value)))
  }

  /** StrDecimalLiteral: an optional sign before the unsigned literal. */
  function ParseDecimal(s: string): (r: Option<Number>) {
    if |s| > 0 && (s[0] == '+' || s[0] == '-') then
      var u := ParseUnsignedDecimal(s[1..]);
      if s[0] == '-' && u.Some? && u.value.Finite? then Some(Finite(-u.value.value)) else u
    else ParseUnsignedDecimal(s)
  }

  /** NonDecimalIntegerLiteral: `0x`, `0o` or `0b` (either case) and at least one digit;
      no sign is allowed. */
  function ParseNonDecimal(s: string): (r: Option<Number>) {
    if |s| < 3 || s[0] != '0' then None
    else
      var base := if s[1] in "xX" then 16 else if s[1] in "oO" then 8 else if s[1] in "bB" then 2 else 0;
      if base == 0 || !AllDigits(s[2..], base) then None
      else Some(Finite(DigitsValue(s[2..], base) as real))
  }

  /** `Number(s)`: surrounding whitespace is ignored, a blank string is 0, and anything
      that is not a numeric literal is NaN. */
  function StringToNumber(s: string): (r: Number) {
    NumberOfTrimmed(Trim(s))
  }

  /** `Number` once the surrounding whitespace is gone. */
  function NumberOfTrimmed(t: string): Number {
    if t == "" then Finite(0.0)
    else
      var n := ParseNonDecimal(t);
      if n.Some? then n.value
      else
        var d := ParseDecimal(t);
        if d.Some? then d.value else NonFinite
  }

  /** `Number.isFinite`. */
  predicate IsFinite(n: Number) {
    n.Finite?
  }

  /** Trimming twice is trimming once. */
  lemma TrimIdempotent(s: string)
    ensures Trim(Trim(s)) == Trim(s)
  {
    TrimPlain(Trim(s));
  }

  /** Whitespace around a token never changes its number. */
  lemma NumberIgnoresSpace(s: string)
    ensures StringToNumber(Trim(s)) == StringToNumber(s)
  {
    TrimIdempotent(s);
  }

  /** A blank token is the number 0, and so is finite. */
  lemma BlankIsZero(s: string)
    requires forall i :: 0 <= i < |s| ==> IsWhitespace(s[i])
    ensures StringToNumber(s) == Finite(0.0)
  {
    var t := TrimStart(s);
    assert t == [];
  }

  /** A digit string with no point reads as its integer value. */
  lemma {:induction false} MantissaOfDigits(s: string)
    requires |s| > 0 && AllDigits(s, 10)
    ensures ParseMantissa(s) == Some(DigitsValue(s, 10) as real)
  {
    var p := IndexOfEither(s, '.', '.');
    assert forall i :: 0 <= i < |s| ==> s[i] != '.';
    assert s[..p] == s;
  }

  /** A decimal digit string, with no exponent and no sign, is its integer value. */
  lemma DigitsAreTheirValue(s: string)
    requires |s| > 0 && AllDigits(s, 10)
    ensures StringToNumber(s) == Finite(DigitsValue(s, 10) as real)
  {
    assert '0' <= s[0] <= '9' && '0' <= s[|s| - 1] <= '9';
    TrimPlain(s);
    DigitsReadAsDecimal(s);
  }

  lemma {:induction false} DigitsReadAsDecimal(s: string)
    requires |s| > 0 && AllDigits(s, 10)
    ensures NumberOfTrimmed(s) == Finite(DigitsValue(s, 10) as real)
  {
    assert forall i :: 0 <= i < |s| ==> '0' <= s[i] <= '9';
    assert ParseNonDecimal(s).None?;
    assert s != "Infinity" by {
      assert '0' <= s[0] <= '9';
    }
    var e := IndexOfEither(s, 'e', 'E');
    assert s[..e] == s;
    MantissaOfDigits(s);
  }

  /** `-x`, with NaN and the infinities staying non-finite. */
  function Negate(n: Number): Number {
    match n
    case Finite(v) => Finite(-v)
    case NonFinite => NonFinite
  }

  /** A minus sign in front of a decimal literal negates its number, and keeps Infinity
      and NaN non-finite; a hexadecimal, octal or binary literal takes no sign, so
      `Number("-0x10")` is NaN. */
  lemma NegationOfDecimal(s: string)
    requires |s| > 0 && !IsWhitespace(s[0]) && !IsWhitespace(s[|s| - 1]) && s[0] != '+' && s[0] != '-'
    ensures ParseNonDecimal(s).None? ==> StringToNumber("-" + s) == Negate(StringToNumber(s))
    ensures ParseNonDecimal(s).Some? ==> StringToNumber("-" + s) == NonFinite
  {
    var m := "-" + s;
    assert m[1..] == s;
    assert m[|m| - 1] == s[|s| - 1];
    TrimPlain(s);
    TrimPlain(m);
    assert ParseNonDecimal(m).None?;
    if ParseNonDecimal(s).Some? {
      NonDecimalIsNotDecimal(s);
    }
  }

  /** A literal with a base prefix is not a decimal literal: the prefix letter is
      neither a digit, a point nor an exponent mark. */
  lemma NonDecimalIsNotDecimal(s: string)
    requires ParseNonDecimal(s).Some?
    ensures ParseUnsignedDecimal(s).None?
  {
    assert s[1] in "xXoObB";
    assert s != "Infinity";
    var e := IndexOfEither(s, 'e', 'E');
    assert e >= 2;
    var t := s[..e];
    assert t[1] == s[1];
    var p := IndexOfEither(t, '.', '.');
    assert p >= 2;
    assert !IsDigit(t[..p][1], 10);
  }
}

/**
 * JavaScript's `Number(value)` applied to an environment variable: a string, or
 * `undefined` when the variable is not set. The string is read by the StringToNumber
 * grammar of ECMAScript (section 7.1.4.1 of ECMA-262): white space around the literal,
 * an empty literal meaning 0, `0x`/`0o`/`0b` integers, signed decimals with a fraction
 * and an exponent, `Infinity`, and NaN for anything else. Values are kept exact.
 */
module JsNumber {
  import opened Wrappers
  import opened JsText

  /** A number value; a finite one is kept as its exact decimal value. */
  datatype Number = Finite(value: real) | Infinite(negative: bool) | NaN

  /** The value of `c` as a digit (0-9, then a-f or A-F), or 16 when it is none. */
  function DigitValue(c: char): (d: nat)
    ensures d <= 16
  {
    if '0' <= c <= '9' then c as int - '0' as int
    else if 'a' <= c <= 'f' then c as int - 'a' as int + 10
    else if 'A' <= c <= 'F' then c as int - 'A' as int + 10
    else 16
  }

  /** Every character of `s` is a digit of base `radix`. */
  predicate AllDigits(s: string, radix: nat) {
    forall k | 0 <= k < |s| :: DigitValue(s[k]) < radix
  }

  /** The value of the digit string `s` in base `radix`, most significant digit first. */
  function DigitsValue(s: string, radix: nat): nat
    requires AllDigits(s, radix)
  {
    if s == [] then 0
    else DigitsValue(s[..|s| - 1], radix) * radix + DigitValue(s[|s| - 1])
  }

  function Pow10(e: nat): (p: nat)
    ensures p >= 1
  {
    if e == 0 then 1 else 10 * Pow10(e - 1)
  }

  /** The base named by the second character of a `0x`, `0o` or `0b` prefix. */
  function RadixOf(c: char): Option<nat> {
    if c == 'x' || c == 'X' then Some(16)
    else if c == 'o' || c == 'O' then Some(8)
    else if c == 'b' || c == 'B' then Some(2)
    else None
  }

  /** `Number(v)`: `undefined` is NaN, a string is read as a numeric literal. */
  function ToNumber(v: Option<string>): Number {
    match v
    case None => NaN
    case Some(s) => StringToNumber(s)
  }

  /** StringToNumber: the literal is read once surrounding white space is removed. */
  function StringToNumber(s: string): Number {
    NumericLiteral(Trim(s))
  }

  /** StringNumericLiteral without its surrounding white space. */
  function NumericLiteral(t: string): Number {
    if t == [] then Finite(0.0)
    else if |t| > 2 && t[0] == '0' && RadixOf(t[1]).Some? then
      var radix := RadixOf(t[1]).value;
      if AllDigits(t[2..], radix) then Finite(DigitsValue(t[2..], radix) as real) else NaN
    else if t[0] == '+' then UnsignedDecimal(t[1..])
    else if t[0] == '-' then Negate(UnsignedDecimal(t[1..]))
    else UnsignedDecimal(t)
  }

  function Negate(n: Number): Number {
    match n
    case Finite(v) => Finite(-v)
    case Infinite(negative) => Infinite(!negative)
    case NaN => NaN
  }

  /** The index of the first `e` or `E` in `s`, or `|s|`. */
  function ExponentIndex(s: string): (i: nat)
    ensures i <= |s|
    ensures i < |s| ==> s[i] == 'e' || s[i] == 'E'
    ensures forall k | 0 <= k < i :: s[k] != 'e' && s[k] != 'E'
  {
    if s == [] || s[0] == 'e' || s[0] == 'E' then 0 else 1 + ExponentIndex(s[1..])
  }

  /**
   * The digits and scale of `DecimalDigits [. DecimalDigits]` or `. DecimalDigits`:
   * the literal's value is `digits / 10^scale`.
   */
  function Mantissa(m: string): Option<(nat, nat)> {
    var d := FirstIndexOf(m, '.');
    var whole := m[..d];
    var fraction := if d < |m| then m[d + 1..] else [];
    if AllDigits(whole, 10) && AllDigits(fraction, 10) && |whole| + |fraction| > 0 then
      Some((DigitsValue(whole + fraction, 10), |fraction|))
    else None
  }

  /** `[+|-] DecimalDigits`, the part after `e` or `E`. */
  function Exponent(x: string): Option<int> {
    if x != [] && (x[0] == '+' || x[0] == '-') then
      var digits := x[1..];
      if digits != [] && AllDigits(digits, 10) then
        var magnitude: int := DigitsValue(digits, 10);
        Some(if x[0] == '-' then -magnitude else magnitude)
      else None
    else if x != [] && AllDigits(x, 10) then Some(DigitsValue(x, 10))
    else None
  }

  /** `digits * 10^power`, exactly. */
  function Scaled(digits: nat, power: int): real {
    if power >= 0 then (digits * Pow10(power)) as real
    else digits as real / Pow10(-power) as real
  }

  /** StrUnsignedDecimalLiteral, or NaN when `t` is not one. */
  function UnsignedDecimal(t: string): Number {
    if t == "Infinity" then Infinite(false)
    else
      var e := ExponentIndex(t);
      var exponent := if e < |t| then Exponent(t[e + 1..]) else Some(0);
      match (Mantissa(t[..e]), exponent)
      case (Some((digits, scale)), Some(x)) => Finite(Scaled(digits, x - scale))
      case _ => NaN
  }

  /** The shortest decimal spelling of `n`. */
  function DecimalText(n: nat): (s: string)
    ensures s != [] && AllDigits(s, 10)
    ensures s[0] == '0' ==> n == 0
  {
    var last := ['0' + (n % 10) as char];
    if n < 10 then last
    else
      var front := DecimalText(n / 10);
      var s := front + last;
      assert forall k | 0 <= k < |front| :: s[k] == front[k];
      s
  }

  /** Reading the decimal spelling of `n` gives back `n`. */
  lemma {:induction false} DecimalTextValue(n: nat)
    ensures DigitsValue(DecimalText(n), 10) == n
  {
    if n >= 10 {
      DecimalTextValue(n / 10);
      var s := DecimalText(n);
      assert s[..|s| - 1] == DecimalText(n / 10);
    }
  }

  /** A plain digit string is read by the decimal grammar as its value. */
  lemma UnsignedDigits(s: string)
    requires s != [] && AllDigits(s, 10)
    ensures UnsignedDecimal(s) == Finite(DigitsValue(s, 10) as real)
  {
    assert s != "Infinity" by { assert DigitValue(s[0]) < 10; }
    var e := ExponentIndex(s);
    assert e == |s|;
    assert s[..e] == s;
    var d := FirstIndexOf(s, '.');
    assert d == |s|;
    assert s[..d] + [] == s;
    assert Mantissa(s) == Some((DigitsValue(s, 10), 0));
  }

  /** A value with no white space at either end is read as it stands. */
  lemma ReadUnpadded(s: string)
    requires s != [] && !IsJsWhitespace(s[0]) && !IsJsWhitespace(s[|s| - 1])
    ensures StringToNumber(s) == NumericLiteral(s)
  {
    TrimUnpadded(s);
  }

  /** `Number` reads the decimal spelling of any natural number as that number. */
  lemma DecimalRoundTrip(n: nat)
    ensures StringToNumber(DecimalText(n)) == Finite(n as real)
  {
    var s := DecimalText(n);
    assert DigitValue(s[0]) < 10 && DigitValue(s[|s| - 1]) < 10;
    ReadUnpadded(s);
    assert s[0] == '0' ==> |s| == 1;
    UnsignedDigits(s);
    DecimalTextValue(n);
  }

  lemma TrimPadded465(s: string)
    requires s == " 465\n"
    ensures Trim(s) == "465"
  {
    assert TrimStart(s) == "465\n";
    assert TrimEnd("465\n") == "465";
  }

  lemma Read465(t: string)
    requires t == "465"
    ensures NumericLiteral(t) == Finite(465.0)
  {
    assert AllDigits(t, 10);
    UnsignedDigits(t);
    var u := t[..2];
    assert u == "46" && u[..1] == "4";
    assert DigitsValue(u[..1][..0], 10) == 0;
    assert DigitsValue(u[..1], 10) == 4;
    assert DigitsValue(u, 10) == 46;
  }

  /** Surrounding white space is ignored, so a padded port still reads as 465. */
  lemma PaddedSpelling(s: string)
    requires s == " 465\n"
    ensures StringToNumber(s) == Finite(465.0)
  {
    TrimPadded465(s);
    Read465(Trim(s));
  }

  /** A hexadecimal literal is read in base 16. */
  lemma HexSpelling()
    ensures StringToNumber("0x1D1") == Finite(465.0)
  {
    ReadUnpadded("0x1D1");
    assert "1D1"[..2] == "1D" && "1D"[..1] == "1" && "1"[..0] == "";
  }

  /** A fraction with an exponent is read exactly. */
  lemma ExponentSpelling(t: string)
    requires t == "4.65e2"
    ensures StringToNumber(t) == Finite(465.0)
  {
    ReadUnpadded(t);
    assert t[0] == '4' && t[1] == '.' && t[2] == '6' && t[3] == '5' && t[4] == 'e';
    assert ExponentIndex(t) == 4;
    var m := "4.65";
    assert t[..4] == m;
    assert FirstIndexOf(m, '.') == 1;
    assert m[..1] + m[2..] == "465";
    assert "465"[..2] == "46" && "46"[..1] == "4" && "4"[..0] == "";
    assert Mantissa(m) == Some((465, 2));
    assert Exponent(t[5..]) == Some(2);
  }

  /** An empty value is 0, and an unset one is NaN. */
  lemma EmptyAndUnset()
    ensures StringToNumber("") == Finite(0.0)
    ensures ToNumber(None) == NaN
  {
  }

  /** Trailing garbage makes the whole value NaN. */
  lemma NonNumericSpellings(t: string)
    requires t == "465abc"
    ensures StringToNumber(t) == NaN
  {
    ReadUnpadded(t);
    assert ExponentIndex(t) == 6;
    assert t[..6] == t;
    assert FirstIndexOf(t, '.') == 6;
    assert !AllDigits(t, 10) by { assert DigitValue(t[5]) == 12; }
  }

}

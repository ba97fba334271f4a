/** JavaScript's string-to-number conversions as the core uses them:
    `Number(s)`, `parseInt(s)` (no radix argument), `String(n)` and the
    truthiness test `n || d`. Values are exact: IEEE-754 rounding is not
    modelled. */
module JsNumber {
  import opened Wrappers
  import opened JsText

  /** A JavaScript number value. `Finite(negative, whole, fraction)` is the
      value whose decimal expansion is `whole.fraction`, with `fraction` a
      string of decimal digits without trailing zeros; `-0` is
      `Finite(true, 0, "")`. */
  datatype Num = NaN | Infinity(negative: bool) | Finite(negative: bool, whole: nat, fraction: string)

  const Zero := Finite(false, 0, [])

  /** The value of a digit character in the radixes up to 36, or -1. */
  function DigitValue(c: char): (d: int)
    ensures -1 <= d < 36
  {
    if '0' <= c <= '9' then c as int - '0' as int
    else if 'a' <= c <= 'z' then c as int - 'a' as int + 10
    else if 'A' <= c <= 'Z' then c as int - 'A' as int + 10
    else -1
  }

  predicate IsDigitOf(c: char, radix: nat) {
    0 <= DigitValue(c) < radix
  }

  predicate AllDigitsOf(s: string, radix: nat) {
    forall i :: 0 <= i < |s| ==> IsDigitOf(s[i], radix)
  }

  /** The value of a string of digits in `radix`, most significant first. */
  function DigitsValue(s: string, radix: nat): nat
    requires AllDigitsOf(s, radix)
  {
    if s == [] then 0
    else DigitsValue(s[..|s| - 1], radix) * radix + DigitValue(s[|s| - 1])
  }

  /** Length of the longest prefix of `s` made of digits of `radix`. */
  function DigitPrefixLength(s: string, radix: nat): (k: nat)
    ensures k <= |s| && AllDigitsOf(s[..k], radix)
    ensures k < |s| ==> !IsDigitOf(s[k], radix)
  {
    if s == [] || !IsDigitOf(s[0], radix) then 0
    else
      var k := DigitPrefixLength(s[1..], radix);
      assert s[..k + 1] == [s[0]] + s[1..][..k];
      k + 1
  }

  /** The decimal digit character for `d`. */
  function DigitChar(d: nat): (c: char)
    requires d < 10
    ensures IsDigitOf(c, 10) && DigitValue(c) == d
  {
    (d + '0' as int) as char
  }

  /** `String(n)` for a natural number: its decimal digits, without leading zeros. */
  function NatToString(n: nat): (r: string)
    ensures r != [] && AllDigitsOf(r, 10)
    ensures |r| > 1 ==> r[0] != '0'
    decreases n
  {
    if n < 10 then [DigitChar(n)]
    else
      var prefix := NatToString(n / 10);
      prefix + [DigitChar(n % 10)]
  }

  /** Reading back the digits `NatToString` writes gives the number. */
  lemma {:induction false} NatToStringValue(n: nat)
    ensures DigitsValue(NatToString(n), 10) == n
    decreases n
  {
    if n >= 10 {
      NatToStringValue(n / 10);
      var r := NatToString(n);
      assert r[..|r| - 1] == NatToString(n / 10);
    }
  }

  /** `String(i)` for an integer. */
  function IntToString(i: int): (r: string)
  {
    if i < 0 then "-" + NatToString(-i) else NatToString(i)
  }

  /** Removes trailing '0' characters. */
  function DropTrailingZeros(s: string): (r: string)
    ensures |r| <= |s| && r == s[..|r|]
    ensures r == [] || r[|r| - 1] != '0'
  {
    if s != [] && s[|s| - 1] == '0' then DropTrailingZeros(s[..|s| - 1]) else s
  }

  /** The radix that the letter after a leading `0` selects in a
      non-decimal literal (`0x`, `0o`, `0b`), or 0. */
  function NonDecimalRadix(c: char): nat
  {
    if c == 'x' || c == 'X' then 16
    else if c == 'o' || c == 'O' then 8
    else if c == 'b' || c == 'B' then 2
    else 0
  }

  /** A signed decimal literal with an optional fraction and no exponent. */
  function ParseDecimal(t: string): (n: Num)
    requires t != []
    ensures n.Finite? ==> AllDigitsOf(n.fraction, 10) && (n.fraction == [] || n.fraction[|n.fraction| - 1] != '0')
  {
    var body := if t[0] == '-' || t[0] == '+' then t[1..] else t;
    var dot := IndexOfAny(body, {'.'});
    var intPart := if dot < 0 then body else body[..dot];
    var fracPart := if dot < 0 then [] else body[dot + 1..];
    if AllDigitsOf(intPart, 10) && AllDigitsOf(fracPart, 10) && |intPart| + |fracPart| > 0 then
      var frac := DropTrailingZeros(fracPart);
      assert AllDigitsOf(frac, 10) by {
        forall i | 0 <= i < |frac| ensures IsDigitOf(frac[i], 10) {
          assert frac[i] == fracPart[i];
        }
      }
      Finite(t[0] == '-', DigitsValue(intPart, 10), frac)
    else NaN
  }

  /** `Number(s)`: surrounding white space is ignored, the empty string is
      0, and anything that is not a numeric literal is NaN. */
  function ToNumber(s: string): (n: Num)
    ensures n.Finite? ==> AllDigitsOf(n.fraction, 10) && (n.fraction == [] || n.fraction[|n.fraction| - 1] != '0')
  {
    var t := Trim(s);
    if t == [] then Zero else NumericLiteral(t)
  }

  /** The value of a trimmed, non-empty string under `Number`. */
  function NumericLiteral(t: string): (n: Num)
    requires t != []
    ensures n.Finite? ==> AllDigitsOf(n.fraction, 10) && (n.fraction == [] || n.fraction[|n.fraction| - 1] != '0')
  {
    if t == "Infinity" || t == "+Infinity" then Infinity(false)
    else if t == "-Infinity" then Infinity(true)
    else if |t| > 2 && t[0] == '0' && NonDecimalRadix(t[1]) != 0 then
      var radix := NonDecimalRadix(t[1]);
      if AllDigitsOf(t[2..], radix) then Finite(false, DigitsValue(t[2..], radix), []) else NaN
    else ParseDecimal(t)
  }

  /** `!!n`: NaN, 0 and -0 are falsy, every other number is truthy. */
  predicate Truthy(n: Num) {
    !(n.NaN? || (n.Finite? && n.whole == 0 && n.fraction == []))
  }

  /** `n || d` for numbers. */
  function OrNum(n: Num, d: Num): Num {
    if Truthy(n) then n else d
  }

  /** `String(n)` for numbers written without exponent notation. */
  function NumberToString(n: Num): string
  {
    match n
    case NaN => "NaN"
    case Infinity(neg) => if neg then "-Infinity" else "Infinity"
    case Finite(neg, whole, frac) =>
      (if neg && !(whole == 0 && frac == []) then "-" else "")
      + NatToString(whole)
      + (if frac == [] then "" else "." + frac)
  }

  /** `parseInt(s)`: leading white space, an optional sign, an optional
      `0x` prefix selecting radix 16, then the longest run of digits;
      no digit at all is NaN (`None`). */
  function ParseInt(s: string): (r: Option<int>)
  {
    var t := TrimStart(s);
    var negative := t != [] && t[0] == '-';
    var u := if t != [] && (t[0] == '-' || t[0] == '+') then t[1..] else t;
    var hex := |u| >= 2 && u[0] == '0' && (u[1] == 'x' || u[1] == 'X');
    var radix := if hex then 16 else 10;
    var v := if hex then u[2..] else u;
    var k := DigitPrefixLength(v, radix);
    if k == 0 then None
    else
      var magnitude: int := DigitsValue(v[..k], radix);
      Some(if negative then -magnitude else magnitude)
  }

  lemma {:induction false} DigitsNotSpace(s: string, radix: nat)
    requires AllDigitsOf(s, radix)
    ensures forall i :: 0 <= i < |s| ==> !IsSpace(s[i])
  {
  }

  /** `parseInt` reads back what `String` writes for a natural number. */
  lemma ParseIntNatToString(n: nat)
    ensures ParseInt(NatToString(n)) == Some(n)
  {
    NatToStringValue(n);
    ParseIntOfDigits(NatToString(n));
  }

  /** `parseInt` of a string of decimal digits is their value. */
  lemma ParseIntOfDigits(s: string)
    requires s != [] && AllDigitsOf(s, 10)
    ensures ParseInt(s) == Some(DigitsValue(s, 10))
  {
    assert IsDigitOf(s[0], 10);
    TrimStartKeeps(s);
    assert |s| >= 2 ==> IsDigitOf(s[1], 10);
    DigitPrefixOfDigits(s, 10);
    assert s[..|s|] == s;
  }

  /** The whole of a string of digits is its longest digit prefix. */
  lemma {:induction false} DigitPrefixOfDigits(s: string, radix: nat)
    requires AllDigitsOf(s, radix)
    ensures DigitPrefixLength(s, radix) == |s|
    decreases |s|
  {
    if s != [] {
      DigitPrefixOfDigits(s[1..], radix);
    }
  }

  lemma ParseDecimalOfDigits(s: string)
    requires s != [] && AllDigitsOf(s, 10)
    ensures ParseDecimal(s) == Finite(false, DigitsValue(s, 10), [])
  {
    assert IsDigitOf(s[0], 10);
    assert IndexOfAny(s, {'.'}) < 0 by {
      forall j | 0 <= j < |s| ensures s[j] != '.' {
        assert IsDigitOf(s[j], 10);
      }
    }
  }

  /** `Number` of a non-empty run of decimal digits is the integer they spell. */
  lemma ToNumberOfDigits(s: string)
    requires s != [] && AllDigitsOf(s, 10)
    ensures ToNumber(s) == Finite(false, DigitsValue(s, 10), [])
  {
    DigitsNotSpace(s, 10);
    TrimNoSpace(s);
    assert IsDigitOf(s[0], 10);
    assert s[0] != 'I' && s[0] != '+' && s[0] != '-';
    assert s != "Infinity" && s != "+Infinity" && s != "-Infinity";
    if |s| > 2 && s[0] == '0' {
      assert IsDigitOf(s[1], 10);
      assert NonDecimalRadix(s[1]) == 0;
    }
    ParseDecimalOfDigits(s);
    assert NumericLiteral(s) == ParseDecimal(s);
  }

  /** `Number` reads back what `String` writes for a natural number. */
  lemma ToNumberNatToString(n: nat)
    ensures ToNumber(NatToString(n)) == Finite(false, n, [])
  {
    ToNumberOfDigits(NatToString(n));
    NatToStringValue(n);
  }
}

/**
 * Numerals as the JavaScript runtime writes and reads them: `Number.prototype.toString(radix)`
 * for the non-negative integers the indexer formats, the template literal `${n}`, and
 * `parseInt(string, radix)` with its radix rules (0 means decimal with an optional `0x`
 * prefix, 1 and anything above 36 give NaN, parsing stops at the first non-digit).
 */
module Numerals {
  import opened Wrappers

  /** A JavaScript number as far as `parseInt` can produce one. */
  datatype JsNumber = Num(n: int) | NaN

  function Pow(b: nat, e: nat): (p: nat)
    ensures b > 0 ==> p > 0
  {
    if e == 0 then 1 else b * Pow(b, e - 1)
  }

  /** The value of a digit character in radixes up to 36, letters in either case. */
  function DigitValue(c: char): Option<nat> {
    if '0' <= c <= '9' then Some(c as int - '0' as int)
    else if 'a' <= c <= 'z' then Some(c as int - 'a' as int + 10)
    else if 'A' <= c <= 'Z' then Some(c as int - 'A' as int + 10)
    else None
  }

  predicate IsDigitIn(c: char, radix: nat) {
    DigitValue(c).Some? && DigitValue(c).value < radix
  }

  predicate AllDigitsIn(s: string, radix: nat) {
    forall i :: 0 <= i < |s| ==> IsDigitIn(s[i], radix)
  }

  /** Positional value of a digit string, most significant digit first. */
  function ValueIn(s: string, radix: nat): nat
    requires AllDigitsIn(s, radix)
  {
    if |s| == 0 then 0 else ValueIn(s[..|s| - 1], radix) * radix + DigitValue(s[|s| - 1]).value
  }

  function DigitChar(d: nat): (c: char)
    requires d < 10
    ensures DigitValue(c) == Some(d)
  {
    ('0' as int + d) as char
  }

  /** `n.toString(radix)` for a non-negative integer: no sign, no leading zeros. */
  function Numeral(n: nat, radix: nat): (s: string)
    requires 2 <= radix <= 10
    ensures |s| > 0 && AllDigitsIn(s, radix)
  {
    if n < radix then [DigitChar(n)] else Numeral(n / radix, radix) + [DigitChar(n % radix)]
  }

  /** Euclidean division splits a number into quotient and remainder. */
  lemma DivMod(n: nat, r: nat)
    requires r > 0
    ensures (n / r) * r + n % r == n
  {
  }

  /** Dividing by a radix of at least two makes a positive number smaller. */
  lemma DivShrinks(n: nat, r: nat)
    requires n > 0 && r >= 2
    ensures n / r < n
  {
    DivMod(n, r);
    assert (n / r) * r >= (n / r) * 2;
  }

  /** Appending one digit multiplies the value by the radix and adds the digit. */
  lemma ValueInSnoc(p: string, c: char, radix: nat)
    requires AllDigitsIn(p, radix) && IsDigitIn(c, radix)
    ensures AllDigitsIn(p + [c], radix)
    ensures ValueIn(p + [c], radix) == ValueIn(p, radix) * radix + DigitValue(c).value
  {
    var s := p + [c];
    assert s[..|s| - 1] == p;
    assert AllDigitsIn(s, radix) by {
      forall i | 0 <= i < |s| ensures IsDigitIn(s[i], radix) {
        if i < |p| { assert s[i] == p[i]; }
      }
    }
  }

  /** The numeral reads back as the number it was written from. */
  lemma {:induction false} NumeralValue(n: nat, radix: nat)
    requires 2 <= radix <= 10
    ensures ValueIn(Numeral(n, radix), radix) == n
    decreases n
  {
    if n >= radix {
      var p := Numeral(n / radix, radix);
      var c := DigitChar(n % radix);
      assert Numeral(n, radix) == p + [c];
      DivShrinks(n, radix);
      NumeralValue(n / radix, radix);
      ValueInSnoc(p, c, radix);
      DivMod(n, radix);
    } else {
      assert Numeral(n, radix) == [] + [DigitChar(n)];
      ValueInSnoc([], DigitChar(n), radix);
    }
  }

  /** `${n}` for a non-negative integer. */
  function Decimal(n: nat): string {
    Numeral(n, 10)
  }

  /** `String(n)` for any integer: a minus sign in front of the magnitude when negative. */
  function IntString(n: int): string {
    if n < 0 then "-" + Decimal(-n) else Decimal(n)
  }

  /** Number of leading characters of `s` that are digits in `radix`. */
  function DigitPrefix(s: string, radix: nat): (k: nat)
    ensures k <= |s|
    ensures AllDigitsIn(s[..k], radix)
    ensures k < |s| ==> !IsDigitIn(s[k], radix)
  {
    if |s| == 0 || !IsDigitIn(s[0], radix) then 0
    else
      var k := 1 + DigitPrefix(s[1..], radix);
      assert s[..k] == [s[0]] + s[1..][..k - 1];
      k
  }

  /**
   * What `parseInt` reads after the sign: in radix 0 or 16 an optional `0x` prefix selects
   * base 16, radix 0 otherwise means 10; then the longest run of digits, none giving no value.
   */
  function ParseMagnitude(body: string, radix: int): Option<nat>
    requires radix == 0 || 2 <= radix <= 36
  {
    var hex := (radix == 0 || radix == 16) && |body| >= 2 && body[0] == '0'
               && (body[1] == 'x' || body[1] == 'X');
    var r: nat := if hex then 16 else if radix == 0 then 10 else radix;
    var digits := if hex then body[2..] else body;
    var k := DigitPrefix(digits, r);
    if k == 0 then None else Some(ValueIn(digits[..k], r))
  }

  /**
   * `parseInt(s, radix)` on strings without leading white space: an invalid radix gives NaN;
   * otherwise an optional sign, then the magnitude, and no digit at all gives NaN.
   */
  function ParseInt(s: string, radix: int): JsNumber {
    if radix != 0 && (radix < 2 || radix > 36) then NaN
    else
      var negative := |s| > 0 && s[0] == '-';
      var body := if |s| > 0 && (s[0] == '-' || s[0] == '+') then s[1..] else s;
      match ParseMagnitude(body, radix)
      case None => NaN
      case Some(v) => if negative then Num(-(v as int)) else Num(v)
  }

  /** The full-string digit run is the whole string when every character is a digit. */
  lemma {:induction false} DigitPrefixAll(s: string, radix: nat)
    requires AllDigitsIn(s, radix)
    ensures DigitPrefix(s, radix) == |s|
    decreases |s|
  {
    if |s| > 0 {
      assert AllDigitsIn(s[1..], radix) by {
        forall i | 0 <= i < |s[1..]| ensures IsDigitIn(s[1..][i], radix) {
          assert s[1..][i] == s[i + 1];
        }
      }
      DigitPrefixAll(s[1..], radix);
    }
  }

  lemma Distribute(x: int, p: int, y: int, r: int)
    ensures (x * p + y) * r == x * (r * p) + y * r
  {
  }

  /** Appending digits shifts the value of the prefix by a power of the radix. */
  lemma {:induction false} ValueInAppend(a: string, b: string, radix: nat)
    requires AllDigitsIn(a, radix) && AllDigitsIn(b, radix)
    ensures AllDigitsIn(a + b, radix)
    ensures ValueIn(a + b, radix) == ValueIn(a, radix) * Pow(radix, |b|) + ValueIn(b, radix)
    decreases |b|
  {
    var s := a + b;
    assert AllDigitsIn(s, radix) by {
      forall i | 0 <= i < |s| ensures IsDigitIn(s[i], radix) {
        if i < |a| { assert s[i] == a[i]; } else { assert s[i] == b[i - |a|]; }
      }
    }
    if |b| > 0 {
      var b', c := b[..|b| - 1], b[|b| - 1];
      assert b == b' + [c];
      assert AllDigitsIn(b', radix) by {
        forall i | 0 <= i < |b'| ensures IsDigitIn(b'[i], radix) { assert b'[i] == b[i]; }
      }
      ValueInAppend(a, b', radix);
      assert s == (a + b') + [c];
      ValueInSnoc(a + b', c, radix);
      ValueInSnoc(b', c, radix);
      var x, p, y, d := ValueIn(a, radix), Pow(radix, |b'|), ValueIn(b', radix), DigitValue(c).value;
      assert Pow(radix, |b|) == radix * p;
      Distribute(x, p, y, radix);
    } else {
      assert s == a;
    }
  }

  /** A non-empty run of digits of a radix up to ten is read whole, as its value. */
  lemma ParseMagnitudeDigits(s: string, radix: int, r: nat)
    requires (radix == 0 && r == 10) || (2 <= radix <= 10 && r == radix)
    requires |s| > 0 && AllDigitsIn(s, r)
    ensures ParseMagnitude(s, radix) == Some(ValueIn(s, r))
  {
    if |s| >= 2 {
      assert IsDigitIn(s[1], r);
      assert s[1] != 'x' && s[1] != 'X';
    }
    DigitPrefixAll(s, r);
    assert s[..|s|] == s;
  }

  /** A non-empty run of digits of a radix up to ten parses as its value. */
  lemma ParseDigitRun(s: string, radix: int, r: nat)
    requires (radix == 0 && r == 10) || (2 <= radix <= 10 && r == radix)
    requires |s| > 0 && AllDigitsIn(s, r)
    ensures ParseInt(s, radix) == Num(ValueIn(s, r))
  {
    ParseMagnitudeDigits(s, radix, r);
    assert IsDigitIn(s[0], r);
    assert s[0] != '-' && s[0] != '+';
  }

  /** The same run after a minus sign parses as its value negated. */
  lemma ParseNegativeDigitRun(s: string, radix: int, r: nat)
    requires (radix == 0 && r == 10) || (2 <= radix <= 10 && r == radix)
    requires |s| > 0 && AllDigitsIn(s, r)
    ensures ParseInt("-" + s, radix) == Num(-(ValueIn(s, r) as int))
  {
    ParseMagnitudeDigits(s, radix, r);
    assert ("-" + s)[0] == '-' && ("-" + s)[1..] == s;
  }

  /** Reading back what `${n}` wrote gives `n`: the decimal numeral round-trips through parseInt. */
  lemma DecimalRoundTrip(n: nat)
    ensures ParseInt(Decimal(n), 0) == Num(n)
    ensures ParseInt(Decimal(n), 10) == Num(n)
  {
    NumeralValue(n, 10);
    ParseDigitRun(Decimal(n), 0, 10);
    ParseDigitRun(Decimal(n), 10, 10);
  }

  /** The same round trip for any integer, sign included. */
  lemma IntStringRoundTrip(n: int)
    ensures ParseInt(IntString(n), 0) == Num(n)
  {
    if n < 0 {
      NumeralValue(-n, 10);
      ParseNegativeDigitRun(Decimal(-n), 0, 10);
    } else {
      DecimalRoundTrip(n);
    }
  }

  /** `${n}` never repeats: different numbers have different decimal numerals. */
  lemma DecimalInjective(a: nat, b: nat)
    requires Decimal(a) == Decimal(b)
    ensures a == b
  {
    DecimalRoundTrip(a);
    DecimalRoundTrip(b);
  }

  /** A decimal numeral contains only the characters '0' to '9'. */
  lemma DecimalChars(n: nat, i: int)
    requires 0 <= i < |Decimal(n)|
    ensures '0' <= Decimal(n)[i] <= '9'
  {
    assert IsDigitIn(Decimal(n)[i], 10);
  }
}

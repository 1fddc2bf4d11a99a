/**
  Numbers as they are written, with sign, digits, fraction and exponent, and what the parser of
  src/include/io/csv.hpp reads in them.
 */
module WrittenNumbers {
  import opened Basics
  import opened Numbers

  function Tens(n: nat): nat {
    if n == 0 then 1 else 10 * Tens(n - 1)
  }

  lemma {:induction false} PowerIsTens(n: nat)
    ensures Power(10.0, n) == Tens(n) as real && Tens(n) >= 1
  {
    if n > 0 {
      PowerIsTens(n - 1);
    }
  }

  lemma OneMoreDigit(d: int, t: int, m: int, c: int)
    ensures 10 * (d * t + m) + c == d * (10 * t) + (10 * m + c)
  {}

  /** Digits behind other digits. */
  lemma {:induction false} DecimalConcat(s: string, more: string)
    requires AllDigits(s) && AllDigits(more)
    ensures AllDigits(s + more) && Decimal(s + more) == Decimal(s) * Tens(|more|) + Decimal(more)
  {
    if more == "" {
      assert s + more == s;
    } else {
      var init, c := more[..|more| - 1], more[|more| - 1];
      assert more == init + [c] && s + more == (s + init) + [c];
      DecimalConcat(s, init);
      DecimalMeaning(init, c, 0);
      DecimalMeaning(s + init, c, 0);
      OneMoreDigit(Decimal(s), Tens(|init|), Decimal(init), DigitValue(c));
      assert Tens(|more|) == 10 * Tens(|init|);
      hide *;
      assert Decimal(s + more) == 10 * Decimal(s + init) + DigitValue(c);
    }
  }

  // ----- the parts of a number -----

  predicate IsSign(sign: string) {
    sign == "" || sign == "+" || sign == "-"
  }

  predicate NoSign(s: string) {
    s == "" || (s[0] != '+' && s[0] != '-')
  }

  predicate NoDigitFirst(s: string) {
    s == "" || !IsDigit(s[0])
  }

  function Signed(sign: string, n: int): int {
    if sign == "-" then -n else n
  }

  lemma SignRead(sign: string, s: string)
    requires IsSign(sign) && NoSign(s)
    ensures Unsigned(sign + s) == s
    ensures (sign + s != "" && (sign + s)[0] == '-') <==> sign == "-"
  {
    if sign == "" {
      assert sign + s == s;
    } else {
      assert (sign + s)[1..] == s;
    }
  }

  /** The digits of an exponent that fits an int. */
  lemma SignedDigits(sign: string, digits: string)
    requires IsSign(sign) && AllDigits(digits) && Decimal(digits) <= INT32.max
    ensures SignedMeaning(sign + digits, INT32) == Number(Signed(sign, Decimal(digits)))
  {
    hide Decimal, DigitCount, SignedMeaning, UnsignedMeaning;
    DigitsMeaning(digits, INT32);
    PlusMeaning(digits, INT32);
    assert sign == "" ==> sign + digits == digits;
    assert digits != "" ==> IsDigit(digits[0]);
  }

  /** The exponent is missing, or it has a letter, a sign and digits. */
  predicate ExponentOk(letter: string, sign: string, digits: string) {
    && AllDigits(digits) && IsSign(sign) && Decimal(digits) <= 0x7FFF_FFFF
    && (letter == "e" || letter == "E" || (letter == "" && sign == "" && digits == ""))
  }

  lemma ExponentRead(letter: string, sign: string, digits: string)
    requires ExponentOk(letter, sign, digits)
    ensures var part := letter + (sign + digits);
      && Exponent(part) == Some(Signed(sign, Decimal(digits)))
      && (part == "" || part[0] == 'e' || part[0] == 'E')
  {
    var part := letter + (sign + digits);
    if letter == "" {
      assert part == "";
      assert Decimal("") == 0;
    } else {
      assert part[0] == letter[0] && part[1..] == sign + digits;
      SignedDigits(sign, digits);
      hide SignedMeaning, Decimal;
    }
  }

  /** The fraction is missing, or it has a point or a comma and digits. */
  predicate FractionOk(point: string, digits: string) {
    AllDigits(digits) && (point == "." || point == "," || (point == "" && digits == ""))
  }

  lemma FractionRead(point: string, digits: string, rest: string)
    requires FractionOk(point, digits) && NoDigitFirst(rest) && (rest == "" || (rest[0] != '.' && rest[0] != ','))
    ensures var part := point + (digits + rest);
      Fraction(part) == digits && AfterFraction(part) == rest && NoDigitFirst(part)
  {
    var part := point + (digits + rest);
    hide DigitCount, AllDigits;
    if point == "" {
      assert digits + rest == rest && part == rest;
    } else {
      assert part[0] == point[0] && part[1..] == digits + rest;
      DigitsInFront(digits, rest);
      assert part[1 + |digits|..] == part[1..][|digits|..];
    }
  }

  lemma MantissaRead(whole: string, point: string, fraction: string, rest: string)
    requires AllDigits(whole) && FractionOk(point, fraction)
    requires NoDigitFirst(rest) && (rest == "" || (rest[0] != '.' && rest[0] != ','))
    ensures var t := whole + (point + (fraction + rest));
      && Whole(t) == whole && Fraction(t[DigitCount(t)..]) == fraction && ExponentText(t) == rest
  {
    hide DigitCount, Fraction, AfterFraction;
    FractionRead(point, fraction, rest);
    DigitsInFront(whole, point + (fraction + rest));
  }

  function Times(x: real, n: nat): real {
    x * n as real
  }

  lemma {:induction false} ProductAsReal(a: int, b: nat)
    ensures (a * b) as real == a as real * b as real
  {
    if b > 0 {
      ProductAsReal(a, b - 1);
      assert a * b == a * (b - 1) + a;
      assert a as real * b as real == a as real * (b - 1) as real + a as real;
    }
  }

  lemma FractionTimes(w: real, f: real, t: real)
    requires t > 0.0
    ensures (w + f / t) * t == w * t + f && f / t * t == f
  {}

  lemma SumOfParts(m: real, w: nat, f: nat, t: nat, p: real, total: nat)
    requires t >= 1 && p == t as real && m == w as real + f as real / p && total == w * t + f
    ensures Times(m, t) == total as real
  {
    FractionTimes(w as real, f as real, p);
    ProductAsReal(w, t);
  }

  lemma MantissaIs(whole: string, fraction: string)
    requires AllDigits(whole) && AllDigits(fraction)
    ensures Mantissa(whole, fraction) == Decimal(whole) as real + Decimal(fraction) as real / Power(10.0, |fraction|)
  {
    hide Decimal, Power;
  }

  lemma MantissaValue(whole: string, fraction: string)
    requires AllDigits(whole) && AllDigits(fraction)
    ensures AllDigits(whole + fraction)
    ensures Times(Mantissa(whole, fraction), Tens(|fraction|)) == Decimal(whole + fraction) as real
  {
    hide *;
    MantissaIs(whole, fraction);
    DecimalConcat(whole, fraction);
    PowerIsTens(|fraction|);
    SumOfParts(Mantissa(whole, fraction), Decimal(whole), Decimal(fraction), Tens(|fraction|), Power(10.0, |fraction|),
               Decimal(whole + fraction));
  }

  /** Scaling multiplies by ten as often as the exponent says, or divides. */
  lemma ScaledValue(x: real, sign: string, n: nat)
    ensures sign != "-" ==> Scaled(x, Signed(sign, n)) == Times(x, Tens(n))
    ensures sign == "-" ==> Times(Scaled(x, Signed(sign, n)), Tens(n)) == x
  {
    PowerIsTens(n);
    FractionTimes(0.0, 1.0, Tens(n) as real);
    assert x * (1.0 / Tens(n) as real) * Tens(n) as real == x * (1.0 / Tens(n) as real * Tens(n) as real);
    assert Power(10.0, 0) == 1.0;
  }

  function WithSign(sign: string, x: real): real {
    if sign == "-" then -x else x
  }

  lemma TwiceSigned(sign: string, x: real)
    ensures WithSign(sign, WithSign(sign, x)) == x
  {}

  function NumberText(sign: string, whole: string, point: string, fraction: string, letter: string, expSign: string, exponent: string): string {
    sign + (whole + (point + (fraction + (letter + (expSign + exponent)))))
  }

  lemma PartsRead(sign: string, whole: string, point: string, fraction: string, letter: string, expSign: string, exponent: string)
    requires IsSign(sign) && AllDigits(whole) && FractionOk(point, fraction) && ExponentOk(letter, expSign, exponent)
    ensures var value := Scaled(Mantissa(whole, fraction), Signed(expSign, Decimal(exponent)));
      FloatMeaning(sign + (whole + (point + (fraction + (letter + (expSign + exponent))))))
        == Ok(if sign == "-" then -value else value)
  {
    var rest := letter + (expSign + exponent);
    ExponentRead(letter, expSign, exponent);
    NotASign(whole, point, fraction, rest);
    hide Exponent, Decimal, Whole, Fraction, ExponentText, Mantissa, Scaled, DigitCount, AllDigits, Unsigned;
    MantissaRead(whole, point, fraction, rest);
    SignRead(sign, whole + (point + (fraction + rest)));
  }

  lemma ValueRead(sign: string, whole: string, point: string, fraction: string, letter: string, expSign: string, exponent: string)
    requires IsSign(sign) && AllDigits(whole) && FractionOk(point, fraction) && ExponentOk(letter, expSign, exponent)
    ensures var value := Scaled(Mantissa(whole, fraction), Signed(expSign, Decimal(exponent)));
      FloatMeaning(NumberText(sign, whole, point, fraction, letter, expSign, exponent)) == Ok(WithSign(sign, value))
  {
    assert AllDigits(fraction) && AllDigits(exponent);
    var value := Scaled(Mantissa(whole, fraction), Signed(expSign, Decimal(exponent)));
    assert WithSign(sign, value) == if sign == "-" then -value else value;
    assert NumberText(sign, whole, point, fraction, letter, expSign, exponent)
        == sign + (whole + (point + (fraction + (letter + (expSign + exponent)))));
    hide *;
    PartsRead(sign, whole, point, fraction, letter, expSign, exponent);
  }

  /**
    All the digits as one number, divided by ten for each digit of the fraction, and multiplied or
    divided by ten as often as the exponent says.
   */
  predicate StandsFor(size: real, digits: nat, places: nat, expSign: string, exponent: nat) {
    if expSign == "-" then Times(Times(size, Tens(exponent)), Tens(places)) == digits as real
    else Times(size, Tens(places)) == Times(digits as real, Tens(exponent))
  }

  lemma ScaledStandsFor(whole: string, fraction: string, expSign: string, exponent: nat)
    requires AllDigits(whole) && AllDigits(fraction)
    ensures AllDigits(whole + fraction)
    ensures StandsFor(Scaled(Mantissa(whole, fraction), Signed(expSign, exponent)), Decimal(whole + fraction), |fraction|, expSign, exponent)
  {
    hide Decimal, Mantissa, Scaled, Tens, AllDigits, Times, Signed;
    MantissaValue(whole, fraction);
    var m := Mantissa(whole, fraction);
    ScaledValue(m, expSign, exponent);
    Regroup(m, Tens(|fraction|), Tens(exponent));
  }

  lemma Regroup(m: real, f: nat, scale: nat)
    ensures Times(Times(m, scale), f) == Times(Times(m, f), scale)
  {}

  /** A written number is read as what it stands for. */
  lemma WrittenIsRead(sign: string, whole: string, point: string, fraction: string, letter: string, expSign: string, exponent: string)
    requires IsSign(sign) && AllDigits(whole) && FractionOk(point, fraction) && ExponentOk(letter, expSign, exponent)
    ensures AllDigits(whole + fraction)
    ensures var r := FloatMeaning(NumberText(sign, whole, point, fraction, letter, expSign, exponent));
      && r.Ok?
      && StandsFor(WithSign(sign, r.value), Decimal(whole + fraction), |fraction|, expSign, Decimal(exponent))
  {
    assert AllDigits(fraction) && AllDigits(exponent);
    hide *;
    ValueRead(sign, whole, point, fraction, letter, expSign, exponent);
    ScaledStandsFor(whole, fraction, expSign, Decimal(exponent));
    TwiceSigned(sign, Scaled(Mantissa(whole, fraction), Signed(expSign, Decimal(exponent))));
  }

  lemma NotASign(whole: string, point: string, fraction: string, rest: string)
    requires AllDigits(whole) && FractionOk(point, fraction) && (rest == "" || rest[0] == 'e' || rest[0] == 'E')
    ensures NoSign(whole + (point + (fraction + rest)))
  {
    if whole != "" {
      assert (whole + (point + (fraction + rest)))[0] == whole[0];
    } else if point != "" {
      assert (whole + (point + (fraction + rest)))[0] == point[0];
    } else {
      assert whole + (point + (fraction + rest)) == rest;
    }
  }

  /** Anything else behind the digits makes it no number. */
  lemma JunkIsRefused(sign: string, whole: string, point: string, fraction: string, junk: string)
    requires IsSign(sign) && AllDigits(whole) && FractionOk(point, fraction)
    requires junk != "" && !IsDigit(junk[0]) && junk[0] != '.' && junk[0] != ',' && junk[0] != 'e' && junk[0] != 'E'
    requires NoSign(whole + (point + (fraction + junk)))
    ensures FloatMeaning(sign + (whole + (point + (fraction + junk)))) == Err(NoDigit)
  {
    hide Whole, Fraction, ExponentText, Mantissa, Scaled, DigitCount, AllDigits, Unsigned;
    MantissaRead(whole, point, fraction, junk);
    SignRead(sign, whole + (point + (fraction + junk)));
  }

  /** So does anything behind the digits of the exponent. */
  lemma ExponentJunkIsRefused(sign: string, whole: string, point: string, fraction: string, digits: string, junk: string)
    requires IsSign(sign) && AllDigits(whole) && FractionOk(point, fraction)
    requires AllDigits(digits) && Decimal(digits) <= INT32.max && junk != "" && !IsDigit(junk[0]) && NoSign(digits + junk)
    ensures FloatMeaning(sign + (whole + (point + (fraction + ("e" + (digits + junk)))))) == Err(NoDigit)
  {
    var rest := "e" + (digits + junk);
    assert rest[0] == 'e' && rest[1..] == digits + junk;
    NotASign(whole, point, fraction, rest);
    TextMeaning(digits, junk, INT32);
    PlusMeaning(digits + junk, INT32);
    hide Whole, Fraction, ExponentText, Mantissa, Scaled, DigitCount, AllDigits, Unsigned, Decimal, SignedMeaning, UnsignedMeaning;
    MantissaRead(whole, point, fraction, rest);
    SignRead(sign, whole + (point + (fraction + rest)));
  }
}

/** The number parsers of src/include/io/csv.hpp. */
module Numbers {
  import opened Basics

  predicate IsDigit(c: char) {
    '0' <= c <= '9'
  }

  function DigitValue(c: char): int
    requires IsDigit(c)
  {
    c as int - '0' as int
  }

  predicate AllDigits(s: string) {
    forall i :: 0 <= i < |s| ==> IsDigit(s[i])
  }

  /** The number that a string of digits stands for; nothing at all stands for 0. */
  function Decimal(s: string): (n: int)
    requires AllDigits(s)
    ensures n >= 0
  {
    if s == "" then 0 else 10 * Decimal(s[..|s| - 1]) + DigitValue(s[|s| - 1])
  }

  /** How many digits the text begins with. */
  function DigitCount(s: string): (n: nat)
    ensures n <= |s| && AllDigits(s[..n]) && (n < |s| ==> !IsDigit(s[n]))
  {
    if s == "" || !IsDigit(s[0]) then 0
    else
      var n := 1 + DigitCount(s[1..]);
      assert forall i :: 1 <= i < n ==> s[..n][i] == s[1..][..n - 1][i - 1];
      n
  }

  datatype NumberError = NoDigit | IntegerOverflow | IntegerUnderflow

  datatype OverflowPolicy = ThrowOnOverflow | IgnoreOverflow | SetToMaxOnOverflow

  /** The limits of an integer type. */
  datatype IntType = IntType(min: int, max: int)

  predicate IntTypeOk(t: IntType) {
    t.max >= 127 && (t.min == 0 || t.min == -t.max - 1)
  }

  // ----- what parsing a number means -----

  /** Some prefix of the digits goes beyond a bound: then all of them do. */
  lemma {:induction false} DecimalGrows(s: string, n: nat)
    requires AllDigits(s) && n <= |s|
    ensures Decimal(s[..n]) <= Decimal(s)
  {
    if n < |s| {
      assert s[..|s| - 1][..n] == s[..n];
      DecimalGrows(s[..|s| - 1], n);
    } else {
      assert s[..n] == s;
    }
  }

  /** What a text means for an integer type: a number, a number out of range, or no number. */
  datatype Parsed = Number(value: int) | Above | Below | Bad

  /** Out of range as soon as the digits read so far exceed the limit, even if something else follows. */
  function UnsignedMeaning(s: string, t: IntType): (p: Parsed)
    ensures p.Number? ==> 0 <= p.value <= t.max
  {
    var n := DigitCount(s);
    if Decimal(s[..n]) > t.max then Above
    else if n < |s| then Bad
    else Number(Decimal(s[..n]))
  }

  function NegativeMeaning(s: string, t: IntType): Parsed {
    var n := DigitCount(s);
    if -Decimal(s[..n]) < t.min then Below
    else if n < |s| then Bad
    else Number(-Decimal(s[..n]))
  }

  function SignedMeaning(s: string, t: IntType): Parsed {
    if s != "" && s[0] == '-' then NegativeMeaning(s[1..], t)
    else if s != "" && s[0] == '+' then UnsignedMeaning(s[1..], t)
    else UnsignedMeaning(s, t)
  }

  /** A string of digits gives its value when it fits, however many leading zeros it has. */
  lemma DigitsMeaning(s: string, t: IntType)
    requires AllDigits(s)
    ensures UnsignedMeaning(s, t) == if Decimal(s) <= t.max then Number(Decimal(s)) else Above
    ensures SignedMeaning("-" + s, t) == if -Decimal(s) >= t.min then Number(-Decimal(s)) else Below
  {
    assert s[..|s|] == s && ("-" + s)[1..] == s;
  }

  /** What a parser answers under a policy. When range errors are ignored, the digits read before are left. */
  predicate Answers(r: Result<int, NumberError>, p: Parsed, s: string, t: IntType, policy: OverflowPolicy) {
    match p
    case Number(v) => r == Ok(v)
    case Bad => r == Err(NoDigit)
    case _ =>
      match policy
      case ThrowOnOverflow => r == Err(if p.Above? then IntegerOverflow else IntegerUnderflow)
      case SetToMaxOnOverflow => r == Ok(if p.Above? then t.max else t.min)
      case IgnoreOverflow => r.Ok? && if p.Above? then StopsAt(s, t.max, r.value) else StopsAt(s, -t.min, -r.value)
  }

  /** The value is that of the digits up to the first one that would lead beyond the limit. */
  predicate StopsAt(s: string, limit: int, value: int) {
    exists k :: 0 <= k < DigitCount(s) && value == DigitsValue(s, k) <= limit < DigitsValue(s, k + 1)
  }

  /** The value of the first digits of the text. */
  function DigitsValue(s: string, k: nat): int
    requires k <= DigitCount(s)
  {
    Decimal(s[..DigitCount(s)][..k])
  }

  lemma DigitsValueGrows(s: string, j: nat, k: nat)
    requires j <= k <= DigitCount(s)
    ensures DigitsValue(s, j) <= DigitsValue(s, k)
  {
    var first := s[..DigitCount(s)][..k];
    assert first[..j] == s[..DigitCount(s)][..j];
    DecimalGrows(first, j);
  }

  /** There is only one such value, so a parser that ignores range errors has one answer. */
  lemma StopsAtUnique(s: string, limit: int, v: int, w: int)
    requires StopsAt(s, limit, v) && StopsAt(s, limit, w)
    ensures v == w
  {
    hide DigitsValue;
    var j :| 0 <= j < DigitCount(s) && v == DigitsValue(s, j) <= limit < DigitsValue(s, j + 1);
    var k :| 0 <= k < DigitCount(s) && w == DigitsValue(s, k) <= limit < DigitsValue(s, k + 1);
    if j < k {
      DigitsValueGrows(s, j + 1, k);
    } else if k < j {
      DigitsValueGrows(s, k + 1, j);
    }
  }

  /** One more digit. */
  lemma NextDigit(s: string, i: nat)
    requires i < |s| && i <= DigitCount(s)
    ensures IsDigit(s[i]) <==> i < DigitCount(s)
    ensures AllDigits(s[..i])
    ensures i < DigitCount(s) ==> AllDigits(s[..i + 1]) && Decimal(s[..i + 1]) == 10 * Decimal(s[..i]) + DigitValue(s[i])
    ensures i < DigitCount(s) ==> Decimal(s[..i + 1]) <= Decimal(s[..DigitCount(s)])
    ensures s[..DigitCount(s)][..i] == s[..i]
  {
    hide DigitCount, Decimal;
    DigitsPrefix(s, i);
    if i < DigitCount(s) {
      DigitsPrefix(s, i + 1);
      AppendDigit(s, i);
      DecimalGrows(s[..DigitCount(s)], i + 1);
    }
  }

  lemma DigitsPrefix(s: string, i: nat)
    requires i <= DigitCount(s)
    ensures AllDigits(s[..i]) && s[..DigitCount(s)][..i] == s[..i]
    ensures i < DigitCount(s) ==> IsDigit(s[i])
  {
    hide DigitCount;
    var digits := s[..DigitCount(s)];
    assert forall k :: 0 <= k < |digits| ==> s[k] == digits[k];
  }

  lemma AppendDigit(s: string, i: nat)
    requires i < |s| && AllDigits(s[..i]) && IsDigit(s[i])
    ensures AllDigits(s[..i + 1]) && Decimal(s[..i + 1]) == 10 * Decimal(s[..i]) + DigitValue(s[i])
  {
    assert s[..i + 1][..i] == s[..i];
  }

  // ----- writing numbers -----

  function ToDecimal(n: nat): string {
    if n < 10 then [Digit(n)] else ToDecimal(n / 10) + [Digit(n % 10)]
  }

  function Digit(n: nat): (c: char)
    requires n < 10
    ensures IsDigit(c) && DigitValue(c) == n
  {
    ('0' as int + n) as char
  }

  lemma {:induction false} DecimalRoundTrip(n: nat)
    ensures ToDecimal(n) != "" && AllDigits(ToDecimal(n)) && Decimal(ToDecimal(n)) == n
  {
    if n >= 10 {
      DecimalRoundTrip(n / 10);
      var s := ToDecimal(n);
      assert s[..|s| - 1] == ToDecimal(n / 10);
    }
  }

  /** The ten digits, and what one more of them does to a number. */
  lemma DecimalMeaning(s: string, c: char, i: nat)
    requires AllDigits(s)
    ensures i < 10 ==> IsDigit("0123456789"[i]) && DigitValue("0123456789"[i]) == i
    ensures IsDigit(c) ==> 0 <= DigitValue(c) < 10 && "0123456789"[DigitValue(c)] == c
    ensures IsDigit(c) ==> Decimal(s + [c]) == 10 * Decimal(s) + DigitValue(c)
    ensures Decimal("") == 0
  {
    assert (s + [c])[..|s|] == s;
  }

  lemma {:induction false} DigitCountIs(s: string, n: nat)
    requires n <= |s| && AllDigits(s[..n]) && (n < |s| ==> !IsDigit(s[n]))
    ensures DigitCount(s) == n
  {
    if n > 0 {
      assert s[0] == s[..n][0];
      assert s[1..][..n - 1] == s[..n][1..];
      DigitCountIs(s[1..], n - 1);
    }
  }

  /** Digits in front of something else. */
  lemma DigitsInFront(digits: string, rest: string)
    requires AllDigits(digits) && (rest == "" || !IsDigit(rest[0]))
    ensures DigitCount(digits + rest) == |digits|
    ensures (digits + rest)[..|digits|] == digits && (digits + rest)[|digits|..] == rest
  {
    assert (digits + rest)[..|digits|] == digits;
    DigitCountIs(digits + rest, |digits|);
  }

  /** Something that is no digit makes a text no number, unless the digits before it are out of range already. */
  lemma TextMeaning(digits: string, rest: string, t: IntType)
    requires AllDigits(digits) && rest != "" && !IsDigit(rest[0])
    ensures UnsignedMeaning(digits + rest, t) == if Decimal(digits) > t.max then Above else Bad
    ensures SignedMeaning("-" + (digits + rest), t) == if -Decimal(digits) < t.min then Below else Bad
  {
    DigitsInFront(digits, rest);
    assert ("-" + (digits + rest))[1..] == digits + rest;
  }

  /** A plus sign changes nothing, and neither does its absence. */
  lemma PlusMeaning(s: string, t: IntType)
    ensures SignedMeaning("+" + s, t) == UnsignedMeaning(s, t)
    ensures s == "" || s[0] !in "+-" ==> SignedMeaning(s, t) == UnsignedMeaning(s, t)
  {
    assert ("+" + s)[1..] == s;
  }

  // ----- the parsers -----

  method ParseUnsignedInteger(s: string, t: IntType, policy: OverflowPolicy) returns (r: Result<int, NumberError>)
    requires IntTypeOk(t)
    ensures Answers(r, UnsignedMeaning(s, t), s, t, policy)
  {
    assert s[..0] == "" && Decimal("") == 0;
    hide DigitCount, Decimal, StopsAt;
    var x := 0;
    var i := 0;
    while i < |s|
      invariant i <= DigitCount(s) && AllDigits(s[..i]) && x == Decimal(s[..i]) && x <= t.max
    {
      NextDigit(s, i);
      if IsDigit(s[i]) {
        var y := DigitValue(s[i]);
        if x > TruncDiv(t.max - y, 10) {
          match policy
          case ThrowOnOverflow => return Err(IntegerOverflow);
          case SetToMaxOnOverflow => return Ok(t.max);
          case IgnoreOverflow =>
            StopsHere(s, t.max, i);
            return Ok(x);
        }
        x := 10 * x + y;
      } else {
        return Err(NoDigit);
      }
      i := i + 1;
    }
    assert s[..|s|] == s;
    r := Ok(x);
  }

  lemma StopsHere(s: string, limit: int, i: nat)
    requires i < DigitCount(s) && AllDigits(s[..i]) && AllDigits(s[..i + 1])
    requires Decimal(s[..i]) <= limit < Decimal(s[..i + 1])
    ensures StopsAt(s, limit, Decimal(s[..i]))
  {
    assert s[..DigitCount(s)][..i] == s[..i] && s[..DigitCount(s)][..i + 1] == s[..i + 1];
    assert DigitsValue(s, i) <= limit < DigitsValue(s, i + 1);
  }

  method ParseSignedInteger(s: string, t: IntType, policy: OverflowPolicy) returns (r: Result<int, NumberError>)
    requires IntTypeOk(t) && t.min < 0
    ensures Answers(r, SignedMeaning(s, t), if s != "" && s[0] in "+-" then s[1..] else s, t, policy)
  {
    if s != "" && s[0] == '-' {
      r := ParseNegative(s[1..], t, policy);
    } else if s != "" && s[0] == '+' {
      r := ParseUnsignedInteger(s[1..], t, policy);
    } else {
      r := ParseUnsignedInteger(s, t, policy);
    }
  }

  method ParseNegative(s: string, t: IntType, policy: OverflowPolicy) returns (r: Result<int, NumberError>)
    requires IntTypeOk(t) && t.min < 0
    ensures Answers(r, NegativeMeaning(s, t), s, t, policy)
  {
    assert s[..0] == "" && Decimal("") == 0;
    hide DigitCount, Decimal, StopsAt;
    var x := 0;
    var i := 0;
    while i < |s|
      invariant i <= DigitCount(s) && AllDigits(s[..i]) && x == -Decimal(s[..i]) && x >= t.min
    {
      NextDigit(s, i);
      if IsDigit(s[i]) {
        var y := DigitValue(s[i]);
        if x < TruncDiv(t.min + y, 10) {
          match policy
          case ThrowOnOverflow => return Err(IntegerUnderflow);
          case SetToMaxOnOverflow => return Ok(t.min);
          case IgnoreOverflow =>
            StopsHere(s, -t.min, i);
            return Ok(x);
        }
        x := 10 * x - y;
      } else {
        return Err(NoDigit);
      }
      i := i + 1;
    }
    assert s[..|s|] == s;
    r := Ok(x);
  }

  // ----- floating point numbers, over the reals -----

  const INT32 := IntType(-0x8000_0000, 0x7FFF_FFFF)

  function Power(base: real, e: nat): (p: real)
    ensures base > 0.0 ==> p > 0.0
  {
    if e == 0 then 1.0 else base * Power(base, e - 1)
  }

  /** The power of ten, for exponents of either sign. */
  function PowerOfTen(e: int): real {
    if e >= 0 then Power(10.0, e) else 1.0 / Power(10.0, -e)
  }

  function Scaled(x: real, exponent: int): real {
    x * PowerOfTen(exponent)
  }

  /** The worth of a digit `i` places behind the decimal point, and of `i` digits there. */
  function Place(i: nat): real {
    1.0 / Power(10.0, i)
  }

  function Behind(n: int, i: nat): real {
    n as real / Power(10.0, i)
  }

  /** Digits, and digits after the decimal point. */
  function Mantissa(whole: string, fraction: string): real
    requires AllDigits(whole) && AllDigits(fraction)
  {
    Decimal(whole) as real + Behind(Decimal(fraction), |fraction|)
  }

  /** The text without its sign. */
  function Unsigned(s: string): string {
    if s != "" && (s[0] == '-' || s[0] == '+') then s[1..] else s
  }

  function Whole(s: string): string {
    s[..DigitCount(s)]
  }

  /** The digits behind the point or comma, if there is one. */
  function Fraction(s: string): string {
    if HasPoint(s) then s[1..][..DigitCount(s[1..])] else ""
  }

  predicate HasPoint(s: string) {
    s != "" && (s[0] == '.' || s[0] == ',')
  }

  function AfterFraction(s: string): string {
    if HasPoint(s) then s[1 + DigitCount(s[1..])..] else s
  }

  function ExponentText(s: string): string {
    AfterFraction(s[DigitCount(s)..])
  }

  /** The exponent, kept inside the range of an int. */
  function Exponent(s: string): Option<int> {
    if s == "" then Some(0)
    else if s[0] != 'e' && s[0] != 'E' then None
    else match SignedMeaning(s[1..], INT32)
      case Number(v) => Some(v)
      case Above => Some(INT32.max)
      case Below => Some(INT32.min)
      case Bad => None
  }

  /** The number in decimal notation: sign, digits, fraction, exponent. */
  function FloatMeaning(s: string): Result<real, NumberError> {
    var t := Unsigned(s);
    match Exponent(ExponentText(t))
    case None => Err(NoDigit)
    case Some(e) =>
      var value := Scaled(Mantissa(Whole(t), Fraction(t[DigitCount(t)..])), e);
      Ok(if s != "" && s[0] == '-' then -value else value)
  }

  // ----- the parser of floating point numbers -----

  lemma {:induction false} PowerOfSquare(base: real, k: nat)
    ensures Power(base * base, k) == Power(base, 2 * k)
  {
    if k > 0 {
      PowerOfSquare(base, k - 1);
      assert Power(base, 2 * k) == base * (base * Power(base, 2 * k - 2));
    }
  }

  /** Square and multiply: x times the e-th power of the base. */
  method Scale(x0: real, base0: real, e0: nat) returns (x: real)
    requires e0 >= 1
    ensures x == x0 * Power(base0, e0)
  {
    var base, e := base0, e0;
    x := x0;
    while e != 1
      invariant e >= 1 && x * Power(base, e) == x0 * Power(base0, e0)
      decreases e
    {
      if e % 2 == 0 {
        PowerOfSquare(base, e / 2);
        base := base * base;
        e := e / 2;
      } else {
        assert x * Power(base, e) == (x * base) * Power(base, e - 1);
        x := x * base;
        e := e - 1;
      }
    }
    assert Power(base, 1) == base * Power(base, 0);
    x := x * base;
  }

  lemma {:induction false} TenthPower(n: nat)
    ensures Power(0.1, n) == 1.0 / Power(10.0, n)
  {
    if n > 0 {
      TenthPower(n - 1);
      TenthOf(Power(10.0, n - 1));
    }
  }

  lemma TenthOf(p: real)
    requires p > 0.0
    ensures 0.1 * (1.0 / p) == 1.0 / (10.0 * p)
  {}

  method ScaleByTen(x0: real, exponent: int) returns (x: real)
    ensures x == Scaled(x0, exponent)
  {
    hide Power;
    var e := exponent;
    x := x0;
    if e != 0 {
      var base;
      if e < 0 {
        base := 0.1;
        e := -e;
        TenthPower(e);
      } else {
        base := 10.0;
      }
      x := Scale(x, base, e);
    } else {
      PowerZero(10.0);
    }
  }

  lemma PowerZero(base: real)
    ensures Power(base, 0) == 1.0
  {}

  method ReadWhole(s: string) returns (x: real, i: nat)
    ensures i == DigitCount(s) && x == Decimal(s[..i]) as real
  {
    assert s[..0] == "" && Decimal("") == 0;
    hide DigitCount, Decimal;
    x, i := 0.0, 0;
    while i < |s| && IsDigit(s[i])
      invariant i <= DigitCount(s) && AllDigits(s[..i]) && x == Decimal(s[..i]) as real
    {
      NextDigit(s, i);
      x := x * 10.0;
      x := x + DigitValue(s[i]) as real;
      i := i + 1;
    }
    if i < |s| {
      NextDigit(s, i);
    }
  }

  /** Adds digits behind the decimal point, each worth a tenth of the one before. */
  method AddFraction(s: string, x0: real) returns (x: real, i: nat)
    ensures i == DigitCount(s) && x == x0 + Behind(Decimal(s[..i]), i)
  {
    assert s[..0] == "" && Decimal("") == 0 && Place(0) == 1.0 && Behind(0, 0) == 0.0;
    hide DigitCount, Decimal, Place, Behind;
    var pos := 1.0;
    x, i := x0, 0;
    while i < |s| && IsDigit(s[i])
      invariant i <= DigitCount(s) && AllDigits(s[..i])
      invariant pos == Place(i) && x == x0 + Behind(Decimal(s[..i]), i)
    {
      NextDigit(s, i);
      x, pos := AddDigit(x, pos, DigitValue(s[i]), x0, Decimal(s[..i]), i);
      i := i + 1;
    }
    if i < |s| {
      NextDigit(s, i);
    }
  }

  method AddDigit(x: real, pos: real, y: int, ghost x0: real, ghost n: int, ghost i: nat) returns (x': real, pos': real)
    requires pos == Place(i) && x == x0 + Behind(n, i)
    ensures pos' == Place(i + 1) && x' == x0 + Behind(10 * n + y, i + 1)
  {
    AppendFraction(n, y, i);
    hide Place, Behind;
    pos' := pos / 10.0;
    x' := x + y as real * pos';
  }

  lemma AppendFraction(n: int, y: int, i: nat)
    ensures Place(i) / 10.0 == Place(i + 1)
    ensures Behind(10 * n + y, i + 1) == Behind(n, i) + y as real * Place(i + 1)
  {}

  method ReadMantissa(t: string) returns (x: real, rest: string)
    ensures x == Mantissa(Whole(t), Fraction(t[DigitCount(t)..])) && rest == ExponentText(t)
  {
    assert Behind(Decimal(""), 0) == 0.0;
    hide DigitCount, Decimal, Behind;
    var i;
    x, i := ReadWhole(t);
    rest := t[i..];
    if rest != "" && (rest[0] == '.' || rest[0] == ',') {
      var n;
      x, n := AddFraction(rest[1..], x);
      rest := rest[1 + n..];
    }
  }

  /**
    The exponent must not be the least int, whose negation has no value in C++. Larger exponents
    in size than an int holds are read as the nearest int.
   */
  method ParseFloat(s: string) returns (r: Result<real, NumberError>)
    requires Exponent(ExponentText(Unsigned(s))) != Some(INT32.min)
    ensures r == FloatMeaning(s)
  {
    hide DigitCount, Decimal, SignedMeaning, Mantissa, Scaled, ExponentText;
    var isNeg := s != "" && s[0] == '-';
    var t := if s != "" && (s[0] == '-' || s[0] == '+') then s[1..] else s;
    var x, rest := ReadMantissa(t);
    if rest != "" && (rest[0] == 'e' || rest[0] == 'E') {
      var exponent := ParseSignedInteger(rest[1..], INT32, SetToMaxOnOverflow);
      if exponent.Err? {
        return Err(exponent.error);
      }
      x := ScaleByTen(x, exponent.value);
    } else if rest != "" {
      return Err(NoDigit);
    } else {
      ScaledByZero(x);
    }
    r := Ok(if isNeg then -x else x);
  }

  lemma ScaledByZero(x: real)
    ensures Scaled(x, 0) == x
  {}
}

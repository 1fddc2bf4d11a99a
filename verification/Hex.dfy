/** Bytes as hexadecimal text and back (src/jutta_bt_proto/Utils.cpp). */
module Hex {
  import opened Basics

  const HEX_CHARS: string := "0123456789ABCDEF"

  // ----- what the conversions mean -----

  function HexChar(n: int): char
    requires 0 <= n < 16
  {
    HEX_CHARS[n]
  }

  /** std::toupper in the C locale. */
  function Upper(c: char): char {
    if 'a' <= c <= 'z' then (c as int - 32) as char else c
  }

  predicate IsHexDigit(c: char) {
    '0' <= c <= '9' || 'A' <= c <= 'F' || 'a' <= c <= 'f'
  }

  function HexValue(c: char): (n: int)
    requires IsHexDigit(c)
    ensures 0 <= n < 16
  {
    var u := Upper(c);
    if '0' <= u <= '9' then u as int - '0' as int else u as int - 'A' as int + 10
  }

  /** Two digits for each byte, high digit first. */
  function ToHex(data: seq<Byte>): (s: string)
    ensures |s| == 2 * |data|
  {
    seq(2 * |data|, i requires 0 <= i < 2 * |data| => HexChar(if i % 2 == 0 then data[i / 2] / 16 else data[i / 2] % 16))
  }

  predicate IsHex(s: string) {
    |s| % 2 == 0 && forall i :: 0 <= i < |s| ==> IsHexDigit(s[i])
  }

  function ByteAt(s: string, i: int): Byte
    requires 0 <= 2 * i && 2 * i + 1 < |s| && IsHexDigit(s[2 * i]) && IsHexDigit(s[2 * i + 1])
  {
    16 * HexValue(s[2 * i]) + HexValue(s[2 * i + 1])
  }

  function FromHex(s: string): (data: seq<Byte>)
    requires IsHex(s)
    ensures |data| == |s| / 2
  {
    seq(|s| / 2, i requires 0 <= i < |s| / 2 => ByteAt(s, i))
  }

  lemma HexDigits(n: int)
    requires 0 <= n < 16
    ensures IsHexDigit(HexChar(n)) && HexValue(HexChar(n)) == n
  {}

  lemma HexValues(c: char)
    requires IsHexDigit(c)
    ensures HexChar(HexValue(c)) == Upper(c)
  {}

  /** Bytes written as text are read back. */
  lemma BytesRoundTrip(data: seq<Byte>)
    ensures IsHex(ToHex(data)) && FromHex(ToHex(data)) == data
  {
    hide HexChar, HexValue, IsHexDigit;
    var s := ToHex(data);
    forall i | 0 <= i < |s|
      ensures IsHexDigit(s[i])
    {
      HexDigits(if i % 2 == 0 then data[i / 2] / 16 else data[i / 2] % 16);
    }
    forall i | 0 <= i < |data|
      ensures ByteAt(s, i) == data[i]
    {
      assert s[2 * i] == HexChar(data[i] / 16) && s[2 * i + 1] == HexChar(data[i] % 16);
      HexDigits(data[i] / 16);
      HexDigits(data[i] % 16);
    }
  }

  /** Text that is read and written again comes back in upper case. */
  lemma TextRoundTrip(s: string)
    requires IsHex(s)
    ensures ToHex(FromHex(s)) == seq(|s|, i requires 0 <= i < |s| => Upper(s[i]))
  {
    hide HexChar, HexValue, IsHexDigit, Upper;
    var data := FromHex(s);
    forall i | 0 <= i < |s|
      ensures ToHex(data)[i] == Upper(s[i])
    {
      assert data[i / 2] == ByteAt(s, i / 2);
      HexValues(s[i]);
    }
  }

  const UPPER_DIGITS: string := "0123456789ABCDEF"
  const LOWER_DIGITS: string := "0123456789abcdef"

  /** Two digits, of either case, are one byte, the first of them the high one. */
  lemma TwoDigitsMeaning(i: nat, j: nat)
    requires i < 16 && j < 16
    ensures var s, t := [UPPER_DIGITS[i], LOWER_DIGITS[j]], [LOWER_DIGITS[i], UPPER_DIGITS[j]];
      IsHex(s) && FromHex(s) == [16 * i + j] && IsHex(t) && FromHex(t) == [16 * i + j]
  {
    DigitMeaning(i);
    DigitMeaning(j);
    hide HexValue, IsHexDigit;
  }

  /** The digits that a byte is written with. */
  lemma WrittenByte(i: nat, j: nat)
    requires i < 16 && j < 16
    ensures ToHex([16 * i + j]) == [UPPER_DIGITS[i], UPPER_DIGITS[j]]
  {
    var b: Byte := 16 * i + j;
    OneByte(b);
    assert b / 16 == i && b % 16 == j;
    hide HexChar, ToHex;
    SameDigit(i);
    SameDigit(j);
  }

  lemma OneByte(b: Byte)
    ensures ToHex([b]) == [HexChar(b / 16), HexChar(b % 16)]
  {
    hide HexChar;
  }

  lemma SameDigit(i: nat)
    requires i < 16
    ensures HexChar(i) == UPPER_DIGITS[i]
  {}

  /** Nothing else is a digit. */
  lemma OnlyTheseDigits(c: char)
    requires IsHexDigit(c)
    ensures c == UPPER_DIGITS[HexValue(c)] || c == LOWER_DIGITS[HexValue(c)]
  {
    HexValues(c);
    assert HEX_CHARS == UPPER_DIGITS;
    assert 'a' <= c <= 'f' ==> LOWER_DIGITS[c as int - 'a' as int + 10] == c;
  }

  lemma DigitMeaning(i: nat)
    requires i < 16
    ensures IsHexDigit(UPPER_DIGITS[i]) && HexValue(UPPER_DIGITS[i]) == i
    ensures IsHexDigit(LOWER_DIGITS[i]) && HexValue(LOWER_DIGITS[i]) == i
  {}

  lemma FromHexAppend(s: string, t: string)
    requires IsHex(s) && IsHex(t)
    ensures IsHex(s + t) && FromHex(s + t) == FromHex(s) + FromHex(t)
  {}

  // ----- the code -----

  method ToHexString(data: seq<Byte>) returns (s: string)
    ensures s == ToHex(data)
  {
    hide HexChar;
    var result := new char[2 * |data|];
    for i := 0 to |data|
      invariant forall k :: 0 <= k < 2 * i ==> result[k] == ToHex(data)[k]
    {
      result[2 * i] := HexChar(data[i] / 16);
      result[2 * i + 1] := HexChar(data[i] % 16);
    }
    s := result[..];
  }

  /** The value of a digit; None stands for the failing assertion. */
  function GetHexCharVal(c: char): (r: Option<Byte>)
    ensures r == if IsHexDigit(c) then Some(HexValue(c)) else None
  {
    var u := Upper(c) as int;
    if 0x30 <= u <= 0x39 then Some(u - 0x30)
    else if 0x41 <= u <= 0x46 then Some(u - 0x41 + 10)
    else None
  }

  /** Fails an assertion exactly when the text is not pairs of digits: past the end, a string shows a NUL. */
  method FromHexString(hex: string) returns (r: Option<seq<Byte>>)
    ensures r == if IsHex(hex) then Some(FromHex(hex)) else None
  {
    assert !IsHexDigit('\0');
    hide HexValue, IsHexDigit, Upper, GetHexCharVal;
    var result := new Byte[|hex| / 2];
    var i := 0;
    while i < |hex|
      invariant i <= |hex| && i % 2 == 0
      invariant forall k :: 0 <= k < i ==> IsHexDigit(hex[k])
      invariant forall k :: 0 <= k < i / 2 ==> result[k] == ByteAt(hex, k)
    {
      var high := GetHexCharVal(hex[i]);
      if high.None? {
        return None;
      }
      var low := GetHexCharVal(if i + 1 < |hex| then hex[i + 1] else '\0');
      if low.None? {
        return None;
      }
      assert i + 1 < |hex|;
      result[i / 2] := 16 * high.value + low.value;
      i := i + 2;
    }
    assert result[..] == FromHex(hex);
    r := Some(result[..]);
  }
}

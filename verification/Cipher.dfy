/**
  The obfuscation cipher of src/bt/ByteEncDecoder.cpp: every nibble of a frame goes through a
  substitution that depends on its position and on the key.

  The substitution is read here as arithmetic modulo 16: shift, look up in the first table, shift,
  look up in the second table, and undo the outer three steps. Both tables are involutions, so the
  whole substitution is a conjugate of an involution and undoes itself.
 */
module Cipher {
  import opened Basics

  const NUMBERS1: seq<int> := [14, 4, 3, 2, 1, 13, 8, 11, 6, 15, 12, 7, 10, 5, 0, 9]
  const NUMBERS2: seq<int> := [10, 6, 13, 12, 14, 11, 1, 9, 15, 7, 0, 5, 3, 2, 4, 8]

  type Nibble = x: int | 0 <= x < 16

  function Table1(x: int): Nibble { NUMBERS1[x % 16] }

  function Table2(x: int): Nibble { NUMBERS2[x % 16] }

  /** The substitution of a nibble, conjugating the second table by two shifts and the first table. */
  function Conjugate(x: int, outer: int, inner: int): Nibble {
    Minus(Table1(Table2(Table1(x + outer) + inner) - inner), outer)
  }

  function Minus(x: int, shift: int): Nibble { (x - shift) % 16 }

  /** The outer shift applied to the nibble number `count`. */
  function OuterShift(count: nat, key: Byte): int { count + key / 16 }

  function InnerShift(count: nat, key: Byte): int { key % 16 + count / 16 - OuterShift(count, key) }

  function CryptNibble(x: Nibble, count: nat, key: Byte): Nibble {
    Conjugate(x, OuterShift(count, key), InnerShift(count, key))
  }

  function CryptByte(d: Byte, offset: nat, key: Byte): Byte {
    16 * CryptNibble(d / 16, 2 * offset, key) + CryptNibble(d % 16, 2 * offset + 1, key)
  }

  function Crypt(data: seq<Byte>, key: Byte): (r: seq<Byte>)
    ensures |r| == |data|
  {
    seq(|data|, i requires 0 <= i < |data| => CryptByte(data[i], i, key))
  }

  lemma Reduced(u: int, v: int, k: int)
    requires u == (v + 256 * k) % 256
    ensures u % 16 == v % 16
  {
    var m := (v + 256 * k) / 256;
    assert v == u + 16 * (16 * (m - k));
  }

  /** The tables and the last reduction see neither multiples of 256 nor a reduction modulo 256. */
  lemma ReadsAlike(u: int, v: int, k: int)
    requires u == (v + 256 * k) % 256
    ensures Table1(u) == Table1(v) && Table2(u) == Table2(v) && u % 16 == v % 16
  {
    hide Table1, Table2;
    Reduced(u, v, k);
    TablesReadMod16(u, v);
  }

  // ----- the code, as loops -----

  method Mod256(value: int) returns (r: Byte)
    ensures r == value % 256
  {
    var i := value;
    while i > 255
      invariant i % 256 == value % 256
    {
      i := i - 256;
    }
    while i < 0
      invariant i <= 255 && i % 256 == value % 256
    {
      i := i + 256;
    }
    r := i;
  }

  method Shuffle(dataNibble: Nibble, nibbleCount: nat, keyLeft: Nibble, keyRight: Nibble)
    returns (r: Nibble)
    ensures r == CryptNibble(dataNibble, nibbleCount, 16 * keyLeft + keyRight)
  {
    hide Table1, Table2;
    ghost var key: Byte := 16 * keyLeft + keyRight;
    assert key / 16 == keyLeft && key % 16 == keyRight;
    ghost var outer, inner := OuterShift(nibbleCount, key), InnerShift(nibbleCount, key);
    var i5 := Mod256(nibbleCount / 16);
    ghost var k := nibbleCount / 16 / 256;
    assert i5 == nibbleCount / 16 - 256 * k;
    assert outer == nibbleCount + keyLeft && inner == keyRight + nibbleCount / 16 - outer;
    hide OuterShift, InnerShift;
    var index1 := Mod256(dataNibble + nibbleCount + keyLeft);
    ReadsAlike(index1, dataNibble + outer, 0);
    var tmp1 := Table1(index1);
    var index2 := Mod256(tmp1 + keyRight + i5 - nibbleCount - keyLeft);
    ReadsAlike(index2, tmp1 + inner, -k);
    var tmp2 := Table2(index2);
    var index3 := Mod256(tmp2 + keyLeft + nibbleCount - keyRight - i5);
    ReadsAlike(index3, tmp2 - inner, k);
    var tmp3 := Table1(index3);
    var last := Mod256(tmp3 - nibbleCount - keyLeft);
    ReadsAlike(last, tmp3 - outer, 0);
    r := last % 16;
  }

  method EncDecBytes(data: seq<Byte>, key: Byte) returns (r: seq<Byte>)
    ensures r == Crypt(data, key)
  {
    hide CryptNibble;
    var result := new Byte[|data|];
    var keyLeft := key / 16;
    var keyRight := key % 16;
    var nibbleCount := 0;
    for offset := 0 to |data|
      invariant nibbleCount == 2 * offset
      invariant forall i :: 0 <= i < offset ==> result[i] == CryptByte(data[i], i, key)
    {
      var left: int := Shuffle(data[offset] / 16, nibbleCount, keyLeft, keyRight);
      var right: int := Shuffle(data[offset] % 16, nibbleCount + 1, keyLeft, keyRight);
      nibbleCount := nibbleCount + 2;
      result[offset] := 16 * left + right;
    }
    r := result[..];
  }

  // ----- why the cipher undoes itself -----

  lemma Table1Involution(x: int)
    ensures Table1(Table1(x)) == x % 16
  {}

  lemma Table2Involution(x: int)
    ensures Table2(Table2(x)) == x % 16 && Table2(x) != x % 16
  {}

  lemma TablesReadMod16(u: int, v: int)
    requires u % 16 == v % 16
    ensures Table1(u) == Table1(v) && Table2(u) == Table2(v)
  {}

  lemma ShiftBack(c: int, shift: int)
    ensures ((c - shift) % 16 + shift) % 16 == c % 16
  {}

  /** Going back through a table and the shift in front of it. */
  lemma BackThrough1(v: int, back: int, shift: int)
    ensures Table1(Minus(Table1(v - back), shift) + shift) == Minus(v, back)
  {
    ShiftBack(Table1(v - back), shift);
    TablesReadMod16(Minus(Table1(v - back), shift) + shift, Table1(v - back));
    Table1Involution(v - back);
    hide Table1, Table2;
  }

  lemma BackThrough2(v: int, back: int, shift: int)
    ensures Table2(Minus(Table2(v - back), shift) + shift) == Minus(v, back)
  {
    ShiftBack(Table2(v - back), shift);
    TablesReadMod16(Minus(Table2(v - back), shift) + shift, Table2(v - back));
    Table2Involution(v - back);
    hide Table1, Table2;
  }

  lemma NeverTheSame(a: Nibble, shift: int)
    ensures Minus(Table2(a + shift), shift) != a
  {
    Table2Involution(a + shift);
    ShiftBack(Table2(a + shift), shift);
    hide Table2;
  }

  lemma ConjugateInvolution(x: Nibble, outer: int, inner: int)
    ensures Conjugate(Conjugate(x, outer, inner), outer, inner) == x
    ensures Conjugate(x, outer, inner) != x
  {
    MinusBack(x, outer);
    hide Table1, Table2, Minus;
    var a := Table1(x + outer);
    var b := Table2(a + inner);
    var y := Minus(Table1(b - inner), outer);
    BackThrough1(b, inner, outer);
    BackThrough2(a, -inner, inner);
    BackThrough1(x, -outer, -inner);
    assert Table1(y + outer) == Minus(b, inner);
    assert Conjugate(y, outer, inner) == Minus(Minus(x, -outer), outer);
    // If y were x, this would be a, and the second table would keep it.
    NeverTheSame(a, inner);
  }

  lemma MinusBack(x: Nibble, shift: int)
    ensures Minus(Minus(x, -shift), shift) == x
  {}

  lemma ByteInvolution(d: Byte, offset: nat, key: Byte)
    ensures CryptByte(CryptByte(d, offset, key), offset, key) == d
    ensures CryptByte(d, offset, key) / 16 != d / 16
    ensures CryptByte(d, offset, key) % 16 != d % 16
  {
    hide Conjugate, OuterShift, InnerShift;
    var n := 2 * offset;
    ConjugateInvolution(d / 16, OuterShift(n, key), InnerShift(n, key));
    ConjugateInvolution(d % 16, OuterShift(n + 1, key), InnerShift(n + 1, key));
  }

  /** Encoding and decoding are the same operation. */
  lemma Involution(data: seq<Byte>, key: Byte)
    ensures Crypt(Crypt(data, key), key) == data
  {
    hide CryptByte;
    forall i | 0 <= i < |data|
      ensures CryptByte(CryptByte(data[i], i, key), i, key) == data[i]
    {
      ByteInvolution(data[i], i, key);
    }
  }

  /** At every position the cipher is a permutation of the bytes. */
  lemma PositionPermutes(offset: nat, key: Byte)
    ensures forall d: Byte, e: Byte :: CryptByte(d, offset, key) == CryptByte(e, offset, key) ==> d == e
  {
    hide CryptByte;
    forall d: Byte, e: Byte | CryptByte(d, offset, key) == CryptByte(e, offset, key)
      ensures d == e
    {
      ByteInvolution(d, offset, key);
      ByteInvolution(e, offset, key);
    }
  }

  lemma PrefixStable(data: seq<Byte>, n: nat, key: Byte)
    requires n <= |data|
    ensures Crypt(data[..n], key) == Crypt(data, key)[..n]
  {}

  /** The substitution of a position comes back after 128 bytes, that is 256 nibbles. */
  lemma PeriodicNibble(x: Nibble, count: nat, key: Byte)
    ensures CryptNibble(x, count + 256, key) == CryptNibble(x, count, key)
  {
    assert (count + 256) / 16 == count / 16 + 16;
    var outer, inner := OuterShift(count, key), InnerShift(count, key);
    assert OuterShift(count + 256, key) == outer + 16 * 16;
    assert InnerShift(count + 256, key) == inner + 16 * -15;
    hide OuterShift, InnerShift, Conjugate;
    ConjugatePeriodic(x, outer, inner, 16, -15);
  }

  lemma ConjugatePeriodic(x: Nibble, outer: int, inner: int, j: int, k: int)
    ensures Conjugate(x, outer + 16 * j, inner + 16 * k) == Conjugate(x, outer, inner)
  {
    hide Table1, Table2;
    var a := Table1(x + outer);
    MultipleMod16(x + outer, j);
    TablesReadMod16(x + (outer + 16 * j), x + outer);
    var b := Table2(a + inner);
    MultipleMod16(a + inner, k);
    TablesReadMod16(a + (inner + 16 * k), a + inner);
    var c := Table1(b - inner);
    MultipleMod16(b - inner, -k);
    TablesReadMod16(b - (inner + 16 * k), b - inner);
    MultipleMod16(c - outer, -j);
  }

  lemma MultipleMod16(v: int, k: int)
    ensures (v + 16 * k) % 16 == v % 16
  {}

  lemma Periodic(d: Byte, offset: nat, key: Byte)
    ensures CryptByte(d, offset + 128, key) == CryptByte(d, offset, key)
  {
    hide CryptNibble;
    PeriodicNibble(d / 16, 2 * offset, key);
    PeriodicNibble(d % 16, 2 * offset + 1, key);
  }

  // ----- how the position and the key work together -----

  /** The key that does at the first position what `key` does at the position `count`. */
  function KeyAt(count: nat, key: Byte): Byte {
    16 * ((key / 16 + count) % 16) + (key % 16 + count / 16) % 16
  }

  lemma KeyHalves(left: Nibble, right: Nibble)
    ensures (16 * left + right) / 16 == left && (16 * left + right) % 16 == right
  {}

  lemma ShiftsOfKeyAt(count: nat, key: Byte) returns (j: int, k: int)
    ensures OuterShift(count, key) == OuterShift(0, KeyAt(count, key)) + 16 * j
    ensures InnerShift(count, key) == InnerShift(0, KeyAt(count, key)) + 16 * k
  {
    KeyHalves((key / 16 + count) % 16, (key % 16 + count / 16) % 16);
    j := (key / 16 + count) / 16;
    k := (key % 16 + count / 16) / 16 - j;
  }

  /**
    A position works like a key: the counter modulo 16 is added to the left half of the key and the
    counter divided by 16 to the right half, each without carry.
   */
  lemma PositionIsKey(x: Nibble, count: nat, key: Byte)
    ensures CryptNibble(x, count, key) == CryptNibble(x, 0, 16 * ((key / 16 + count) % 16) + (key % 16 + count / 16) % 16)
  {
    hide Conjugate, OuterShift, InnerShift;
    var j, k := ShiftsOfKeyAt(count, key);
    ConjugatePeriodic(x, OuterShift(0, KeyAt(count, key)), InnerShift(0, KeyAt(count, key)), j, k);
  }

  /** Sixteen nibbles further on, the next right half of the key does the same. */
  lemma NextRow(x: Nibble, count: nat, key: Byte)
    requires key % 16 < 15
    ensures CryptNibble(x, count + 16, key) == CryptNibble(x, count, key + 1)
  {
    assert (count + 16) / 16 == count / 16 + 1;
    assert (key + 1) / 16 == key / 16 && (key + 1) % 16 == key % 16 + 1;
    var outer, inner := OuterShift(count, key + 1), InnerShift(count, key + 1);
    assert OuterShift(count + 16, key) == outer + 16 * 1 && InnerShift(count + 16, key) == inner + 16 * -1;
    hide Conjugate, OuterShift, InnerShift;
    ConjugatePeriodic(x, outer, inner, 1, -1);
  }

  lemma NextColumnShifts(count: nat, key: Byte)
    requires count % 16 < 15 && key < 240
    ensures OuterShift(count + 1, key) == OuterShift(count, key + 16) && InnerShift(count + 1, key) == InnerShift(count, key + 16)
  {
    assert (count + 1) / 16 == count / 16;
    assert (key + 16) / 16 == key / 16 + 1 && (key + 16) % 16 == key % 16;
  }

  /** One nibble further on, the next left half of the key does the same. */
  lemma NextColumn(x: Nibble, count: nat, key: Byte)
    requires count % 16 < 15 && key < 240
    ensures CryptNibble(x, count + 1, key) == CryptNibble(x, count, key + 16)
  {
    hide Conjugate, OuterShift, InnerShift;
    NextColumnShifts(count, key);
  }

  lemma FirstPosition(x: Nibble, left: Nibble, right: Nibble)
    ensures CryptNibble(x, 0, 16 * left + right) == Conjugate(x, left, right - left)
  {
    KeyHalves(left, right);
    hide Conjugate;
  }

  lemma MinusMod16(x: int, shift: int)
    ensures Minus(x, shift) % 16 == (x - shift) % 16 == Minus(x, shift)
    ensures 0 <= x < 16 ==> Minus(x, 0) == x
  {}

  lemma OuterShiftOut(x: Nibble, outer: int, inner: int)
    ensures Conjugate(x, outer, inner) == Minus(Conjugate(Minus(x, -outer), 0, inner), outer)
  {
    hide Table1, Table2, Minus;
    MinusMod16(x, -outer);
    TablesReadMod16(x + outer, Minus(x, -outer));
    MinusMod16(Table1(Table2(Table1(x + outer) + inner) - inner), 0);
  }

  lemma InnerShiftReduced(x: Nibble, inner: int)
    ensures Conjugate(x, 0, inner) == Conjugate(x, 0, Minus(inner, 0))
  {
    assert inner == Minus(inner, 0) + 16 * (inner / 16);
    hide Conjugate, Minus;
    ConjugatePeriodic(x, 0, Minus(inner, 0), 0, inner / 16);
  }

  lemma LeftKeyShiftsOut(x: Nibble, left: int, right: int)
    requires 0 <= left < 16 && 0 <= right < 16
    ensures CryptNibble(x, 0, 16 * left + right) == Minus(CryptNibble(Minus(x, -left), 0, Minus(right - left, 0)), left)
  {
    hide Conjugate, CryptNibble, Minus;
    FirstPosition(x, left, right);
    FirstPosition(Minus(x, -left), 0, Minus(right - left, 0));
    OuterShiftOut(x, left, right - left);
    InnerShiftReduced(Minus(x, -left), right - left);
  }

  /** The left half of the key shifts the nibbles before and after the substitution. */
  lemma LeftKeyShifts(x: Nibble, left: int, right: int)
    requires 0 <= left < 16 && 0 <= right < 16
    ensures CryptNibble(x, 0, 16 * left + right) == (CryptNibble((x + left) % 16, 0, (right - left) % 16) - left) % 16
  {
    hide CryptNibble, Minus;
    LeftKeyShiftsOut(x, left, right);
    MinusMod16(x, -left);
    MinusMod16(right - left, 0);
    MinusMod16(CryptNibble(Minus(x, -left), 0, Minus(right - left, 0)), left);
  }

  // ----- known results -----

  /** One substitution, followed table by table. */
  lemma TraceNibble(x: Nibble, count: nat, key: Byte, a: Nibble, b: Nibble, c: Nibble)
    requires Table1(x + OuterShift(count, key)) == a
    requires Table2(a + InnerShift(count, key)) == b
    requires Table1(b - InnerShift(count, key)) == c
    ensures CryptNibble(x, count, key) == (c - OuterShift(count, key)) % 16
  {
    hide Table1, Table2, OuterShift, InnerShift;
  }

  lemma KnownByte0()
    ensures CryptByte(0x2A, 0, 0x2A) == 0x77
  {
    hide CryptNibble;
    TraceNibble(2, 0, 0x2A, 1, 7, 9);
    TraceNibble(10, 1, 0x2A, 5, 3, 10);
  }

  lemma KnownByte1()
    ensures CryptByte(0x7F, 1, 0x2A) == 0x65
  {
    hide CryptNibble;
    TraceNibble(7, 2, 0x2A, 7, 2, 10);
    TraceNibble(15, 3, 0x2A, 1, 1, 10);
  }

  lemma KnownByte2()
    ensures CryptByte(0x80, 2, 0x2A) == 0x6D
  {
    hide CryptNibble;
    TraceNibble(8, 4, 0x2A, 0, 14, 12);
    TraceNibble(0, 5, 0x2A, 11, 4, 4);
  }

  lemma KnownSingleByte()
    ensures CryptByte(24, 0, 0x2A) == 66
  {
    hide CryptNibble;
    TraceNibble(1, 0, 0x2A, 2, 0, 6);
    TraceNibble(8, 1, 0x2A, 7, 4, 5);
  }

  const KNOWN_ORDER: seq<Byte> := [0x77, 0xE9, 0x3D, 0xD5, 0x53, 0x81, 0xD3, 0xDB,
                                   0xA3, 0x2B, 0xFA, 0x98, 0xA4, 0xA3, 0xFA, 0xF9]
  const PLAIN_ORDER: seq<Byte> := [0x2A, 0x03, 0x00, 0x04, 0x14, 0x00, 0x00, 0x01,
                                   0x00, 0x01, 0x00, 0x00, 0x00, 0x00, 0x00, 0x2A]

  predicate KnownAt(i: nat)
    requires i < 16
  {
    CryptByte(KNOWN_ORDER[i], i, 0x2A) == PLAIN_ORDER[i]
  }

  lemma ShiftsOf2A(i: nat)
    ensures OuterShift(2 * i, 0x2A) == 2 * i + 2 && InnerShift(2 * i, 0x2A) == 8 - 2 * i + i / 8
    ensures OuterShift(2 * i + 1, 0x2A) == 2 * i + 3 && InnerShift(2 * i + 1, 0x2A) == 7 - 2 * i + i / 8
  {}

  /** One byte under the key 0x2A, both its nibbles followed table by table. */
  lemma TraceByte(d: Byte, i: nat, r: Byte, a: Nibble, b: Nibble, c: Nibble, a': Nibble, b': Nibble, c': Nibble)
    requires Table1(d / 16 + (2 * i + 2)) == a && Table2(a + (8 - 2 * i + i / 8)) == b && Table1(b - (8 - 2 * i + i / 8)) == c
    requires Table1(d % 16 + (2 * i + 3)) == a' && Table2(a' + (7 - 2 * i + i / 8)) == b' && Table1(b' - (7 - 2 * i + i / 8)) == c'
    requires r == 16 * ((c - (2 * i + 2)) % 16) + (c' - (2 * i + 3)) % 16
    ensures CryptByte(d, i, 0x2A) == r
  {
    ShiftsOf2A(i);
    hide Table1, Table2, OuterShift, InnerShift, CryptNibble;
    TraceNibble(d / 16, 2 * i, 0x2A, a, b, c);
    TraceNibble(d % 16, 2 * i + 1, 0x2A, a', b', c');
  }

  lemma KnownFrom0()
    ensures KnownAt(0) && KnownAt(1)
  {
    hide CryptByte;
    TraceByte(KNOWN_ORDER[0], 0, PLAIN_ORDER[0], 15, 9, 4, 12, 12, 13);
    TraceByte(KNOWN_ORDER[1], 1, PLAIN_ORDER[1], 3, 7, 4, 0, 11, 8);
  }

  lemma KnownFrom2()
    ensures KnownAt(2) && KnownAt(3)
  {
    hide CryptByte;
    TraceByte(KNOWN_ORDER[2], 2, PLAIN_ORDER[2], 15, 12, 6, 1, 14, 7);
    TraceByte(KNOWN_ORDER[3], 3, PLAIN_ORDER[3], 13, 8, 8, 0, 6, 13);
  }

  lemma KnownFrom4()
    ensures KnownAt(4) && KnownAt(5)
  {
    hide CryptByte;
    TraceByte(KNOWN_ORDER[4], 4, PLAIN_ORDER[4], 9, 7, 11, 0, 8, 15);
    TraceByte(KNOWN_ORDER[5], 5, PLAIN_ORDER[5], 1, 8, 12, 0, 2, 13);
  }

  lemma KnownFrom6()
    ensures KnownAt(6) && KnownAt(7)
  {
    hide CryptByte;
    TraceByte(KNOWN_ORDER[6], 6, PLAIN_ORDER[6], 7, 12, 14, 3, 4, 15);
    TraceByte(KNOWN_ORDER[7], 7, PLAIN_ORDER[7], 5, 8, 0, 10, 12, 2);
  }

  lemma KnownFrom8()
    ensures KnownAt(8) && KnownAt(9)
  {
    hide CryptByte;
    TraceByte(KNOWN_ORDER[8], 8, PLAIN_ORDER[8], 10, 12, 2, 8, 10, 3);
    TraceByte(KNOWN_ORDER[9], 9, PLAIN_ORDER[9], 8, 8, 4, 14, 14, 6);
  }

  lemma KnownFrom10()
    ensures KnownAt(10) && KnownAt(11)
  {
    hide CryptByte;
    TraceByte(KNOWN_ORDER[10], 10, PLAIN_ORDER[10], 13, 13, 6, 4, 15, 7);
    TraceByte(KNOWN_ORDER[11], 11, PLAIN_ORDER[11], 4, 9, 8, 4, 1, 9);
  }

  lemma KnownFrom12()
    ensures KnownAt(12) && KnownAt(13)
  {
    hide CryptByte;
    TraceByte(KNOWN_ORDER[12], 12, PLAIN_ORDER[12], 1, 13, 10, 9, 7, 11);
    TraceByte(KNOWN_ORDER[13], 13, PLAIN_ORDER[13], 8, 9, 12, 14, 3, 13);
  }

  lemma KnownFrom14()
    ensures KnownAt(14) && KnownAt(15)
  {
    hide CryptByte;
    TraceByte(KNOWN_ORDER[14], 14, PLAIN_ORDER[14], 5, 13, 14, 15, 5, 15);
    TraceByte(KNOWN_ORDER[15], 15, PLAIN_ORDER[15], 9, 14, 2, 12, 1, 11);
  }

  /** The order of a coffee that the source shows encoded and decoded. It takes every pair of both tables. */
  lemma KnownOrder()
    ensures Crypt(KNOWN_ORDER, 0x2A) == PLAIN_ORDER
  {
    hide CryptByte;
    KnownFrom0();
    KnownFrom2();
    KnownFrom4();
    KnownFrom6();
    KnownFrom8();
    KnownFrom10();
    KnownFrom12();
    KnownFrom14();
    forall i | 0 <= i < 16
      ensures Crypt(KNOWN_ORDER, 0x2A)[i] == PLAIN_ORDER[i]
    {
      assert KnownAt(i);
    }
  }

  /** The vectors the repository documents: the heartbeat for key 0x2A, and the unit test on one byte. */
  lemma KnownVectors()
    ensures Crypt([0x2A, 0x7F, 0x80], 0x2A) == [0x77, 0x65, 0x6D]
    ensures Crypt([24], 0x2A) == [66]
  {
    hide CryptByte;
    KnownByte0();
    KnownByte1();
    KnownByte2();
    KnownSingleByte();
  }
}

/** The CRC the source documents but does not use: the table-driven loop that stands beside
    `crc16tab` in a comment, against bit-by-bit division by x^16 + x^12 + x^5 + 1 (section 2 of
    ITU-T V.41, initial value 0, nothing reflected: CRC-16/XMODEM). */
module Crc16 {
  import opened Bytes

  const POLYNOMIAL: bv16 := 0x1021

  // ---------- operations on the register ----------

  function Xor(a: bv16, b: bv16): bv16 {
    a ^ b
  }

  function Up(a: bv16): bv16 {
    a << 1
  }

  predicate Top(a: bv16) {
    a & 0x8000 != 0
  }

  // ---------- the table ----------

  function Pick(column: bv8, e0: bv16, e1: bv16, e2: bv16, e3: bv16, e4: bv16, e5: bv16, e6: bv16,
                e7: bv16): bv16 {
    if column == 0 then e0 else if column == 1 then e1 else if column == 2 then e2
    else if column == 3 then e3 else if column == 4 then e4 else if column == 5 then e5
    else if column == 6 then e6 else e7
  }

  /** `crc16tab`, 32 rows of 8. */
  function Table(i: byte): bv16 {
    var row := i >> 3;
    var column := i & 7;
    if row == 0 then Pick(column, 0x0000, 0x1021, 0x2042, 0x3063, 0x4084, 0x50a5, 0x60c6, 0x70e7)
    else if row == 1 then Pick(column, 0x8108, 0x9129, 0xa14a, 0xb16b, 0xc18c, 0xd1ad, 0xe1ce, 0xf1ef)
    else if row == 2 then Pick(column, 0x1231, 0x0210, 0x3273, 0x2252, 0x52b5, 0x4294, 0x72f7, 0x62d6)
    else if row == 3 then Pick(column, 0x9339, 0x8318, 0xb37b, 0xa35a, 0xd3bd, 0xc39c, 0xf3ff, 0xe3de)
    else if row == 4 then Pick(column, 0x2462, 0x3443, 0x0420, 0x1401, 0x64e6, 0x74c7, 0x44a4, 0x5485)
    else if row == 5 then Pick(column, 0xa56a, 0xb54b, 0x8528, 0x9509, 0xe5ee, 0xf5cf, 0xc5ac, 0xd58d)
    else if row == 6 then Pick(column, 0x3653, 0x2672, 0x1611, 0x0630, 0x76d7, 0x66f6, 0x5695, 0x46b4)
    else if row == 7 then Pick(column, 0xb75b, 0xa77a, 0x9719, 0x8738, 0xf7df, 0xe7fe, 0xd79d, 0xc7bc)
    else if row == 8 then Pick(column, 0x48c4, 0x58e5, 0x6886, 0x78a7, 0x0840, 0x1861, 0x2802, 0x3823)
    else if row == 9 then Pick(column, 0xc9cc, 0xd9ed, 0xe98e, 0xf9af, 0x8948, 0x9969, 0xa90a, 0xb92b)
    else if row == 10 then Pick(column, 0x5af5, 0x4ad4, 0x7ab7, 0x6a96, 0x1a71, 0x0a50, 0x3a33, 0x2a12)
    else if row == 11 then Pick(column, 0xdbfd, 0xcbdc, 0xfbbf, 0xeb9e, 0x9b79, 0x8b58, 0xbb3b, 0xab1a)
    else if row == 12 then Pick(column, 0x6ca6, 0x7c87, 0x4ce4, 0x5cc5, 0x2c22, 0x3c03, 0x0c60, 0x1c41)
    else if row == 13 then Pick(column, 0xedae, 0xfd8f, 0xcdec, 0xddcd, 0xad2a, 0xbd0b, 0x8d68, 0x9d49)
    else if row == 14 then Pick(column, 0x7e97, 0x6eb6, 0x5ed5, 0x4ef4, 0x3e13, 0x2e32, 0x1e51, 0x0e70)
    else if row == 15 then Pick(column, 0xff9f, 0xefbe, 0xdfdd, 0xcffc, 0xbf1b, 0xaf3a, 0x9f59, 0x8f78)
    else if row == 16 then Pick(column, 0x9188, 0x81a9, 0xb1ca, 0xa1eb, 0xd10c, 0xc12d, 0xf14e, 0xe16f)
    else if row == 17 then Pick(column, 0x1080, 0x00a1, 0x30c2, 0x20e3, 0x5004, 0x4025, 0x7046, 0x6067)
    else if row == 18 then Pick(column, 0x83b9, 0x9398, 0xa3fb, 0xb3da, 0xc33d, 0xd31c, 0xe37f, 0xf35e)
    else if row == 19 then Pick(column, 0x02b1, 0x1290, 0x22f3, 0x32d2, 0x4235, 0x5214, 0x6277, 0x7256)
    else if row == 20 then Pick(column, 0xb5ea, 0xa5cb, 0x95a8, 0x8589, 0xf56e, 0xe54f, 0xd52c, 0xc50d)
    else if row == 21 then Pick(column, 0x34e2, 0x24c3, 0x14a0, 0x0481, 0x7466, 0x6447, 0x5424, 0x4405)
    else if row == 22 then Pick(column, 0xa7db, 0xb7fa, 0x8799, 0x97b8, 0xe75f, 0xf77e, 0xc71d, 0xd73c)
    else if row == 23 then Pick(column, 0x26d3, 0x36f2, 0x0691, 0x16b0, 0x6657, 0x7676, 0x4615, 0x5634)
    else if row == 24 then Pick(column, 0xd94c, 0xc96d, 0xf90e, 0xe92f, 0x99c8, 0x89e9, 0xb98a, 0xa9ab)
    else if row == 25 then Pick(column, 0x5844, 0x4865, 0x7806, 0x6827, 0x18c0, 0x08e1, 0x3882, 0x28a3)
    else if row == 26 then Pick(column, 0xcb7d, 0xdb5c, 0xeb3f, 0xfb1e, 0x8bf9, 0x9bd8, 0xabbb, 0xbb9a)
    else if row == 27 then Pick(column, 0x4a75, 0x5a54, 0x6a37, 0x7a16, 0x0af1, 0x1ad0, 0x2ab3, 0x3a92)
    else if row == 28 then Pick(column, 0xfd2e, 0xed0f, 0xdd6c, 0xcd4d, 0xbdaa, 0xad8b, 0x9de8, 0x8dc9)
    else if row == 29 then Pick(column, 0x7c26, 0x6c07, 0x5c64, 0x4c45, 0x3ca2, 0x2c83, 0x1ce0, 0x0cc1)
    else if row == 30 then Pick(column, 0xef1f, 0xff3e, 0xcf5d, 0xdf7c, 0xaf9b, 0xbfba, 0x8fd9, 0x9ff8)
    else Pick(column, 0x6e17, 0x7e36, 0x4e55, 0x5e74, 0x2e93, 0x3eb2, 0x0ed1, 0x1ef0)
  }

  /** The loop that is commented out. */
  method Generate(buffer: array<byte>, len: nat) returns (crc: bv16)
    requires len <= buffer.Length
    ensures crc == Remainder(buffer[..len])
  {
    hide Remainder, TableTurn, Feed;
    crc := 0;
    for counter := 0 to len
      invariant crc == Register(buffer[..counter])
    {
      TableStep(crc, buffer[counter]);
      crc := TableTurn(crc, buffer[counter]);
      assert buffer[..counter + 1][..counter] == buffer[..counter];
    }
    RegisterIsRemainder(buffer[..len]);
  }

  /** The loop's body. */
  function TableTurn(crc: bv16, b: byte): bv16 {
    Xor(crc << 8, Table(((crc >> 8) as byte) ^ b))
  }

  // ---------- the reference: long division over GF(2) ----------

  /** Brings the next bit of the dividend down and subtracts the divisor if it goes in. */
  function Divide(r: bv16, bit: bv16): bv16 {
    if Top(r) then Xor(Up(r) | bit, POLYNOMIAL) else Up(r) | bit
  }

  /** Bit `n` of a byte, 7 being the first to be divided. */
  function Bit(b: byte, n: bv4): bv16
    requires n < 8
  {
    ((b >> n) & 1) as bv16
  }

  function DivideByte(r: bv16, b: byte): bv16 {
    var r1 := Divide(Divide(Divide(Divide(r, Bit(b, 7)), Bit(b, 6)), Bit(b, 5)), Bit(b, 4));
    Divide(Divide(Divide(Divide(r1, Bit(b, 3)), Bit(b, 2)), Bit(b, 1)), Bit(b, 0))
  }

  function Divided(m: seq<byte>): bv16 {
    if m == [] then 0 else DivideByte(Divided(m[..|m| - 1]), m[|m| - 1])
  }

  /** The remainder of the message times x^16: sixteen zero bits are appended. */
  function Remainder(m: seq<byte>): bv16 {
    DivideByte(DivideByte(Divided(m), 0), 0)
  }

  // ---------- the shift register ----------

  function Shift(r: bv16): bv16 {
    if Top(r) then Xor(Up(r), POLYNOMIAL) else Up(r)
  }

  function Shift8(r: bv16): bv16 {
    Shift(Shift(Shift(Shift(Shift(Shift(Shift(Shift(r))))))))
  }

  /** A byte enters at the top and is shifted out. */
  function Feed(crc: bv16, b: byte): bv16 {
    Shift8(Xor(crc, (b as bv16) << 8))
  }

  /** The register after a message. */
  function Register(m: seq<byte>): bv16 {
    if m == [] then 0 else Feed(Register(m[..|m| - 1]), m[|m| - 1])
  }

  // ---------- bit facts, one at a time ----------

  lemma XorLaws(a: bv16, b: bv16, c: bv16)
    ensures Xor(a, b) == Xor(b, a) && Xor(a, 0) == a && Xor(a, a) == 0
    ensures Xor(Xor(a, b), c) == Xor(a, Xor(b, c))
  {}

  lemma XorCancels(a: bv16, b: bv16, c: bv16)
    ensures Xor(a, c) == Xor(b, c) ==> a == b
  {}

  lemma UpIsLinear(a: bv16, b: bv16)
    ensures Up(Xor(a, b)) == Xor(Up(a), Up(b))
  {}

  lemma TopIsLinear(a: bv16, b: bv16)
    ensures Top(Xor(a, b)) == (Top(a) != Top(b))
  {
    assert a & 0x8000 == 0 || a & 0x8000 == 0x8000;
    assert b & 0x8000 == 0 || b & 0x8000 == 0x8000;
    assert (a ^ b) & 0x8000 == (a & 0x8000) ^ (b & 0x8000);
  }

  function Back(shifted: bv16, top: bool): bv16 {
    (shifted >> 1) | (if top then 0x8000 else 0)
  }

  lemma ShiftedBack(a: bv16)
    ensures Back(Up(a), Top(a)) == a
  {
    assert a & 0x8000 == 0 || a & 0x8000 == 0x8000;
    assert ((a << 1) >> 1) | (a & 0x8000) == a;
  }

  /** The polynomial ends in 1, a shifted register in 0. */
  lemma PolynomialIsOdd(a: bv16, b: bv16)
    ensures Xor(Up(a), POLYNOMIAL) != Up(b)
  {
    assert (a << 1) ^ 0x1021 != b << 1;
  }

  lemma BringDown(r: bv16, bit: bv16)
    requires bit <= 1
    ensures Up(r) | bit == Xor(Up(r), bit)
  {}

  // ---------- the shift register is linear and loses nothing ----------

  lemma ShiftIsLinear(a: bv16, b: bv16)
    ensures Shift(Xor(a, b)) == Xor(Shift(a), Shift(b))
  {
    hide Xor, Up, Top;
    var p, x, y := POLYNOMIAL, Up(a), Up(b);
    UpIsLinear(a, b);
    TopIsLinear(a, b);
    XorLaws(x, p, Xor(y, p));
    XorLaws(p, y, p);
    XorLaws(y, p, p);
    XorLaws(p, p, 0);
    XorLaws(x, p, y);
    XorLaws(p, y, 0);
    XorLaws(x, y, p);
    XorLaws(y, 0, 0);
  }

  lemma ShiftIsInjective(a: bv16, b: bv16)
    ensures Shift(a) == Shift(b) ==> a == b
  {
    hide Xor, Up, Top, Back;
    PolynomialIsOdd(a, b);
    PolynomialIsOdd(b, a);
    XorCancels(Up(a), Up(b), POLYNOMIAL);
    if Shift(a) == Shift(b) {
      ShiftedBack(a);
      ShiftedBack(b);
    }
  }

  lemma Shift2Laws(a: bv16, b: bv16)
    ensures Shift(Shift(Xor(a, b))) == Xor(Shift(Shift(a)), Shift(Shift(b)))
    ensures Shift(Shift(a)) == Shift(Shift(b)) ==> a == b
  {
    hide Shift, Xor;
    ShiftIsLinear(a, b);
    ShiftIsLinear(Shift(a), Shift(b));
    ShiftIsInjective(a, b);
    ShiftIsInjective(Shift(a), Shift(b));
  }

  lemma Shift8Laws(a: bv16, b: bv16)
    ensures Shift8(Xor(a, b)) == Xor(Shift8(a), Shift8(b))
    ensures Shift8(a) == Shift8(b) ==> a == b
  {
    hide Shift, Xor;
    var a2, b2 := Shift(Shift(a)), Shift(Shift(b));
    var a4, b4 := Shift(Shift(a2)), Shift(Shift(b2));
    var a6, b6 := Shift(Shift(a4)), Shift(Shift(b4));
    Shift2Laws(a, b);
    Shift2Laws(a2, b2);
    Shift2Laws(a4, b4);
    Shift2Laws(a6, b6);
  }

  // ---------- the table ----------

  lemma FirstQuarter(i: byte)
    requires i >> 6 == 0
    ensures Table(i) == Shift8((i as bv16) << 8)
  {}

  lemma SecondQuarter(i: byte)
    requires i >> 6 == 1
    ensures Table(i) == Shift8((i as bv16) << 8)
  {}

  lemma ThirdQuarter(i: byte)
    requires i >> 6 == 2
    ensures Table(i) == Shift8((i as bv16) << 8)
  {}

  lemma FourthQuarter(i: byte)
    requires i >> 6 == 3
    ensures Table(i) == Shift8((i as bv16) << 8)
  {}

  /** Each table entry is eight shift-register steps of its index. */
  lemma TableEntry(i: byte)
    ensures Table(i) == Shift8((i as bv16) << 8)
  {
    hide Table, Shift8;
    if i >> 6 == 0 {
      FirstQuarter(i);
    } else if i >> 6 == 1 {
      SecondQuarter(i);
    } else if i >> 6 == 2 {
      ThirdQuarter(i);
    } else {
      FourthQuarter(i);
    }
  }

  /** A byte in the low half is only moved up. */
  lemma LowByte(b: bv16)
    requires b < 0x100
    ensures Shift8(b) == b << 8
  {}

  lemma Halves(crc: bv16, b: byte)
    ensures var hi, lo := ((crc >> 8) as byte) ^ b, crc & 0xFF;
      Xor(crc, (b as bv16) << 8) == Xor(lo, (hi as bv16) << 8) && lo << 8 == crc << 8 && lo < 0x100
  {}

  /** One turn of the table-driven loop is eight turns of the shift register. */
  lemma TableStep(crc: bv16, b: byte)
    ensures TableTurn(crc, b) == Feed(crc, b)
  {
    hide Table, Shift8, Xor;
    var hi, lo := ((crc >> 8) as byte) ^ b, crc & 0xFF;
    Halves(crc, b);
    TableEntry(hi);
    Shift8Laws(lo, (hi as bv16) << 8);
    LowByte(lo);
  }

  // ---------- the register computes the remainder ----------

  /** One step of the division, with the bits brought down so far kept apart. */
  lemma DivideStep(r: bv16, t: bv16, bit: bv16)
    requires !Top(t) && bit <= 1
    ensures Divide(Xor(r, t), bit) == Xor(Shift(r), Xor(Up(t), bit))
  {
    hide Xor, Up, Top;
    var x, p := Xor(r, t), POLYNOMIAL;
    BringDown(x, bit);
    XorLaws(Up(x), bit, p);
    XorLaws(bit, p, 0);
    XorLaws(Up(x), p, bit);
    ShiftIsLinear(r, t);
    XorLaws(Shift(r), Up(t), bit);
  }

  /** The first bits of a byte, as a number. */
  function Prefix(b: byte, n: bv4): bv16
    requires n <= 8
  {
    (b >> n) as bv16
  }

  lemma Prefixes(b: byte, n: bv4)
    requires n < 8
    ensures Xor(Up(Prefix(b, n + 1)), Bit(b, n)) == Prefix(b, n)
    ensures !Top(Prefix(b, n + 1)) && Bit(b, n) <= 1
    ensures Prefix(b, 8) == 0 && Prefix(b, 0) == b as bv16
  {}

  lemma DivideBit(r: bv16, b: byte, n: bv4)
    requires n < 8
    ensures Divide(Xor(r, Prefix(b, n + 1)), Bit(b, n)) == Xor(Shift(r), Prefix(b, n))
  {
    hide Divide, Shift, Xor, Up, Top, Bit, Prefix;
    Prefixes(b, n);
    DivideStep(r, Prefix(b, n + 1), Bit(b, n));
  }

  /** Dividing eight more bits shifts the remainder and adds the byte. */
  lemma DivideByteIsShift8(r: bv16, b: byte)
    ensures DivideByte(r, b) == Xor(Shift8(r), b as bv16)
  {
    hide Divide, Shift, Xor, Bit, Prefix;
    var r2 := Shift(Shift(r));
    var r4 := Shift(Shift(r2));
    var r6 := Shift(Shift(r4));
    XorLaws(r, 0, 0);
    Prefixes(b, 0);
    DivideBit(r, b, 7);
    DivideBit(Shift(r), b, 6);
    DivideBit(r2, b, 5);
    DivideBit(Shift(r2), b, 4);
    DivideBit(r4, b, 3);
    DivideBit(Shift(r4), b, 2);
    DivideBit(r6, b, 1);
    DivideBit(Shift(r6), b, 0);
  }

  lemma ZeroByte(r: bv16)
    ensures DivideByte(r, 0) == Shift8(r)
  {
    hide Xor, Shift8, DivideByte;
    DivideByteIsShift8(r, 0);
    XorLaws(Shift8(r), 0, 0);
  }

  /** The shift register holds the remainder of what it was fed, times x^16. */
  lemma {:induction false} RegisterIsRemainder(m: seq<byte>)
    ensures Register(m) == Remainder(m)
  {
    hide Shift8, DivideByte, Xor;
    ZeroByte(Divided(m));
    ZeroByte(Shift8(Divided(m)));
    if m == [] {
      LowByte(0);
    } else {
      var d, b := Divided(m[..|m| - 1]), m[|m| - 1];
      RegisterIsRemainder(m[..|m| - 1]);
      ZeroByte(d);
      ZeroByte(Shift8(d));
      DivideByteIsShift8(d, b);
      Shift8Laws(Shift8(d), b as bv16);
      LowByte(b as bv16);
      Shift8Laws(Shift8(Shift8(d)), (b as bv16) << 8);
    }
  }

  // ---------- what the check would be good for ----------

  /** The register never forgets a difference. */
  lemma {:induction false} DifferenceStays(m: seq<byte>, n: seq<byte>, k: nat)
    requires k <= |m| == |n| && m[k..] == n[k..]
    ensures Register(m) == Register(n) <==> Register(m[..k]) == Register(n[..k])
    decreases |m| - k
  {
    hide Feed;
    if k == |m| {
      assert m[..k] == m && n[..k] == n;
    } else {
      assert m[k] == m[k..][0] == n[k];
      assert m[k + 1..] == m[k..][1..] && n[k + 1..] == n[k..][1..];
      DifferenceStays(m, n, k + 1);
      assert m[..k + 1][..k] == m[..k] && n[..k + 1][..k] == n[..k];
      FeedIsInjective(Register(m[..k]), Register(n[..k]), m[k], n[k]);
    }
  }

  lemma FeedIsInjective(x: bv16, y: bv16, b: byte, c: byte)
    ensures b == c ==> (Feed(x, b) == Feed(y, c) <==> x == y)
    ensures x == y ==> (Feed(x, b) == Feed(y, c) <==> b == c)
  {
    hide Shift8, Xor;
    var u, v := (b as bv16) << 8, (c as bv16) << 8;
    Shift8Laws(Xor(x, u), Xor(y, v));
    XorCancels(x, y, u);
    XorLaws(x, u, 0);
    XorLaws(y, v, 0);
    XorCancels(u, v, x);
    HighByte(b, c);
  }

  lemma HighByte(b: byte, c: byte)
    ensures (b as bv16) << 8 == (c as bv16) << 8 ==> b == c
  {}

  /** Every corruption of a single byte changes the CRC. */
  lemma SingleByteErrorIsDetected(m: seq<byte>, k: nat, b: byte)
    requires k < |m| && b != m[k]
    ensures Remainder(m[k := b]) != Remainder(m)
  {
    hide Feed, Remainder;
    var n := m[k := b];
    RegisterIsRemainder(m);
    RegisterIsRemainder(n);
    DifferenceStays(m, n, k + 1);
    assert m[..k + 1][..k] == m[..k] == n[..k] == n[..k + 1][..k];
    FeedIsInjective(Register(m[..k]), Register(n[..k]), m[k], b);
  }

  /** A message followed by its CRC, high byte first, has remainder zero. */
  lemma AppendedCrcDivides(m: seq<byte>)
    ensures var crc := Remainder(m);
      Remainder(m + [(crc >> 8) as byte, (crc & 0xFF) as byte]) == 0
  {
    hide Feed, Remainder;
    var crc := Remainder(m);
    var hi, lo := (crc >> 8) as byte, (crc & 0xFF) as byte;
    RegisterIsRemainder(m);
    RegisterIsRemainder(m + [hi, lo]);
    assert (m + [hi, lo])[..|m| + 1] == m + [hi];
    assert (m + [hi])[..|m|] == m;
    CrcFeedsOut(crc);
  }

  lemma CrcFeedsOut(crc: bv16)
    ensures Feed(Feed(crc, (crc >> 8) as byte), (crc & 0xFF) as byte) == 0
  {
    hide Shift8, Xor;
    TopHalfCancels(crc);
    LowByte(crc & 0xFF);
    LowByte(0);
    XorLaws(crc << 8, 0, 0);
  }

  lemma TopHalfCancels(crc: bv16)
    ensures Xor(crc, (((crc >> 8) as byte) as bv16) << 8) == crc & 0xFF < 0x100
    ensures (crc & 0xFF) << 8 == (((crc & 0xFF) as byte) as bv16) << 8
  {}

  // ---------- the documented outputs ----------

  /** One more byte, with the register's value before and after it. */
  lemma NextByte(m: seq<byte>, k: nat, b: byte, before: bv16, after: bv16)
    requires k < |m| && m[k] == b && Register(m[..k]) == before && TableTurn(before, b) == after
    ensures Register(m[..k + 1]) == after
  {
    hide TableTurn, Feed;
    TableStep(before, b);
    assert m[..k + 1][..k] == m[..k];
  }

  lemma Nothing(m: seq<byte>)
    ensures Register(m[..0]) == 0
  {}

  lemma ThreeDigits(m: seq<byte>)
    requires |m| == 9 && m[0] == 0x31 && m[1] == 0x32 && m[2] == 0x33
    ensures Register(m[..3]) == 0x9752
  {
    hide Register;
    Nothing(m);
    NextByte(m, 0, 0x31, 0, 0x2672);
    NextByte(m, 1, 0x32, 0x2672, 0x20b5);
    NextByte(m, 2, 0x33, 0x20b5, 0x9752);
  }

  lemma SixDigits(m: seq<byte>)
    requires |m| == 9 && Register(m[..3]) == 0x9752 && m[3] == 0x34 && m[4] == 0x35 && m[5] == 0x36
    ensures Register(m[..6]) == 0x20e4
  {
    hide Register;
    NextByte(m, 3, 0x34, 0x9752, 0xd789);
    NextByte(m, 4, 0x35, 0xd789, 0x546c);
    NextByte(m, 5, 0x36, 0x546c, 0x20e4);
  }

  lemma NineDigits(m: seq<byte>)
    requires |m| == 9 && Register(m[..6]) == 0x20e4 && m[6] == 0x37 && m[7] == 0x38 && m[8] == 0x39
    ensures Register(m) == 0x31C3
  {
    hide Register;
    NextByte(m, 6, 0x37, 0x20e4, 0x86d6);
    NextByte(m, 7, 0x38, 0x86d6, 0x9015);
    NextByte(m, 8, 0x39, 0x9015, 0x31C3);
    assert m[..9] == m;
  }

  /** The documented check value: the CRC of the digits "123456789" is 0x31C3. */
  lemma CheckValue(m: seq<byte>)
    requires m == [0x31, 0x32, 0x33, 0x34, 0x35, 0x36, 0x37, 0x38, 0x39]
    ensures Remainder(m) == 0x31C3
  {
    hide Register, Remainder;
    ThreeDigits(m);
    SixDigits(m);
    NineDigits(m);
    RegisterIsRemainder(m);
  }
}

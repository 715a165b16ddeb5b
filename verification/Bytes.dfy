/** Machine bytes and the little-endian field codec: every multi-byte header field is
    written and read one byte at a time with masks and shifts. */
module Bytes {

  type byte = bv8
  type u8 = x: int | 0 <= x < 0x100

  function ToByte(n: u8): byte {
    n as bv8
  }

  function FromByte(b: byte): u8 {
    b as int
  }

  /** Byte `i` of a message read from a zero-initialised receive buffer. */
  function At(m: seq<byte>, i: nat): byte {
    if i < |m| then m[i] else 0
  }

  function Zeros(n: nat): (z: seq<byte>) {
    seq(n, _ => 0)
  }

  function Min(a: nat, b: nat): nat {
    if a < b then a else b
  }

  // ---------- unsigned bytes and integers ----------

  lemma IncrementByte(b: byte)
    requires b < 255
    ensures (b + 1) as int == (b as int) + 1
  {}

  lemma {:induction false} ByteHolding(n: u8) returns (b: byte)
    ensures b as int == n
    ensures n < 255 ==> b < 255
  {
    if n == 0 {
      b := 0;
    } else {
      var c := ByteHolding(n - 1);
      b := c + 1;
      IncrementByte(c);
      if b == 255 {
        assert 255 as bv8 as int == 255;
      }
    }
  }

  /** A number that fits a byte survives the trip through one. */
  lemma ByteRoundTrip(n: u8)
    ensures FromByte(ToByte(n)) == n
  {
    var b := ByteHolding(n);
  }

  /** The shift `i * 8` that moves byte `i` of a field to and from the bottom. */
  function Shift(i: nat): (s: bv8)
    requires i < 4
    ensures s <= 24 && (i < 2 ==> s <= 8)
  {
    if i == 0 then 0 else if i == 1 then 8 else if i == 2 then 16 else 24
  }

  // ---------- four-byte fields ----------

  /** Byte `i` of a 32-bit field: mask it out, then shift it down. */
  function ByteOf32(x: bv32, i: nat): byte
    requires i < 4
  {
    ((x & ((255 as bv32) << Shift(i))) >> Shift(i)) as bv8
  }

  function Le32(x: bv32): seq<byte> {
    [ByteOf32(x, 0), ByteOf32(x, 1), ByteOf32(x, 2), ByteOf32(x, 3)]
  }

  /** Shifts byte `i` of a field into place and adds it to what has been read. */
  function Deposit32(x: bv32, b: byte, i: nat): bv32
    requires i < 4
  {
    x | ((b as bv32) << Shift(i))
  }

  /** What the reading loop has accumulated after `n` bytes. */
  function Gather32(m: seq<byte>, at: nat, n: nat): bv32
    requires n <= 4
  {
    if n == 0 then 0
    else Deposit32(Gather32(m, at, n - 1), At(m, at + n - 1), n - 1)
  }

  function From32(a: byte, b: byte, c: byte, d: byte): bv32 {
    (a as bv32) | ((b as bv32) << 8) | ((c as bv32) << 16) | ((d as bv32) << 24)
  }

  lemma GatherFour(m: seq<byte>, at: nat)
    ensures Gather32(m, at, 4) == From32(At(m, at), At(m, at + 1), At(m, at + 2), At(m, at + 3))
  {
    var g1 := Gather32(m, at, 1);
    var g2 := Gather32(m, at, 2);
    var g3 := Gather32(m, at, 3);
    assert Gather32(m, at, 0) == 0;
    assert g1 == At(m, at) as bv32;
    assert g2 == g1 | ((At(m, at + 1) as bv32) << 8);
    assert g3 == g2 | ((At(m, at + 2) as bv32) << 16);
  }

  lemma Field32RoundTrip(x: bv32, m: seq<byte>, at: nat)
    requires at + 4 <= |m| && m[at..at + 4] == Le32(x)
    ensures Gather32(m, at, 4) == x
  {
    GatherFour(m, at);
    assert forall k :: 0 <= k < 4 ==> m[at + k] == m[at..at + 4][k] == Le32(x)[k];
    assert At(m, at) == m[at + 0];
    assert From32(ByteOf32(x, 0), ByteOf32(x, 1), ByteOf32(x, 2), ByteOf32(x, 3)) == x;
  }

  lemma Split32(a: byte, b: byte, c: byte, d: byte)
    ensures Le32(From32(a, b, c, d)) == [a, b, c, d]
  {}

  lemma Bytes32RoundTrip(m: seq<byte>, at: nat)
    requires at + 4 <= |m|
    ensures Le32(Gather32(m, at, 4)) == m[at..at + 4]
  {
    GatherFour(m, at);
    var a, b, c, d := m[at], m[at + 1], m[at + 2], m[at + 3];
    Split32(a, b, c, d);
    assert m[at..at + 4] == [a, b, c, d];
  }

  // ---------- two-byte fields ----------

  function ByteOf16(x: bv16, i: nat): byte
    requires i < 2
  {
    ((x & ((255 as bv16) << Shift(i))) >> Shift(i)) as bv8
  }

  function Le16(x: bv16): seq<byte> {
    [ByteOf16(x, 0), ByteOf16(x, 1)]
  }

  function Deposit16(x: bv16, b: byte, i: nat): bv16
    requires i < 2
  {
    x | ((b as bv16) << Shift(i))
  }

  function Gather16(m: seq<byte>, at: nat, n: nat): bv16
    requires n <= 2
  {
    if n == 0 then 0
    else Deposit16(Gather16(m, at, n - 1), At(m, at + n - 1), n - 1)
  }

  function From16(a: byte, b: byte): bv16 {
    (a as bv16) | ((b as bv16) << 8)
  }

  lemma GatherTwo(m: seq<byte>, at: nat)
    ensures Gather16(m, at, 2) == From16(At(m, at), At(m, at + 1))
  {
    assert Gather16(m, at, 0) == 0;
    assert Gather16(m, at, 1) == At(m, at) as bv16;
  }

  lemma Field16RoundTrip(x: bv16, m: seq<byte>, at: nat)
    requires at + 2 <= |m| && m[at..at + 2] == Le16(x)
    ensures Gather16(m, at, 2) == x
  {
    GatherTwo(m, at);
    assert forall k :: 0 <= k < 2 ==> m[at + k] == m[at..at + 2][k] == Le16(x)[k];
    assert At(m, at) == m[at + 0];
    assert From16(ByteOf16(x, 0), ByteOf16(x, 1)) == x;
  }

  lemma Split16(a: byte, b: byte)
    ensures Le16(From16(a, b)) == [a, b]
  {}

  lemma Bytes16RoundTrip(m: seq<byte>, at: nat)
    requires at + 2 <= |m|
    ensures Le16(Gather16(m, at, 2)) == m[at..at + 2]
  {
    GatherTwo(m, at);
    var a, b := m[at], m[at + 1];
    Split16(a, b);
    assert m[at..at + 2] == [a, b];
  }

  // ---------- the byte order, in numbers ----------

  /** A 32-bit field is written with its lowest byte first. */
  lemma Written32(x: bv32)
    ensures Le32(x) == [(x & 0xff) as bv8, ((x >> 8) & 0xff) as bv8, ((x >> 16) & 0xff) as bv8,
                        (x >> 24) as bv8]
  {}

  lemma Written16(x: bv16)
    ensures Le16(x) == [(x & 0xff) as bv8, (x >> 8) as bv8]
  {}

  /** ... and read in the same order. */
  lemma Read32(m: seq<byte>, at: nat)
    ensures Gather32(m, at, 4)
         == (At(m, at) as bv32) | ((At(m, at + 1) as bv32) << 8) | ((At(m, at + 2) as bv32) << 16)
            | ((At(m, at + 3) as bv32) << 24)
  {
    GatherFour(m, at);
  }

  lemma Read16(m: seq<byte>, at: nat)
    ensures Gather16(m, at, 2) == (At(m, at) as bv16) | ((At(m, at + 1) as bv16) << 8)
  {
    GatherTwo(m, at);
  }
}

/** CRC-16/XMODEM as computed by `crc16_xmodem`: polynomial 0x1021,
    initial register 0, bytes fed most significant bit first, no
    reflection and no final XOR. The register is an unbounded natural, as
    the original's integer is; its `& 0xFFFF` masks are reductions modulo
    2^16 and its `^` is the bitwise exclusive or `Xor` below. */
module Crc16 {
  import opened Bytes

  const Poly: nat := 0x1021
  /** 2^16: masking with 0xFFFF keeps the value modulo this. */
  const Modulus: nat := 0x1_0000
  /** The register's top bit, tested by `crc & 0x8000`. */
  const TopBit: nat := 0x8000

  /** `a ^ b` on non-negative integers, defined bit by bit from the lowest. */
  function Xor(a: nat, b: nat): (r: nat)
    ensures r % 2 == (a + b) % 2
    ensures r <= a + b
    decreases a + b
  {
    if a == 0 then b
    else if b == 0 then a
    else 2 * Xor(a / 2, b / 2) + (if a % 2 == b % 2 then 0 else 1)
  }

  /** One single-bit polynomial-conditional shift of the register. */
  function ShiftBit(crc: nat): (r: nat)
    ensures r < Modulus
  {
    if (crc / TopBit) % 2 == 1 then Xor(crc * 2, Poly) % Modulus else (crc * 2) % Modulus
  }

  /** `k` single-bit shifts. */
  function ShiftBits(crc: nat, k: nat): nat
    decreases k
  {
    if k == 0 then crc else ShiftBit(ShiftBits(crc, k - 1))
  }

  /** Feeding one byte: XOR it into the top half, then eight shifts. */
  function FeedByte(crc: nat, b: byte): (r: nat)
    ensures r < Modulus
  {
    ShiftBits(Xor(crc, b as int * 256), 8)
  }

  /** The CRC of `data`, fed left to right from the initial register 0. */
  function Crc(data: seq<byte>): (r: nat)
    ensures r < Modulus
  {
    if data == [] then 0 else FeedByte(Crc(data[..|data| - 1]), data[|data| - 1])
  }

  /** `crc16_xmodem`: nested loops over the bytes and over their bits. */
  method Crc16Xmodem(data: seq<byte>) returns (crc: nat)
    ensures crc == Crc(data)
    ensures crc < Modulus
  {
    crc := 0;
    for i := 0 to |data|
      invariant crc == Crc(data[..i])
    {
      assert data[..i + 1][..i] == data[..i];
      crc := Xor(crc, data[i] as int * 256);
      ghost var fed := crc;
      for j := 0 to 8
        invariant crc == ShiftBits(fed, j)
      {
        if (crc / TopBit) % 2 == 1 {
          crc := Xor(crc * 2, Poly) % Modulus;
        } else {
          crc := (crc * 2) % Modulus;
        }
      }
    }
    assert data[..|data|] == data;
  }

  /** The empty input leaves the initial register untouched. */
  lemma CrcEmpty()
    ensures Crc([]) == 0
  {
  }

  /** The CRC of a concatenation continues from the CRC of the prefix. */
  function CrcFrom(crc: nat, data: seq<byte>): nat
    decreases |data|
  {
    if data == [] then crc else CrcFrom(FeedByte(crc, data[0]), data[1..])
  }

  lemma {:induction false} CrcAppend(a: seq<byte>, b: seq<byte>)
    ensures Crc(a + b) == CrcFrom(Crc(a), b)
    decreases |b|
  {
    if b == [] {
      assert a + b == a;
    } else {
      var a' := a + [b[0]];
      assert a' + b[1..] == a + b;
      assert a'[..|a'| - 1] == a;
      CrcAppend(a', b[1..]);
    }
  }

  /** Feeding a register's own value back, high byte first, clears it:
      this is why a frame that carries its CRC big-endian at the end has a
      CRC of zero over all of its bytes. */
  lemma FeedOwnValueClears(c: nat)
    requires c < Modulus
    ensures FeedByte(FeedByte(c, c / 256), c % 256) == 0
  {
    var high, low := c / 256, c % 256;
    XorHighBits(high, low, 8);
    assert Pow2(8) == 256;
    assert Xor(c, high * 256) == low;
    ShiftLowByte(low);
    assert FeedByte(c, high) == low * 256;
    XorSelf(low * 256);
    ShiftZero(8);
  }

  /** 2^k. */
  function Pow2(k: nat): (r: nat)
    ensures r >= 1
  {
    if k == 0 then 1 else 2 * Pow2(k - 1)
  }

  /** XOR of a value with itself is zero. */
  lemma {:induction false} XorSelf(a: nat)
    ensures Xor(a, a) == 0
    decreases a
  {
    if a != 0 {
      XorSelf(a / 2);
    }
  }

  /** Cancelling the bits at and above position `k` leaves the low bits. */
  lemma {:induction false} XorHighBits(h: nat, l: nat, k: nat)
    requires l < Pow2(k)
    ensures Xor(h * Pow2(k) + l, h * Pow2(k)) == l
    decreases k
  {
    if k == 0 {
      XorSelf(h);
    } else if h != 0 {
      var q := Pow2(k - 1);
      assert h * Pow2(k) == 2 * (h * q);
      assert (h * Pow2(k) + l) / 2 == h * q + l / 2;
      assert (h * Pow2(k) + l) % 2 == l % 2;
      XorHighBits(h, l / 2, k - 1);
    }
  }

  /** A value below 0x100 is shifted eight times without meeting the polynomial. */
  lemma ShiftLowByte(v: nat)
    requires v < 256
    ensures ShiftBits(v, 8) == v * 256
  {
    var x1 := v + v;
    var x2 := x1 + x1;
    var x3 := x2 + x2;
    var x4 := x3 + x3;
    var x5 := x4 + x4;
    var x6 := x5 + x5;
    var x7 := x6 + x6;
    ShiftNoCarry(v);
    assert ShiftBits(v, 1) == x1;
    ShiftNoCarry(x1);
    assert ShiftBits(v, 2) == x2;
    ShiftNoCarry(x2);
    assert ShiftBits(v, 3) == x3;
    ShiftNoCarry(x3);
    assert ShiftBits(v, 4) == x4;
    ShiftNoCarry(x4);
    assert ShiftBits(v, 5) == x5;
    ShiftNoCarry(x5);
    assert ShiftBits(v, 6) == x6;
    ShiftNoCarry(x6);
    assert ShiftBits(v, 7) == x7;
    ShiftNoCarry(x7);
  }

  /** Below the top bit a shift never applies the polynomial. */
  lemma ShiftNoCarry(x: nat)
    requires x < TopBit
    ensures ShiftBit(x) == x + x
  {
  }

  lemma {:induction false} ShiftZero(k: nat)
    ensures ShiftBits(0, k) == 0
  {
    if k > 0 {
      ShiftZero(k - 1);
      ShiftNoCarry(0);
    }
  }

  /** Appending one byte feeds it to the register of the prefix. */
  lemma CrcSnoc(p: seq<byte>, b: byte)
    ensures Crc(p + [b]) == FeedByte(Crc(p), b)
  {
    assert (p + [b])[..|p|] == p;
  }
}

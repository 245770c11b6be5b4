/**
 * The CRC-16 the save codec appends to a record: a bit-serial, table-free
 * CRC with initial register 0xFFFF, reflected polynomial 0xA001 applied
 * least-significant bit first, and no final XOR (the CRC-16/MODBUS
 * parameter set).
 *
 * The register is a natural number below 2^16. JavaScript's `^`, `& 1` and
 * `>> 1` act on it as bitwise XOR, `% 2` and `/ 2`, because it starts at
 * 0xFFFF and is only ever XORed with a byte or with 0xA001 and shifted right.
 */
module Crc16 {
  import opened Bytes

  const INIT: nat := 0xFFFF

  /** Bitwise XOR of two naturals, one bit at a time from the least significant end. */
  function Xor(a: nat, b: nat): nat
    decreases a + b
  {
    if a == 0 && b == 0 then 0 else 2 * Xor(a / 2, b / 2) + (a + b) % 2
  }

  function Pow2(n: nat): nat
    decreases n
  {
    if n == 0 then 1 else 2 * Pow2(n - 1)
  }

  /** One bit step: shift right, and XOR in the polynomial when the bit shifted out was 1. */
  function Shift(crc: nat): nat {
    Step(crc, 0xA001)
  }

  /** `n` bit steps. */
  function ShiftN(crc: nat, n: nat): nat
    decreases n
  {
    if n == 0 then crc else Shift(ShiftN(crc, n - 1))
  }

  /** One byte: XOR it into the low end of the register, then eight bit steps. */
  function UpdateByte(crc: nat, b: byte): nat {
    ShiftN(Xor(crc, b), 8)
  }

  /** The register after feeding `data` in order, starting from `crc`. */
  function CrcFrom(crc: nat, data: seq<byte>): nat
    decreases |data|
  {
    if data == [] then crc else CrcFrom(UpdateByte(crc, data[0]), data[1..])
  }

  /** The reference definition of the checksum. */
  function Crc16(data: seq<byte>): nat {
    CrcFrom(INIT, data)
  }

  /** `calculateCRC16`: the source's nested loop; it computes the reference checksum, a 16-bit value. */
  method CalculateCrc16(data: seq<byte>) returns (crc: nat)
    ensures crc == Crc16(data)
    ensures crc < 0x1_0000
  {
    crc := INIT;
    var i := 0;
    while i < |data|
      invariant 0 <= i <= |data|
      invariant crc < 0x1_0000
      invariant CrcFrom(crc, data[i..]) == Crc16(data)
    {
      crc := FeedByte(crc, data[i]);
      assert data[i..][1..] == data[i + 1..];
      i := i + 1;
    }
  }

  /** The body of the outer loop: XOR the byte in, then eight shift-and-conditionally-XOR steps. */
  method FeedByte(crc0: nat, b: byte) returns (crc: nat)
    requires crc0 < 0x1_0000
    ensures crc == UpdateByte(crc0, b)
    ensures crc < 0x1_0000
  {
    Xor16(crc0, b);
    crc := Xor(crc0, b);
    ghost var x := crc;
    var j := 0;
    while j < 8
      invariant 0 <= j <= 8
      invariant crc < 0x1_0000
      invariant crc == ShiftN(x, j)
    {
      ShiftBound(crc);
      crc := if crc % 2 == 1 then Xor(crc / 2, 0xA001) else crc / 2;
      j := j + 1;
    }
  }

  // ---------------------------------------------------------------------
  // XOR algebra

  lemma {:induction false} XorComm(a: nat, b: nat)
    ensures Xor(a, b) == Xor(b, a)
    decreases a + b
  {
    if a != 0 || b != 0 {
      XorComm(a / 2, b / 2);
    }
  }

  lemma {:induction false} XorZero(a: nat)
    ensures Xor(a, 0) == a
    decreases a
  {
    if a != 0 {
      XorZero(a / 2);
    }
  }

  lemma {:induction false} XorSelf(a: nat)
    ensures Xor(a, a) == 0
    decreases a
  {
    if a != 0 {
      XorSelf(a / 2);
    }
  }

  /** The two facts every bit-level argument below starts from. */
  lemma XorLowAndHigh(a: nat, b: nat)
    ensures Xor(a, b) % 2 == (a + b) % 2
    ensures Xor(a, b) / 2 == Xor(a / 2, b / 2)
  {
    if a == 0 && b == 0 {
      assert Xor(a / 2, b / 2) == 0;
    } else {
      var x, r := Xor(a / 2, b / 2), (a + b) % 2;
      assert Xor(a, b) == 2 * x + r;
      HalfOfDouble(x, r);
    }
  }

  lemma HalfOfDouble(x: nat, r: nat)
    requires r < 2
    ensures (2 * x + r) % 2 == r && (2 * x + r) / 2 == x
  {
  }

  lemma {:induction false} XorAssoc(a: nat, b: nat, c: nat)
    ensures Xor(Xor(a, b), c) == Xor(a, Xor(b, c))
    decreases a + b + c
  {
    var ab, bc := Xor(a, b), Xor(b, c);
    var l, r := Xor(ab, c), Xor(a, bc);
    if a == 0 && b == 0 && c == 0 {
      assert ab == 0 && bc == 0;
    } else {
      XorLowAndHigh(a, b);
      XorLowAndHigh(ab, c);
      XorLowAndHigh(b, c);
      XorLowAndHigh(a, bc);
      XorAssoc(a / 2, b / 2, c / 2);
      assert l / 2 == r / 2;
      ParityCombine(a, b, c, ab, bc, l, r);
      EqualByHalves(l, r);
    }
  }

  /** The low-bit half of associativity, stated on plain numbers. */
  lemma ParityCombine(a: nat, b: nat, c: nat, ab: nat, bc: nat, l: nat, r: nat)
    requires ab % 2 == (a + b) % 2 && bc % 2 == (b + c) % 2
    requires l % 2 == (ab + c) % 2 && r % 2 == (a + bc) % 2
    ensures l % 2 == r % 2
  {
  }

  lemma EqualByHalves(l: nat, r: nat)
    requires l / 2 == r / 2 && l % 2 == r % 2
    ensures l == r
  {
  }

  lemma {:induction false} XorZeroMeansEqual(a: nat, b: nat)
    requires Xor(a, b) == 0
    ensures a == b
    decreases a + b
  {
    XorLowAndHigh(a, b);
    if a != 0 || b != 0 {
      XorZeroMeansEqual(a / 2, b / 2);
    }
  }

  lemma {:induction false} XorBound(a: nat, b: nat, n: nat)
    requires a < Pow2(n) && b < Pow2(n)
    ensures Xor(a, b) < Pow2(n)
    decreases n
  {
    if n > 0 && (a != 0 || b != 0) {
      XorBound(a / 2, b / 2, n - 1);
    }
  }

  /** XOR keeps a value within 16 bits. */
  lemma Xor16(a: nat, b: nat)
    requires a < 0x1_0000 && b < 0x1_0000
    ensures Xor(a, b) < 0x1_0000
  {
    Pow2Values();
    XorBound(a, b, 16);
  }

  lemma Pow2Values()
    ensures Pow2(8) == 0x100 && Pow2(15) == 0x8000 && Pow2(16) == 0x1_0000
  {
    assert Pow2(0) == 1;
    assert Pow2(2) == 4;
    assert Pow2(4) == 16;
    assert Pow2(6) == 64;
    assert Pow2(8) == 0x100;
    assert Pow2(10) == 0x400;
    assert Pow2(12) == 0x1000;
    assert Pow2(14) == 0x4000;
    assert Pow2(15) == 0x8000;
  }

  lemma ShiftBound(crc: nat)
    requires crc < 0x1_0000
    ensures Shift(crc) < 0x1_0000
  {
    Xor16(crc / 2, 0xA001);
  }

  // ---------------------------------------------------------------------
  // The register update is linear and injective

  /** A bit step is linear over GF(2) ... */
  lemma ShiftLinear(x: nat, y: nat)
    ensures Shift(Xor(x, y)) == Xor(Shift(x), Shift(y))
  {
    StepLinear(x, y, 0xA001);
  }

  /** A bit step for polynomial `p`. */
  function Step(crc: nat, p: nat): nat {
    if crc % 2 == 1 then Xor(crc / 2, p) else crc / 2
  }

  lemma StepLinear(x: nat, y: nat, p: nat)
    ensures Step(Xor(x, y), p) == Xor(Step(x, p), Step(y, p))
  {
    var z := Xor(x, y);
    XorLowAndHigh(x, y);
    OddSum(x, y, z);
    var a, b := x / 2, y / 2;
    assert z / 2 == Xor(a, b);
    if x % 2 == 1 && y % 2 == 1 {
      assert Step(z, p) == Xor(a, b);
      SameByteCancels(a, b, p);
    } else if x % 2 == 1 {
      assert Step(z, p) == Xor(Xor(a, b), p);
      XorSwapRight(a, b, p);
    } else if y % 2 == 1 {
      assert Step(z, p) == Xor(Xor(a, b), p);
      XorAssoc(a, b, p);
    } else {
      assert Step(z, p) == Xor(a, b);
    }
  }

  lemma OddSum(x: nat, y: nat, z: nat)
    requires z % 2 == (x + y) % 2
    ensures z % 2 == 1 <==> x % 2 != y % 2
  {
  }

  /** `(a ^ b) ^ p == (a ^ p) ^ b`. */
  lemma XorSwapRight(a: nat, b: nat, p: nat)
    ensures Xor(Xor(a, b), p) == Xor(Xor(a, p), b)
  {
    XorAssoc(a, b, p);
    XorComm(b, p);
    XorAssoc(a, p, b);
  }

  /** ... and sends only zero to zero, so on 16-bit registers it is a bijection. */
  lemma ShiftZero(x: nat)
    requires x < 0x1_0000
    ensures Shift(x) == 0 <==> x == 0
  {
    if x % 2 == 1 && Shift(x) == 0 {
      XorZeroMeansEqual(x / 2, 0xA001);
      assert false;
    }
  }

  lemma {:induction false} ShiftNLinear(x: nat, y: nat, n: nat)
    ensures ShiftN(Xor(x, y), n) == Xor(ShiftN(x, n), ShiftN(y, n))
    decreases n
  {
    if n > 0 {
      ShiftNLinear(x, y, n - 1);
      ShiftLinear(ShiftN(x, n - 1), ShiftN(y, n - 1));
    }
  }

  lemma {:induction false} ShiftNZero(x: nat, n: nat)
    requires x < 0x1_0000
    ensures ShiftN(x, n) == 0 <==> x == 0
    decreases n
  {
    if n > 0 {
      ShiftNZero(x, n - 1);
      ShiftNBound(x, n - 1);
      ShiftZero(ShiftN(x, n - 1));
    }
  }

  lemma {:induction false} ShiftNBound(x: nat, n: nat)
    requires x < 0x1_0000
    ensures ShiftN(x, n) < 0x1_0000
    decreases n
  {
    if n > 0 {
      ShiftNBound(x, n - 1);
      ShiftBound(ShiftN(x, n - 1));
    }
  }

  // ---------------------------------------------------------------------
  // Properties of the checksum

  /** Feeding `a + b` is feeding `a`, then `b`. */
  lemma {:induction false} CrcAppend(crc: nat, a: seq<byte>, b: seq<byte>)
    ensures CrcFrom(crc, a + b) == CrcFrom(CrcFrom(crc, a), b)
    decreases |a|
  {
    if a != [] {
      calc {
        CrcFrom(crc, a + b);
        { assert (a + b)[0] == a[0]; assert (a + b)[1..] == a[1..] + b; }
        CrcFrom(UpdateByte(crc, a[0]), a[1..] + b);
        { CrcAppend(UpdateByte(crc, a[0]), a[1..], b); }
        CrcFrom(CrcFrom(UpdateByte(crc, a[0]), a[1..]), b);
      }
    } else {
      assert a + b == b;
    }
  }

  /** The checksum is a 16-bit value. */
  lemma {:induction false} CrcFromBound(crc: nat, data: seq<byte>)
    requires crc < 0x1_0000
    ensures CrcFrom(crc, data) < 0x1_0000
    decreases |data|
  {
    if data != [] {
      Xor16(crc, data[0]);
      ShiftNBound(Xor(crc, data[0]), 8);
      CrcFromBound(UpdateByte(crc, data[0]), data[1..]);
    }
  }

  lemma Crc16Bound(data: seq<byte>)
    ensures Crc16(data) < 0x1_0000
  {
    CrcFromBound(INIT, data);
  }

  /** Two different 16-bit registers stay different whatever bytes follow. */
  lemma {:induction false} CrcFromSeparates(c1: nat, c2: nat, data: seq<byte>)
    requires c1 < 0x1_0000 && c2 < 0x1_0000 && c1 != c2
    ensures CrcFrom(c1, data) != CrcFrom(c2, data)
    decreases |data|
  {
    if data != [] {
      var b := data[0];
      var x, y := Xor(c1, b), Xor(c2, b);
      Xor16(c1, b);
      Xor16(c2, b);
      Xor16(x, y);
      SameByteCancels(c1, c2, b);
      ShiftNLinear(x, y, 8);
      ShiftNZero(Xor(x, y), 8);
      if UpdateByte(c1, b) == UpdateByte(c2, b) {
        XorSelf(UpdateByte(c1, b));
        assert Xor(x, y) == 0;
        XorZeroMeansEqual(c1, c2);
        assert false;
      }
      ShiftNBound(x, 8);
      ShiftNBound(y, 8);
      CrcFromSeparates(UpdateByte(c1, b), UpdateByte(c2, b), data[1..]);
    }
  }

  /** `(c1 ^ b) ^ (c2 ^ b) == c1 ^ c2`. */
  lemma SameByteCancels(c1: nat, c2: nat, b: nat)
    ensures Xor(Xor(c1, b), Xor(c2, b)) == Xor(c1, c2)
  {
    XorAssoc(c1, b, Xor(c2, b));
    XorComm(c2, b);
    XorAssoc(b, b, c2);
    XorSelf(b);
    XorComm(0, c2);
    XorZero(c2);
  }

  /**
   * Changing any one byte of the input (in particular flipping any one bit)
   * changes the checksum.
   */
  lemma SingleByteChangeDetected(d1: seq<byte>, d2: seq<byte>, i: nat)
    requires |d1| == |d2| && i < |d1|
    requires d1[i] != d2[i]
    requires forall j :: 0 <= j < |d1| && j != i ==> d1[j] == d2[j]
    ensures Crc16(d1) != Crc16(d2)
  {
    var pre, post := d1[..i], d1[i + 1..];
    assert d2[..i] == pre;
    assert d2[i + 1..] == post;
    assert d1 == pre + ([d1[i]] + post);
    assert d2 == pre + ([d2[i]] + post);
    CrcAppend(INIT, pre, [d1[i]] + post);
    CrcAppend(INIT, pre, [d2[i]] + post);
    var c := CrcFrom(INIT, pre);
    CrcFromBound(INIT, pre);
    assert ([d1[i]] + post)[1..] == post;
    assert ([d2[i]] + post)[1..] == post;
    var x, y := Xor(c, d1[i]), Xor(c, d2[i]);
    Xor16(c, d1[i]);
    Xor16(c, d2[i]);
    Xor16(x, y);
    ShiftNLinear(x, y, 8);
    ShiftNZero(Xor(x, y), 8);
    if UpdateByte(c, d1[i]) == UpdateByte(c, d2[i]) {
      XorSelf(UpdateByte(c, d1[i]));
      XorComm(c, d1[i]);
      XorComm(c, d2[i]);
      SameByteCancels(d1[i], d2[i], c);
      XorZeroMeansEqual(d1[i], d2[i]);
      assert false;
    }
    ShiftNBound(x, 8);
    ShiftNBound(y, 8);
    CrcFromSeparates(UpdateByte(c, d1[i]), UpdateByte(c, d2[i]), post);
  }
}

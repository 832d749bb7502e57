/** The field GF(2^8) modulo x^8 + x^4 + x^3 + x^2 + 1 (0x11D), in which the error correction of a QR code works. */
module Gf256 {
  import opened Fields
  import opened Horner

  type Byte = bv8

  /** Multiplication by the polynomial x (the byte 2), reduced. */
  function Double(z: Byte): Byte {
    if z & 0x80 == 0 then z << 1 else (z << 1) ^ 0x1D
  }

  /** Bit i of y, bit 0 being the least significant one. */
  predicate Bit(y: Byte, i: nat)
    requires i < 8
  {
    (y >> i) & 1 == 1
  }

  /** The bits of y, the most significant one first. */
  function Bits(y: Byte): seq<bool> {
    seq(8, i requires 0 <= i < 8 => Bit(y, 7 - i))
  }

  const BYTES: Doubling<Byte> :=
    Doubling(0, 1, (a: Byte, b: Byte) => a ^ b, (z: Byte) => Double(z), (y: Byte) => Bits(y))

  const FIELD: Field<Byte> := AsField(BYTES)

  // ----- Doubling is linear -----

  lemma DoubleXor(a: Byte, b: Byte)
    ensures Double(a ^ b) == Double(a) ^ Double(b)
  {
    if a & 0x80 == 0 {
      if b & 0x80 == 0 {} else {}
    } else {
      if b & 0x80 == 0 {} else {}
    }
  }

  lemma HighHalf(y: Byte)
    ensures AppendFour(BYTES, 0, [Bit(y, 7), Bit(y, 6), Bit(y, 5), Bit(y, 4)]) == y >> 4
  {}

  lemma LowHalf(y: Byte)
    ensures AppendFour(BYTES, y >> 4, [Bit(y, 3), Bit(y, 2), Bit(y, 1), Bit(y, 0)]) == y
  {}

  lemma Reassemble(y: Byte)
    ensures Times(BYTES, 1, Bits(y)) == y
  {
    var high, low := [Bit(y, 7), Bit(y, 6), Bit(y, 5), Bit(y, 4)], [Bit(y, 3), Bit(y, 2), Bit(y, 1), Bit(y, 0)];
    BitsSplit(y);
    assert [] + high == high;
    FourBits(BYTES, [], high);
    HighHalf(y);
    FourBits(BYTES, high, low);
    LowHalf(y);
  }

  lemma BitsSplit(y: Byte)
    ensures Bits(y) == [Bit(y, 7), Bit(y, 6), Bit(y, 5), Bit(y, 4)] + [Bit(y, 3), Bit(y, 2), Bit(y, 1), Bit(y, 0)]
  {}

  // ----- Every byte but zero is a power of two -----

  function Double4(z: Byte): Byte { Double(Double(Double(Double(z)))) }
  function Double16(z: Byte): Byte { Double4(Double4(Double4(Double4(z)))) }

  predicate InQuad(z: Byte, b: Byte) {
    b == z || b == Double(z) || b == Double(Double(z)) || b == Double(Double(Double(z)))
  }

  /** b is one of the sixteen bytes z, 2z, ... 2^15 z. */
  predicate InRow(z: Byte, b: Byte) {
    InQuad(z, b) || InQuad(Double4(z), b) || InQuad(Double4(Double4(z)), b) || InQuad(Double4(Double4(Double4(z))), b)
  }

  // The bytes 2^1, 2^17, ..., 2^241, each sixteen doublings after the one before.

  lemma RowsFollow()
    ensures Double16(0x02) == 0x98 && Double16(0x98) == 0x27 && Double16(0x27) == 0x8C
         && Double16(0x8C) == 0xBE && Double16(0xBE) == 0xE7 && Double16(0xE7) == 0xAF
         && Double16(0xAF) == 0x1F && Double16(0x1F) == 0x17 && Double16(0x17) == 0x4D
         && Double16(0x4D) == 0xD1 && Double16(0xD1) == 0xDB && Double16(0xDB) == 0x19
         && Double16(0x19) == 0xA2 && Double16(0xA2) == 0x24 && Double16(0x24) == 0x58
  {}

  lemma FirstRowsAvoidOne()
    ensures !InRow(0x02, 1) && !InRow(0x98, 1) && !InRow(0x27, 1) && !InRow(0x8C, 1)
  {}

  lemma MiddleRowsAvoidOne()
    ensures !InRow(0xBE, 1) && !InRow(0xE7, 1) && !InRow(0xAF, 1) && !InRow(0x1F, 1)
  {}

  lemma LateRowsAvoidOne()
    ensures !InRow(0x17, 1) && !InRow(0x4D, 1) && !InRow(0xD1, 1) && !InRow(0xDB, 1)
         && !InRow(0x19, 1) && !InRow(0xA2, 1) && !InRow(0x24, 1)
  {}

  lemma RowsCover(b: Byte)
    requires b != 0
    ensures InRow(0x02, b) || InRow(0x98, b) || InRow(0x27, b) || InRow(0x8C, b)
         || InRow(0xBE, b) || InRow(0xE7, b) || InRow(0xAF, b) || InRow(0x1F, b)
         || InRow(0x17, b) || InRow(0x4D, b) || InRow(0xD1, b) || InRow(0xDB, b)
         || InRow(0x19, b) || InRow(0xA2, b) || InRow(0x24, b) || InRow(0x58, b)
  {}

  /** 2^n. */
  function Pow2(n: nat): Byte {
    DoubleN(BYTES, 1, n)
  }

  /** The start of row k, as a power of two. */
  function Row(k: nat): Byte {
    Pow2(1 + 16 * k)
  }

  lemma FourDoublings(z: Byte, m: nat)
    requires z == Pow2(m)
    ensures Double(z) == Pow2(m + 1) && Double(Double(z)) == Pow2(m + 2)
    ensures Double(Double(Double(z))) == Pow2(m + 3) && Double4(z) == Pow2(m + 4)
  {}

  lemma SixteenDoublings(z: Byte, m: nat)
    requires z == Pow2(m)
    ensures Double16(z) == Pow2(m + 16)
    ensures forall b :: InRow(z, b) <==> exists n :: m <= n < m + 16 && Pow2(n) == b
  {
    FourDoublings(z, m);
    FourDoublings(Double4(z), m + 4);
    FourDoublings(Double4(Double4(z)), m + 8);
    FourDoublings(Double4(Double4(Double4(z))), m + 12);
  }

  lemma RowValues()
    ensures Pow2(1) == 0x02 && Pow2(17) == 0x98 && Pow2(33) == 0x27 && Pow2(49) == 0x8C
         && Pow2(65) == 0xBE && Pow2(81) == 0xE7 && Pow2(97) == 0xAF && Pow2(113) == 0x1F
         && Pow2(129) == 0x17 && Pow2(145) == 0x4D && Pow2(161) == 0xD1 && Pow2(177) == 0xDB
         && Pow2(193) == 0x19 && Pow2(209) == 0xA2 && Pow2(225) == 0x24 && Pow2(241) == 0x58
  {
    assert Pow2(1) == 0x02;
    RowsFollow();
    SixteenDoublings(0x02, 1);
    SixteenDoublings(0x98, 17);
    SixteenDoublings(0x27, 33);
    SixteenDoublings(0x8C, 49);
    SixteenDoublings(0xBE, 65);
    SixteenDoublings(0xE7, 81);
    SixteenDoublings(0xAF, 97);
    SixteenDoublings(0x1F, 113);
    SixteenDoublings(0x17, 129);
    SixteenDoublings(0x4D, 145);
    SixteenDoublings(0xD1, 161);
    SixteenDoublings(0xDB, 177);
    SixteenDoublings(0x19, 193);
    SixteenDoublings(0xA2, 209);
    SixteenDoublings(0x24, 225);
  }

  lemma PowerExists(b: Byte)
    requires b != 0
    ensures exists n :: Pow2(n) == b
  {
    RowsCover(b);
    RowValues();
    SixteenDoublings(0x02, 1);
    SixteenDoublings(0x98, 17);
    SixteenDoublings(0x27, 33);
    SixteenDoublings(0x8C, 49);
    SixteenDoublings(0xBE, 65);
    SixteenDoublings(0xE7, 81);
    SixteenDoublings(0xAF, 97);
    SixteenDoublings(0x1F, 113);
    SixteenDoublings(0x17, 129);
    SixteenDoublings(0x4D, 145);
    SixteenDoublings(0xD1, 161);
    SixteenDoublings(0xDB, 177);
    SixteenDoublings(0x19, 193);
    SixteenDoublings(0xA2, 209);
    SixteenDoublings(0x24, 225);
    SixteenDoublings(0x58, 241);
  }

  lemma LastRowAvoidsOne()
    ensures !InQuad(0x58, 1) && !InQuad(Double4(0x58), 1) && !InQuad(Double4(Double4(0x58)), 1)
    ensures var z := Double4(Double4(Double4(0x58))); z != 1 && Double(z) != 1
  {}

  lemma RowAvoidsOne(z: Byte, m: nat)
    requires z == Pow2(m) && !InRow(z, 1)
    ensures forall n :: m <= n < m + 16 ==> Pow2(n) != 1
  {
    SixteenDoublings(z, m);
  }

  lemma EndAvoidsOne(z: Byte, m: nat)
    requires z == Pow2(m) && !InQuad(z, 1) && !InQuad(Double4(z), 1) && !InQuad(Double4(Double4(z)), 1)
    requires var y := Double4(Double4(Double4(z))); y != 1 && Double(y) != 1
    ensures forall n :: m <= n < m + 14 ==> Pow2(n) != 1
  {
    FourDoublings(z, m);
    FourDoublings(Double4(z), m + 4);
    FourDoublings(Double4(Double4(z)), m + 8);
    FourDoublings(Double4(Double4(Double4(z))), m + 12);
  }

  lemma PowerNotOne(n: nat)
    requires 0 < n < 255
    ensures Pow2(n) != 1
  {
    FirstRowsAvoidOne();
    MiddleRowsAvoidOne();
    LateRowsAvoidOne();
    LastRowAvoidsOne();
    RowValues();
    RowAvoidsOne(0x02, 1);
    RowAvoidsOne(0x98, 17);
    RowAvoidsOne(0x27, 33);
    RowAvoidsOne(0x8C, 49);
    RowAvoidsOne(0xBE, 65);
    RowAvoidsOne(0xE7, 81);
    RowAvoidsOne(0xAF, 97);
    RowAvoidsOne(0x1F, 113);
    RowAvoidsOne(0x17, 129);
    RowAvoidsOne(0x4D, 145);
    RowAvoidsOne(0xD1, 161);
    RowAvoidsOne(0xDB, 177);
    RowAvoidsOne(0x19, 193);
    RowAvoidsOne(0xA2, 209);
    RowAvoidsOne(0x24, 225);
    EndAvoidsOne(0x58, 241);
  }

  // ----- The field -----

  lemma AddIsXor(a: Byte, b: Byte)
    ensures BYTES.add(a, b) == a ^ b
  {}

  lemma XorLaws(a: Byte, b: Byte, c: Byte)
    ensures a ^ b == b ^ a && (a ^ b) ^ c == a ^ (b ^ c) && a ^ 0 == a && a ^ a == 0
  {}

  lemma XorIsGroup(a: Byte, b: Byte, c: Byte)
    ensures GroupAt(BYTES, a, b, c)
  {
    AddIsXor(a, b);
    AddIsXor(b, a);
    AddIsXor(a ^ b, c);
    AddIsXor(b, c);
    AddIsXor(a, b ^ c);
    AddIsXor(a, 0);
    AddIsXor(a, a);
    XorLaws(a, b, c);
  }

  lemma DoubleIsLinear(a: Byte, b: Byte)
    ensures LinearAt(BYTES, a, b)
  {
    AddIsXor(a, b);
    AddIsXor(Double(a), Double(b));
    DoubleXor(a, b);
  }

  lemma BytesAreLinear()
    ensures IsLinear(BYTES)
  {
    forall a, b, c ensures GroupAt(BYTES, a, b, c) { XorIsGroup(a, b, c); }
    forall a, b ensures LinearAt(BYTES, a, b) { DoubleIsLinear(a, b); }
    forall a ensures BitsAt(BYTES, a) { Reassemble(a); }
  }

  lemma CyclicBytes(a: Byte)
    ensures CyclicAt(BYTES, a)
  {
    if a != 0 { PowerExists(a); }
  }

  lemma BytesAreCyclic()
    ensures IsCyclic(BYTES)
  {
    forall a
      ensures CyclicAt(BYTES, a)
    {
      CyclicBytes(a);
    }
  }

  lemma EndOfTurn(z: Byte, m: nat)
    requires z == Pow2(m)
    ensures Double(Double(Double4(Double4(Double4(z))))) == Pow2(m + 14)
  {
    FourDoublings(z, m);
    FourDoublings(Double4(z), m + 4);
    FourDoublings(Double4(Double4(z)), m + 8);
    assert Pow2(m + 13) == Double(Pow2(m + 12)) && Pow2(m + 14) == Double(Pow2(m + 13));
  }

  lemma WholeTurn()
    ensures Pow2(255) == 1
  {
    RowValues();
    EndOfTurn(0x58, 241);
  }

  lemma BytesFormAField()
    ensures IsField(FIELD) && HasInverses(FIELD)
  {
    BytesAreLinear();
    BytesAreCyclic();
    FormsField(BYTES);
    WholeTurn();
    forall a ensures InverseAt(FIELD, a) {
      CyclicInverse(BYTES, 255, a);
    }
  }

  lemma PowersAreDistinct(i: nat, j: nat)
    requires i < j < i + 255
    ensures Pow2(i) != Pow2(j)
  {
    if Pow2(i) == Pow2(j) {
      DoubleNAdd(BYTES, 1, j - i, i);
      BytesAreLinear();
      BytesAreCyclic();
      DoublingCancels(BYTES, Pow2(j - i), 1, i);
      PowerNotOne(j - i);
    }
  }
}

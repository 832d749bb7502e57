/** The shift-and-xor multiplication of the encoder, and why it is multiplication modulo 0x11D. */
module GfMultiply {
  import opened Fields
  import opened Horner
  import opened Gf256

  const MODULUS: bv16 := 0x11D

  // ----- The loop -----

  /** One pass of the loop body on the accumulator, which is wider than a byte. */
  function Accumulate(z: bv16, x: Byte, y: Byte, i: nat): bv16
    requires i < 8
  {
    var shifted := (z << 1) ^ ((z >> 7) * MODULUS);
    shifted ^ (((y >> i) & 1) as bv16 * (x as bv16))
  }

  /** Russian peasant multiplication; the accumulator never leaves the range of a byte. */
  method Multiply(x: Byte, y: Byte) returns (r: Byte)
    ensures r == Mul(BYTES, x, y)
  {
    var z: bv16 := 0;
    ghost var h: Byte := 0;
    for i := 8 downto 0
      invariant h == Times(BYTES, x, Bits(y)[..8 - i])
      invariant z == h as bv16
    {
      LoopStep(h, x, y, i);
      z := Accumulate(z, x, y, i);
      h := Step(h, x, Bit(y, i));
    }
    assert Bits(y)[..8] == Bits(y);
    FitsByte(h);
    assert z >> 8 == 0;
    r := z as Byte;
  }

  function Step(h: Byte, x: Byte, bit: bool): Byte {
    Double(h) ^ (if bit then x else 0)
  }

  lemma FitsByte(h: Byte)
    ensures h as bv16 < 0x100 && (h as bv16) >> 8 == 0 && h as bv16 as Byte == h
  {}

  lemma LoopStep(h: Byte, x: Byte, y: Byte, i: nat)
    requires i < 8
    ensures Accumulate(h as bv16, x, y, i) == Step(h, x, Bit(y, i)) as bv16
    ensures h == Times(BYTES, x, Bits(y)[..7 - i]) ==> Step(h, x, Bit(y, i)) == Times(BYTES, x, Bits(y)[..8 - i])
  {
    ShiftIsDouble(h);
    LowBit(y, i);
    PickIsProduct(Double(h), Bit(y, i), x);
    NextBit(x, y, i);
  }

  lemma NextBit(x: Byte, y: Byte, i: nat)
    requires i < 8
    ensures Times(BYTES, x, Bits(y)[..8 - i]) == Step(Times(BYTES, x, Bits(y)[..7 - i]), x, Bit(y, i))
  {
    var b := Bits(y)[..7 - i];
    assert Bits(y)[..8 - i] == b + [Bit(y, i)];
    AppendIsStep(x, b, Bit(y, i));
  }

  lemma AppendIsStep(x: Byte, bits: seq<bool>, bit: bool)
    ensures Times(BYTES, x, bits + [bit]) == Step(Times(BYTES, x, bits), x, bit)
  {
    TimesAppend(BYTES, x, bits, bit);
    AddIsXor(Double(Times(BYTES, x, bits)), if bit then x else 0);
  }

  lemma ShiftIsDouble(h: Byte)
    ensures var z := h as bv16; (z << 1) ^ ((z >> 7) * MODULUS) == Double(h) as bv16
  {}

  lemma LowBit(y: Byte, i: nat)
    requires i < 8
    ensures (y >> i) & 1 == if Bit(y, i) then 1 else 0
  {}

  lemma PickIsProduct(h: Byte, b: bool, x: Byte)
    ensures (h as bv16) ^ ((if b then 1 else 0) * (x as bv16)) == (h ^ (if b then x else 0)) as bv16
  {
    if b {} else {}
  }
}

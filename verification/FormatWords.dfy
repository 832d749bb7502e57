/** The 15 bits in which a symbol tells its error correction level and its mask. */
module FormatWords {

  type Word = bv16

  /** One more step of the division by the generator 0x537. */
  function Shift(rem: Word): (r: Word)
    ensures rem < 0x400 ==> r < 0x400
  {
    (rem << 1) ^ ((rem >> 9) * 0x537)
  }

  function Remainder(data: Word, n: nat): (r: Word)
    ensures data < 0x400 ==> r < 0x400
  {
    if n == 0 then data else Shift(Remainder(data, n - 1))
  }

  /** The level in two bits and the mask in three, with ten check bits, under a fixed pattern. */
  function Packed(data: Word): (bits: Word)
    ensures data < 0x20 ==> bits < 0x8000
  {
    Join(data, Remainder(data, 10))
  }

  function Join(data: Word, rem: Word): (bits: Word)
    ensures data < 0x20 && rem < 0x400 ==> bits < 0x8000
  {
    ((data << 10) | rem) ^ 0x5412
  }

  predicate GetBit(x: Word, i: nat)
    requires i < 16
  {
    (x >> i) & 1 == 1
  }

  /** A level below four or a mask below eight, as a word. */
  function Small(n: nat): Word {
    if n == 0 then 0 else if n == 1 then 1 else if n == 2 then 2 else if n == 3 then 3
    else if n == 4 then 4 else if n == 5 then 5 else if n == 6 then 6 else 7
  }

  function FormatData(level: nat, msk: nat): Word {
    (Small(level) << 3) | Small(msk)
  }

  /** The 15 format bits, the least significant one first. */
  function FormatBits(level: nat, msk: nat): (bits: seq<bool>)
    ensures |bits| == 15
  {
    var x := Packed(FormatData(level, msk));
    seq(15, i requires 0 <= i < 15 => GetBit(x, i))
  }

  function FormatOf(level: nat): nat -> seq<bool> {
    (msk: nat) => FormatBits(level, msk)
  }

  /** The division loop of the encoder. */
  method ComputeFormatBits(level: nat, msk: nat) returns (bits: Word)
    requires level < 4 && msk < 8
    ensures bits == Packed(FormatData(level, msk)) && bits < 0x8000
  {
    var data := FormatData(level, msk);
    DataIsSmall(level, msk);
    var rem := data;
    for i := 0 to 10
      invariant rem == Remainder(data, i)
    {
      rem := Shift(rem);
    }
    bits := Join(data, rem);
  }

  lemma DataIsSmall(level: nat, msk: nat)
    requires level < 4
    ensures FormatData(level, msk) < 0x20
  {
    var a, b := Small(level), Small(msk);
    assert a < 4 && b < 8;
    FieldsAreSmall(a, b);
  }

  lemma FieldsAreSmall(a: Word, b: Word)
    requires a < 4 && b < 8
    ensures (a << 3) | b < 0x20
  {}

  // ----- Reading the format -----

  function Number(b0: bool, b1: bool, b2: bool): (n: nat)
    ensures n < 8
  {
    (if b0 then 1 else 0) + (if b1 then 2 else 0) + if b2 then 4 else 0
  }

  /** The mask that format bits tell; the fixed pattern inverts two of its bits. */
  function MaskIn(bits: seq<bool>): (msk: nat)
    requires |bits| == 15
    ensures msk < 8
  {
    Number(!bits[10], bits[11], !bits[12])
  }

  function LevelIn(bits: seq<bool>): (level: nat)
    requires |bits| == 15
    ensures level < 4
  {
    Number(bits[13], !bits[14], false)
  }

  /** The check bits do not reach the data, and the pattern is taken off again. */
  lemma TopBits(data: Word, rem: Word)
    requires data < 0x20 && rem < 0x400
    ensures var x := Join(data, rem);
      && GetBit(x, 10) == !GetBit(data, 0) && GetBit(x, 11) == GetBit(data, 1) && GetBit(x, 12) == !GetBit(data, 2)
      && GetBit(x, 13) == GetBit(data, 3) && GetBit(x, 14) == !GetBit(data, 4)
  {}

  lemma FieldBits(a: Word, b: Word)
    requires a < 4 && b < 8
    ensures var d := (a << 3) | b;
      && GetBit(d, 0) == GetBit(b, 0) && GetBit(d, 1) == GetBit(b, 1) && GetBit(d, 2) == GetBit(b, 2)
      && GetBit(d, 3) == GetBit(a, 0) && GetBit(d, 4) == GetBit(a, 1)
  {}

  lemma SmallBits(n: nat)
    requires n < 8
    ensures var w := Small(n);
            Number(GetBit(w, 0), GetBit(w, 1), GetBit(w, 2)) == n && w < 8 && (n < 4 ==> w < 4 && !GetBit(w, 2))
  {}

  lemma FieldsOfData(level: nat, msk: nat)
    requires level < 4 && msk < 8
    ensures var d := FormatData(level, msk);
      Number(GetBit(d, 0), GetBit(d, 1), GetBit(d, 2)) == msk && Number(GetBit(d, 3), GetBit(d, 4), false) == level
  {
    SmallBits(level);
    SmallBits(msk);
    FieldBits(Small(level), Small(msk));
  }

  lemma WordBits(data: Word)
    requires data < 0x20
    ensures var x := Packed(data);
      && GetBit(x, 10) == !GetBit(data, 0) && GetBit(x, 11) == GetBit(data, 1) && GetBit(x, 12) == !GetBit(data, 2)
      && GetBit(x, 13) == GetBit(data, 3) && GetBit(x, 14) == !GetBit(data, 4)
  {
    TopBits(data, Remainder(data, 10));
  }

  /** The level and the mask can be read off the format bits. */
  lemma FormatCanBeRead(level: nat, msk: nat)
    requires level < 4 && msk < 8
    ensures MaskIn(FormatBits(level, msk)) == msk && LevelIn(FormatBits(level, msk)) == level
  {
    DataIsSmall(level, msk);
    WordBits(FormatData(level, msk));
    FieldsOfData(level, msk);
  }
}

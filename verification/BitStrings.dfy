/** Bytes as strings of bits, the most significant bit first. */
module BitStrings {
  import opened Horner
  import opened Gf256

  function ToBits(data: seq<Byte>): (bits: seq<bool>)
    ensures |bits| == 8 * |data|
  {
    if data == [] then [] else Bits(data[0]) + ToBits(data[1..])
  }

  /** The whole bytes at the front of a bit string. */
  function FromBits(bits: seq<bool>): (data: seq<Byte>)
    ensures |data| == |bits| / 8
  {
    if |bits| < 8 then [] else [Times(BYTES, 1, bits[..8])] + FromBits(bits[8..])
  }

  lemma {:induction false} BitOfBytes(data: seq<Byte>, i: nat)
    requires i < 8 * |data|
    ensures ToBits(data)[i] == Bit(data[i / 8], 7 - i % 8)
  {
    if i >= 8 {
      BitOfBytes(data[1..], i - 8);
      assert i / 8 == (i - 8) / 8 + 1;
    }
  }

  lemma {:induction false} BytesCanBeRead(data: seq<Byte>, rest: seq<bool>)
    requires |rest| < 8
    ensures FromBits(ToBits(data) + rest) == data
  {
    if data == [] {
      assert [] + rest == rest;
    } else {
      var bits := ToBits(data) + rest;
      assert bits[..8] == Bits(data[0]);
      assert bits[8..] == ToBits(data[1..]) + rest;
      Reassemble(data[0]);
      BytesCanBeRead(data[1..], rest);
    }
  }

  // ----- Packing bits into bytes in place -----

  function ShiftedBit(bit: bool, k: nat): Byte
    requires k < 8
  {
    (if bit then 1 else 0) << k
  }

  /** Sets bit k of a byte if the bit is set. */
  function Store(y: Byte, bit: bool, k: nat): Byte
    requires k < 8
  {
    y | ShiftedBit(bit, k)
  }

  lemma BitOfStore(y: Byte, bit: bool, k: nat, j: nat)
    requires k < 8 && j < 8
    ensures Bit(Store(y, bit, k), j) <==> Bit(y, j) || (bit && j == k)
  {
    BitOfOr(y, ShiftedBit(bit, k), j);
    ShiftedBitAt(bit, k, j);
  }

  lemma ShiftedBitAt(bit: bool, k: nat, j: nat)
    requires k < 8 && j < 8
    ensures Bit(ShiftedBit(bit, k), j) <==> (bit && j == k)
  {
    if bit {
      if k == 0 {} else if k == 1 {} else if k == 2 {} else if k == 3 {}
      else if k == 4 {} else if k == 5 {} else if k == 6 {} else {}
    } else {}
  }

  lemma BitOfOr(a: Byte, b: Byte, j: nat)
    requires j < 8
    ensures Bit(a | b, j) <==> Bit(a, j) || Bit(b, j)
  {
    ShiftOfOr(a, b, j as bv4);
  }

  lemma ShiftOfOr(a: Byte, b: Byte, k: bv4)
    requires k < 8
    ensures ((a | b) >> k) & 1 == 1 <==> ((a >> k) & 1 == 1 || (b >> k) & 1 == 1)
  {}

  lemma NoBitsInZero(j: nat)
    requires j < 8
    ensures !Bit(0, j)
  {}

  /** The bits before i have been stored, the others are still zero. */
  ghost predicate StoredUpTo(data: seq<Byte>, bits: seq<bool>, i: nat) {
    && |bits| == 8 * |data|
    && forall n :: 0 <= n < |bits| ==> Bit(data[n / 8], 7 - n % 8) == (n < i && bits[n])
  }

  method PackBits(bits: seq<bool>) returns (data: seq<Byte>)
    requires |bits| % 8 == 0
    ensures data == FromBits(bits)
  {
    data := seq(|bits| / 8, _ => 0);
    forall n | 0 <= n < |bits| ensures !Bit(data[n / 8], 7 - n % 8) {
      NoBitsInZero(7 - n % 8);
    }
    for i := 0 to |bits|
      invariant StoredUpTo(data, bits, i)
    {
      StoreBit(data, bits, i);
      data := data[i / 8 := Store(data[i / 8], bits[i], 7 - i % 8)];
    }
    StoredIsPacked(data, bits);
  }

  lemma StoreBit(data: seq<Byte>, bits: seq<bool>, i: nat)
    requires StoredUpTo(data, bits, i) && i < |bits|
    ensures StoredUpTo(data[i / 8 := Store(data[i / 8], bits[i], 7 - i % 8)], bits, i + 1)
  {
    var after := data[i / 8 := Store(data[i / 8], bits[i], 7 - i % 8)];
    forall n | 0 <= n < |bits| ensures Bit(after[n / 8], 7 - n % 8) == (n < i + 1 && bits[n]) {
      BitOfStore(data[i / 8], bits[i], 7 - i % 8, 7 - n % 8);
      SamePlace(n, i);
    }
  }

  lemma SamePlace(n: nat, i: nat)
    ensures n / 8 == i / 8 && n % 8 == i % 8 ==> n == i
  {}

  lemma {:induction false} StoredIsPacked(data: seq<Byte>, bits: seq<bool>)
    requires StoredUpTo(data, bits, |bits|)
    ensures data == FromBits(bits)
  {
    if data != [] {
      FirstByte(data, bits);
      Reassemble(data[0]);
      forall n | 0 <= n < |bits[8..]| ensures Bit(data[1..][n / 8], 7 - n % 8) == bits[8..][n] {
        assert (n + 8) / 8 == n / 8 + 1 && (n + 8) % 8 == n % 8;
        assert Bit(data[(n + 8) / 8], 7 - (n + 8) % 8) == bits[n + 8];
      }
      StoredIsPacked(data[1..], bits[8..]);
    }
  }

  lemma FirstByte(data: seq<Byte>, bits: seq<bool>)
    requires StoredUpTo(data, bits, |bits|) && data != []
    ensures bits[..8] == Bits(data[0])
  {
    forall n | 0 <= n < 8 ensures bits[n] == Bits(data[0])[n] {
      assert Bit(data[n / 8], 7 - n % 8) == bits[n];
    }
  }

  lemma DenotedBits(bits: seq<bool>)
    requires |bits| == 8
    ensures Bits(Times(BYTES, 1, bits)) == bits
  {
    var data: seq<Byte> := [0];
    forall n | 0 <= n < 8 ensures !Bit(data[n / 8], 7 - n % 8) {
      NoBitsInZero(7 - n % 8);
    }
    for i := 0 to 8
      invariant |data| == 1 && StoredUpTo(data, bits, i)
    {
      StoreBit(data, bits, i);
      data := data[i / 8 := Store(data[i / 8], bits[i], 7 - i % 8)];
    }
    FirstByte(data, bits);
    assert bits[..8] == bits;
    Reassemble(data[0]);
  }

  /** Packing whole bytes loses no bit. */
  lemma {:induction false} BitsCanBeRead(bits: seq<bool>)
    requires |bits| % 8 == 0
    ensures ToBits(FromBits(bits)) == bits
  {
    if bits != [] {
      BitsCanBeRead(bits[8..]);
      DenotedBits(bits[..8]);
    }
  }
}

/** The bits of the encoder in numbers, as ISO/IEC 18004 describes them. */
module WireFormat {
  import opened Arithmetic
  import opened BitNumbers
  import opened Packing
  import opened Sequences
  import opened Encoding

  // ----- Fields -----

  lemma {:induction false} ShiftIsQuotient(v: nat, i: nat)
    ensures ShiftRight(v, i) == v / Two(i)
  {
    if i > 0 {
      ShiftIsQuotient(v / 2, i - 1);
      HalfQuotient(v, Two(i - 1));
    }
  }

  lemma HalfQuotient(v: nat, d: nat)
    requires d > 0
    ensures v / 2 / d == v / (2 * d)
  {
    var q, r, a := v / (2 * d), v % (2 * d), v / 2;
    assert v == 2 * d * q + r;
    assert a == d * q + r / 2 && r / 2 < d;
    DivMod(d, q, r / 2);
  }

  /** The highest bit of a field comes first. */
  lemma FieldBit(v: nat, n: nat, i: nat)
    requires i < n
    ensures NumBits(v, n)[i] == (v / Two(n - 1 - i) % 2 == 1)
  {
    NumBitsAt(v, n, i);
    ShiftIsQuotient(v, n - 1 - i);
  }

  /** The value of a group: hundreds, tens and units, or 45 times the first character and the second. */
  lemma GroupValues(a: nat, b: nat, c: nat)
    ensures ValueOf(10, [a]) == a && ValueOf(10, [a, b]) == 10 * a + b && ValueOf(10, [a, b, c]) == 100 * a + 10 * b + c
    ensures ValueOf(45, [a]) == a && ValueOf(45, [a, b]) == 45 * a + b
  {
    assert [a][..0] == [] && [a, b][..1] == [a] && [a, b, c][..2] == [a, b];
  }

  // ----- Padding -----

  /** The terminator and the rest of a byte take no more bits than they must. */
  lemma ZerosAreFewest(used: nat, capacity: nat, y: nat)
    requires used <= 8 * capacity && 4 <= y < ZerosAfter(used, capacity)
    ensures (used + y) % 8 != 0
  {}

  lemma {:induction false} PadByteAt(n: nat, k: nat)
    requires k < n
    ensures PadBytes(n)[8 * k..8 * k + 8] == NumBits(PadByte(k), 8)
  {
    if k < n - 1 {
      PadByteAt(n - 1, k);
      assert PadBytes(n)[..8 * (n - 1)] == PadBytes(n - 1);
    }
  }

  /** The pad bytes are 11101100 and 00010001 in turn. */
  lemma PaddingAt(used: nat, capacity: nat, k: nat)
    requires used <= 8 * capacity
    ensures var z, bits := ZerosAfter(used, capacity), Padding(used, capacity);
      && (forall i :: 0 <= i < z ==> !bits[i])
      && (used + z + 8 * k + 8 <= 8 * capacity ==>
            bits[z + 8 * k..z + 8 * k + 8] == if k % 2 == 0 then [true, true, true, false, true, true, false, false]
                                             else [false, false, false, true, false, false, false, true])
  {
    var z := ZerosAfter(used, capacity);
    if used + z + 8 * k + 8 <= 8 * capacity {
      var n := (8 * capacity - used - z) / 8;
      PadByteAt(n, k);
      PadBits();
      var bits := Padding(used, capacity);
      assert bits[z..] == PadBytes(n);
      assert bits[z + 8 * k..z + 8 * k + 8] == bits[z..][8 * k..8 * k + 8];
    }
  }

  lemma PadBits()
    ensures NumBits(0xEC, 8) == [true, true, true, false, true, true, false, false]
    ensures NumBits(0x11, 8) == [false, false, false, true, false, false, false, true]
  {
    assert NumBits(0xEC, 4) == [true, true, false, false];
  }
}

/** Numbers as fields of bits, the most significant bit first. */
module BitNumbers {
  import opened Results

  function Two(n: nat): (p: nat)
    ensures p > 0
  {
    if n == 0 then 1 else 2 * Two(n - 1)
  }

  /** The n low bits of v. */
  function NumBits(v: nat, n: nat): (bits: seq<bool>)
    ensures |bits| == n
    decreases n, v
  {
    if n == 0 then [] else NumBits(v / 2, n - 1) + [v % 2 == 1]
  }

  function Value(bits: seq<bool>): nat {
    if bits == [] then 0 else 2 * Value(bits[..|bits| - 1]) + if bits[|bits| - 1] then 1 else 0
  }

  lemma {:induction false} FieldCanBeRead(v: nat, n: nat)
    requires v < Two(n)
    ensures Value(NumBits(v, n)) == v
  {
    if n > 0 {
      FieldCanBeRead(v / 2, n - 1);
      assert NumBits(v, n)[..n - 1] == NumBits(v / 2, n - 1);
    }
  }

  function ShiftRight(v: nat, i: nat): nat {
    if i == 0 then v else ShiftRight(v / 2, i - 1)
  }

  /** The bit at position i, counted from the most significant one, is bit n - 1 - i of the number. */
  lemma {:induction false} NumBitsAt(v: nat, n: nat, i: nat)
    requires i < n
    ensures NumBits(v, n)[i] == (ShiftRight(v, n - 1 - i) % 2 == 1)
  {
    if i < n - 1 { NumBitsAt(v / 2, n - 1, i); }
  }

  lemma {:induction false} ShiftedOut(v: nat, n: nat)
    ensures ShiftRight(v, n) == 0 <==> v < Two(n)
  {
    if n > 0 { ShiftedOut(v / 2, n - 1); }
  }

  class BitBuffer {
    var bits: seq<bool>

    constructor ()
      ensures bits == []
    {
      bits := [];
    }

    /** Appends the len low bits of val; refuses a value that does not fit. */
    method AppendBits(val: nat, len: int) returns (r: Result<()>)
      modifies this
      ensures r.Ok? <==> 0 <= len <= 31 && val < Two(len)
      ensures r.Ok? ==> bits == old(bits) + NumBits(val, len)
      ensures r.Err? ==> bits == old(bits)
    {
      if len < 0 || len > 31 || ShiftRight(val, len) != 0 {
        if 0 <= len <= 31 { ShiftedOut(val, len); }
        return Err("Value out of range");
      }
      ShiftedOut(val, len);
      ghost var field := NumBits(val, len);
      for i := len downto 0
        invariant bits == old(bits) + field[..len - i]
      {
        NumBitsAt(val, len, len - 1 - i);
        assert field[..len - i] == field[..len - 1 - i] + [field[len - 1 - i]];
        bits := bits + [ShiftRight(val, i) % 2 != 0];
      }
      return Ok(());
    }
  }
}

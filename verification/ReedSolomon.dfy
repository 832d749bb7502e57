/** The Reed-Solomon generator and remainder of the encoder, and what their output is good for. */
module ReedSolomon {
  import opened Results
  import opened Fields
  import opened Horner
  import opened CyclicCodes
  import opened Gf256
  import opened GfMultiply

  /** The generator of the given degree without its leading one. */
  function Divisor(degree: nat): (d: seq<Byte>)
    ensures |d| == degree
  {
    Generator(FIELD, 2, degree)[1..]
  }

  lemma FieldMulIsMul(a: Byte, b: Byte)
    ensures FIELD.mul(a, b) == Mul(BYTES, a, b)
  {}

  lemma FieldAddIsXor(a: Byte, b: Byte)
    ensures FIELD.add(a, b) == a ^ b
  {
    AddIsXor(a, b);
  }

  lemma ZeroIsNeutral(a: Byte)
    ensures a ^ 0 == a == 0 ^ a
  {}

  method ComputeDivisor(degree: int) returns (r: Result<seq<Byte>>)
    ensures r.Ok? <==> 1 <= degree <= 255
    ensures r.Ok? ==> r.value == Divisor(degree)
  {
    if degree < 1 || degree > 255 {
      return Err("Degree out of range");
    }
    var result: seq<Byte> := seq(degree, _ => 0);
    result := result[degree - 1 := 1];
    var root: Byte := 1;
    BytesFormAField();
    assert result == Partial(FIELD, 2, degree, 0);
    for i := 0 to degree
      invariant root == Pow(FIELD, 2, i)
      invariant result == Partial(FIELD, 2, degree, i)
    {
      result := TimesRootInPlace(result, root);
      forall k | 0 <= k < degree ensures result[k] == Partial(FIELD, 2, degree, i + 1)[k] {
        PartialStep(FIELD, 2, degree, i, k);
      }
      FieldMulIsMul(root, 2);
      root := Multiply(root, 2);
    }
    assert [] + Generator(FIELD, 2, degree) == Generator(FIELD, 2, degree);
    return Ok(result);
  }

  /** The inner loop: multiplies the product so far by x - root. */
  method TimesRootInPlace(p: seq<Byte>, root: Byte) returns (result: seq<Byte>)
    ensures |result| == |p|
    ensures forall k :: 0 <= k < |p| ==> result[k] == RootColumn(FIELD, p, root, k)
  {
    result := p;
    for j := 0 to |p|
      invariant |result| == |p|
      invariant forall k :: 0 <= k < j ==> result[k] == RootColumn(FIELD, p, root, k)
      invariant result[j..] == p[j..]
    {
      assert result[j] == p[j] && (j + 1 < |p| ==> result[j + 1] == p[j + 1]);
      var product := Multiply(result[j], root);
      ColumnValue(p, root, j);
      result := result[j := product];
      if j + 1 < |result| {
        result := result[j := result[j] ^ result[j + 1]];
      }
    }
  }

  lemma ColumnValue(p: seq<Byte>, root: Byte, k: nat)
    requires k < |p|
    ensures RootColumn(FIELD, p, root, k)
         == if k + 1 < |p| then Mul(BYTES, p[k], root) ^ p[k + 1] else Mul(BYTES, p[k], root)
  {
    FieldMulIsMul(p[k], root);
    var m := FIELD.mul(p[k], root);
    FieldAddIsXor(m, if k + 1 < |p| then p[k + 1] else 0);
    ZeroIsNeutral(m);
  }

  /** The inner loop: subtracts factor times the divisor. */
  method SubtractMultiple(shifted: seq<Byte>, divisor: seq<Byte>, factor: Byte) returns (result: seq<Byte>)
    requires |shifted| == |divisor|
    ensures result == AddPoly(FIELD, shifted, Scale(FIELD, factor, divisor))
  {
    result := shifted;
    for i := 0 to |result|
      invariant |result| == |divisor|
      invariant forall k :: 0 <= k < i ==> result[k] == FIELD.add(shifted[k], FIELD.mul(divisor[k], factor))
      invariant result[i..] == shifted[i..]
    {
      assert result[i] == shifted[i];
      var product := Multiply(divisor[i], factor);
      FieldMulIsMul(divisor[i], factor);
      FieldAddIsXor(result[i], product);
      result := result[i := result[i] ^ product];
    }
  }

  method ComputeRemainder(data: seq<Byte>, divisor: seq<Byte>) returns (result: seq<Byte>)
    requires |divisor| > 0
    ensures result == Remainder(FIELD, data, divisor)
  {
    result := seq(|divisor|, _ => 0);
    assert data[..0] == [];
    for n := 0 to |data|
      invariant result == Remainder(FIELD, data[..n], divisor)
    {
      ghost var before := result;
      var factor := data[n] ^ result[0];
      FieldAddIsXor(data[n], result[0]);
      result := result[1..];
      result := result + [0];
      result := SubtractMultiple(result, divisor, factor);
      assert data[..n + 1][..n] == data[..n];
      assert result == Shift(FIELD, before, data[n], divisor);
    }
    assert data[..|data|] == data;
  }

  // ----- What the encoder relies on -----

  lemma PowerIsPow2(n: nat)
    ensures Pow(FIELD, 2, n) == Pow2(n)
  {
    BytesAreLinear();
    PowerOfTwo(BYTES, n);
  }

  lemma BytePowersDistinct(n: nat)
    requires n <= 255
    ensures PowersDistinct(FIELD, 2, n)
  {
    forall i, j | 0 <= i < j < n ensures Pow(FIELD, 2, i) != Pow(FIELD, 2, j) {
      PowerIsPow2(i);
      PowerIsPow2(j);
      PowersAreDistinct(i, j);
    }
  }

  /** The restored divisor is monic, and vanishes exactly at 2^0, ..., 2^(degree-1). */
  lemma DivisorRoots(degree: nat, x: Byte)
    ensures Eval(FIELD, [1] + Divisor(degree), x) == 0 <==> IsPowerBelow(FIELD, 2, degree, x)
  {
    BytesFormAField();
    GeneratorIsMonic(FIELD, 2, degree);
    assert [1] + Divisor(degree) == Generator(FIELD, 2, degree);
    GeneratorRoots(FIELD, 2, degree, x);
  }

  function CheckWord(data: seq<Byte>, degree: nat): (c: seq<Byte>)
    requires degree > 0
    ensures |c| == degree
  {
    Remainder(FIELD, data, Divisor(degree))
  }

  /** Of all words of the right length exactly the check word completes the data to a codeword. */
  lemma CheckWordCompletes(data: seq<Byte>, c: seq<Byte>)
    requires 1 <= |c| <= 255
    ensures IsCodeword(FIELD, 2, |c|, data + c) <==> c == CheckWord(data, |c|)
  {
    BytesFormAField();
    BytePowersDistinct(|c|);
    CheckWordIsUnique(FIELD, 2, data, c);
  }

  /** Blocks of different data, up to 255 codewords long, differ in more than degree codewords. */
  lemma BlocksAreFar(data: seq<Byte>, other: seq<Byte>, degree: nat)
    requires |data| == |other| && data != other
    requires 1 <= degree && |data| + degree <= 255
    ensures Distance(data + CheckWord(data, degree), other + CheckWord(other, degree)) > degree
  {
    var p, q := data + CheckWord(data, degree), other + CheckWord(other, degree);
    CheckWordCompletes(data, CheckWord(data, degree));
    CheckWordCompletes(other, CheckWord(other, degree));
    assert p[..|data|] == data && q[..|data|] == other;
    BytesFormAField();
    BytePowersDistinct(|p|);
    AgreeingWordsAreFar(FIELD, 2, degree, p, q);
  }

  /** A block read with at most degree/2 wrong codewords determines its data. */
  lemma ErrorsAreCorrectable(data: seq<Byte>, other: seq<Byte>, degree: nat, read: seq<Byte>)
    requires |data| == |other| && 1 <= degree && |data| + degree <= 255 && |read| == |data| + degree
    requires 2 * Distance(data + CheckWord(data, degree), read) <= degree
    requires 2 * Distance(read, other + CheckWord(other, degree)) <= degree
    ensures data == other
  {
    if data != other {
      BlocksAreFar(data, other, degree);
      Triangle(data + CheckWord(data, degree), read, other + CheckWord(other, degree));
    }
  }
}

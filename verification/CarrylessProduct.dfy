/** Polynomials over GF(2) as the sets of their exponents, and the meaning of the encoder's multiplication:
    the product of the polynomials modulo x^8 + x^4 + x^3 + x^2 + 1. */
module CarrylessProduct {
  import opened Fields
  import opened Horner
  import opened Gf256

  type Poly = set<nat>

  function Plus(p: Poly, q: Poly): Poly {
    (p - q) + (q - p)
  }

  function ShiftUp(p: Poly): Poly {
    set e | e in p :: e + 1
  }

  const MODULUS: Poly := {8, 4, 3, 2, 0}

  const POLYS: Doubling<Poly> :=
    Doubling({}, {0}, (p: Poly, q: Poly) => Plus(p, q), (p: Poly) => ShiftUp(p), (p: Poly) => [])

  /** The polynomial that a byte stands for. */
  function Of(z: Byte): Poly {
    set i: nat | i < 8 && Bit(z, i)
  }

  const OF: Byte -> Poly := (z: Byte) => Of(z)
  const CARRIES: Byte -> bool := (z: Byte) => Bit(z, 7)

  /** The product of p and the polynomial whose coefficients, highest first, are the bits. */
  function Product(p: Poly, bits: seq<bool>): Poly {
    Times(POLYS, p, bits)
  }

  // ----- Bytes are polynomials reduced -----

  lemma PolysAreGroup(p: Poly, q: Poly, r: Poly)
    ensures GroupAt(POLYS, p, q, r)
  {
    assert Plus(Plus(p, q), r) == Plus(p, Plus(q, r));
    assert Plus(p, q) == Plus(q, p) && Plus(p, {}) == p && Plus(p, p) == {};
  }

  lemma ShiftUpIsLinear(p: Poly, q: Poly)
    ensures LinearAt(POLYS, p, q)
  {
    var left, right := ShiftUp(Plus(p, q)), Plus(ShiftUp(p), ShiftUp(q));
    forall e ensures e in left <==> e in right {
      ShiftUpMember(p, e);
      ShiftUpMember(q, e);
      ShiftUpMember(Plus(p, q), e);
    }
    assert left == right;
  }

  lemma ShiftUpMember(p: Poly, e: nat)
    ensures e in ShiftUp(p) <==> e > 0 && e - 1 in p
  {
    if e > 0 && e - 1 in p { assert (e - 1) + 1 == e; }
  }

  lemma BitOfXor(a: Byte, b: Byte, i: nat)
    requires i < 8
    ensures Bit(a ^ b, i) <==> (Bit(a, i) != Bit(b, i))
  {
    ShiftOfXor(a, b, i as bv4);
  }

  lemma ShiftOfXor(a: Byte, b: Byte, k: bv4)
    requires k < 8
    ensures ((a ^ b) >> k) & 1 == 1 <==> (((a >> k) & 1 == 1) != ((b >> k) & 1 == 1))
  {}

  lemma OfXor(a: Byte, b: Byte)
    ensures Of(a ^ b) == Plus(Of(a), Of(b))
  {
    forall i: nat | i < 8 ensures Bit(a ^ b, i) <==> (Bit(a, i) != Bit(b, i)) {
      BitOfXor(a, b, i);
    }
  }

  lemma BitOfDouble(a: Byte, i: nat)
    requires i < 8
    ensures Bit(Double(a), i) <==> ((i > 0 && Bit(a, i - 1)) != (Bit(a, 7) && i in MODULUS))
  {}

  lemma OfDouble(a: Byte)
    ensures ShiftUp(Of(a)) == Plus(Of(Double(a)), if Bit(a, 7) then MODULUS else {})
  {
    var m: Poly := if Bit(a, 7) then MODULUS else {};
    forall e: nat ensures e in ShiftUp(Of(a)) <==> e in Plus(Of(Double(a)), m) {
      ShiftUpMember(Of(a), e);
      if e < 8 { BitOfDouble(a, e); }
    }
  }

  lemma ZeroHasNoBits()
    ensures Of(0) == {}
  {
    forall i: nat | i < 8 ensures !Bit(0, i) {}
  }

  lemma BytesReduceAt(a: Byte, b: Byte)
    ensures ReducesAt(BYTES, POLYS, OF, CARRIES, MODULUS, a, b)
  {
    AddIsXor(a, b);
    OfXor(a, b);
    OfDouble(a);
  }

  lemma BytesReducePolys()
    ensures Reduces(BYTES, POLYS, OF, CARRIES, MODULUS)
  {
    ZeroHasNoBits();
    forall p, q, r ensures GroupAt(POLYS, p, q, r) { PolysAreGroup(p, q, r); }
    forall p, q ensures LinearAt(POLYS, p, q) { ShiftUpIsLinear(p, q); }
    forall a, b ensures ReducesAt(BYTES, POLYS, OF, CARRIES, MODULUS, a, b) { BytesReduceAt(a, b); }
  }

  // ----- A multiple of the modulus is zero or long -----

  ghost predicate IsLong(p: Poly) {
    exists e :: e in p && e >= 8
  }

  lemma {:induction false} MultiplesAreLong(q: seq<bool>)
    ensures Product(MODULUS, q) == {} || IsLong(Product(MODULUS, q))
  {
    if q != [] {
      var init, last := q[..|q| - 1], q[|q| - 1];
      MultiplesAreLong(init);
      assert q == init + [last];
      TimesAppend(POLYS, MODULUS, init, last);
      var p := Product(MODULUS, init);
      assert Product(MODULUS, q) == Plus(ShiftUp(p), if last then MODULUS else {});
      if e :| e in p && e >= 8 {
        ShiftUpMember(p, e + 1);
        assert e + 1 in Product(MODULUS, q);
      } else {
        assert last ==> 8 in Product(MODULUS, q);
      }
    }
  }

  lemma OfIsInjective(r: Byte, s: Byte)
    requires Of(r) == Of(s)
    ensures r == s
  {
    forall i: nat | i < 8 ensures Bit(r, i) == Bit(s, i) {
      assert i in Of(r) <==> i in Of(s);
    }
    assert Bits(r) == Bits(s);
    Reassemble(r);
    Reassemble(s);
  }

  // ----- The product -----

  /** p and the byte r differ by a multiple of the modulus. */
  ghost predicate IsRemainder(p: Poly, r: Byte) {
    exists q :: p == Plus(Of(r), Product(MODULUS, q))
  }

  /** The byte product is the remainder of the product of the polynomials; no other byte is one. */
  lemma MulIsModularProduct(x: Byte, y: Byte, r: Byte)
    ensures IsRemainder(Product(Of(x), Bits(y)), r) <==> r == Mul(BYTES, x, y)
  {
    BytesReducePolys();
    ReducedProduct(BYTES, POLYS, OF, CARRIES, MODULUS, x, Bits(y));
    var p, q0 := Product(Of(x), Bits(y)), Carries(BYTES, CARRIES, x, Bits(y));
    assert p == Plus(Of(Mul(BYTES, x, y)), Product(MODULUS, q0));
    if IsRemainder(p, r) {
      var q :| p == Plus(Of(r), Product(MODULUS, q));
      RemaindersAgree(p, r, q, Mul(BYTES, x, y), q0);
    }
  }

  lemma SumOfMultiples(q: seq<bool>, t: seq<bool>)
    requires |q| == |t|
    ensures Product(MODULUS, AddBits(q, t)) == Plus(Product(MODULUS, q), Product(MODULUS, t))
  {
    BytesReducePolys();
    AddRight(POLYS, MODULUS, q, t);
  }

  lemma MultiplesDifferByMultiple(q: seq<bool>, t: seq<bool>)
    ensures var d := Plus(Product(MODULUS, q), Product(MODULUS, t)); d == {} || IsLong(d)
  {
    var n := if |q| > |t| then |q| else |t|;
    var q', t' := seq(n - |q|, _ => false) + q, seq(n - |t|, _ => false) + t;
    LeadingZeros(q, n - |q|);
    LeadingZeros(t, n - |t|);
    SumOfMultiples(q', t');
    MultiplesAreLong(AddBits(q', t'));
  }

  lemma RemaindersAgree(p: Poly, r: Byte, q: seq<bool>, s: Byte, t: seq<bool>)
    requires p == Plus(Of(r), Product(MODULUS, q)) == Plus(Of(s), Product(MODULUS, t))
    ensures r == s
  {
    MultiplesDifferByMultiple(q, t);
    PlusCancels(Of(r), Product(MODULUS, q), Of(s), Product(MODULUS, t));
    assert !IsLong(Plus(Of(r), Of(s)));
    NothingLeft(Of(r), Of(s));
    OfIsInjective(r, s);
  }

  lemma PlusCancels(a: Poly, u: Poly, b: Poly, v: Poly)
    requires Plus(a, u) == Plus(b, v)
    ensures Plus(u, v) == Plus(a, b)
  {
    forall e ensures e in Plus(u, v) <==> e in Plus(a, b) {
      assert e in Plus(a, u) <==> e in Plus(b, v);
    }
  }

  lemma NothingLeft(a: Poly, b: Poly)
    requires Plus(a, b) == {}
    ensures a == b
  {
    forall e ensures e in a <==> e in b {
      assert e !in Plus(a, b);
    }
  }

  lemma {:induction false} LeadingZeros(q: seq<bool>, n: nat)
    ensures Product(MODULUS, seq(n, _ => false) + q) == Product(MODULUS, q)
  {
    var z := seq(n, _ => false);
    if q == [] {
      assert z + q == z;
      ZeroMultiple(n);
    } else {
      var init, last := q[..|q| - 1], q[|q| - 1];
      LeadingZeros(init, n);
      assert z + q == (z + init) + [last] && q == init + [last];
      TimesAppend(POLYS, MODULUS, z + init, last);
      TimesAppend(POLYS, MODULUS, init, last);
    }
  }

  lemma {:induction false} ZeroMultiple(n: nat)
    ensures Product(MODULUS, seq(n, _ => false)) == {}
  {
    if n > 0 {
      ZeroMultiple(n - 1);
      assert seq(n, _ => false) == seq(n - 1, _ => false) + [false];
      TimesAppend(POLYS, MODULUS, seq(n - 1, _ => false), false);
    }
  }
}

/** Shift-and-add multiplication over any additive group of characteristic two with a linear doubling.
    The multiplier is given by its bits, the most significant one first. */
module Horner {
  import opened Fields

  datatype Doubling<!T> = Doubling(zero: T, one: T, add: (T, T) -> T, double: T -> T, bits: T -> seq<bool>)

  function Pick<T>(g: Doubling<T>, bit: bool, x: T): T {
    if bit then x else g.zero
  }

  function Times<T>(g: Doubling<T>, x: T, bits: seq<bool>): T {
    if bits == [] then g.zero
    else g.add(g.double(Times(g, x, bits[..|bits| - 1])), Pick(g, bits[|bits| - 1], x))
  }

  function Mul<T>(g: Doubling<T>, x: T, y: T): T {
    Times(g, x, g.bits(y))
  }

  ghost predicate GroupAt<T>(g: Doubling<T>, a: T, b: T, c: T) {
    && g.add(a, b) == g.add(b, a)
    && g.add(g.add(a, b), c) == g.add(a, g.add(b, c))
    && g.add(a, g.zero) == a
    && g.add(a, a) == g.zero
  }

  ghost predicate LinearAt<T>(g: Doubling<T>, a: T, b: T) {
    g.double(g.add(a, b)) == g.add(g.double(a), g.double(b))
  }

  /** The bits of a denote a. */
  ghost predicate BitsAt<T>(g: Doubling<T>, a: T) {
    Times(g, g.one, g.bits(a)) == a
  }

  /** The laws, used only at the elements a proof names. */
  ghost predicate IsAdditive<T(!new)>(g: Doubling<T>) {
    forall a, b, c {:trigger At(a, b, c)} :: GroupAt(g, a, b, c) && LinearAt(g, a, b)
  }

  ghost predicate IsLinear<T(!new)>(g: Doubling<T>) {
    && IsAdditive(g)
    && forall a {:trigger At(a, a, a)} :: BitsAt(g, a)
  }

  lemma Laws<T(!new)>(g: Doubling<T>, a: T, b: T, c: T)
    requires IsAdditive(g)
    ensures g.add(a, b) == g.add(b, a)
    ensures g.add(g.add(a, b), c) == g.add(a, g.add(b, c))
    ensures g.add(a, g.zero) == a == g.add(g.zero, a)
    ensures g.add(a, a) == g.zero
    ensures g.double(g.add(a, b)) == g.add(g.double(a), g.double(b))
    ensures g.double(g.zero) == g.zero
  {
    assert At(a, b, c) && At(a, g.zero, c);
    var d := g.double(g.zero);
    assert At(g.zero, g.zero, a) && At(d, d, d);
  }

  lemma BitsDenote<T(!new)>(g: Doubling<T>, a: T)
    requires IsLinear(g)
    ensures Times(g, g.one, g.bits(a)) == a
  {
    assert At(a, a, a);
  }

  lemma Regroup<T(!new)>(g: Doubling<T>, a: T, b: T, c: T, d: T)
    requires IsAdditive(g)
    ensures g.add(g.add(a, b), g.add(c, d)) == g.add(g.add(a, c), g.add(b, d))
  {
    Laws(g, a, b, g.add(c, d));
    Laws(g, b, c, d);
    Laws(g, c, b, d);
    Laws(g, a, c, g.add(b, d));
  }

  lemma {:induction false} AddLeft<T(!new)>(g: Doubling<T>, x: T, y: T, bits: seq<bool>)
    requires IsAdditive(g)
    ensures Times(g, g.add(x, y), bits) == g.add(Times(g, x, bits), Times(g, y, bits))
  {
    if bits == [] {
      Laws(g, g.zero, x, y);
    } else {
      var init, last := bits[..|bits| - 1], bits[|bits| - 1];
      AddLeft(g, x, y, init);
      var u, v := Times(g, x, init), Times(g, y, init);
      Laws(g, u, v, x);
      Laws(g, g.zero, x, y);
      Regroup(g, g.double(u), g.double(v), Pick(g, last, x), Pick(g, last, y));
    }
  }

  lemma {:induction false} ZeroLeft<T(!new)>(g: Doubling<T>, bits: seq<bool>)
    requires IsAdditive(g)
    ensures Times(g, g.zero, bits) == g.zero
  {
    Laws(g, g.zero, g.zero, g.zero);
    if bits != [] { ZeroLeft(g, bits[..|bits| - 1]); }
  }

  lemma {:induction false} DoubleLeft<T(!new)>(g: Doubling<T>, x: T, bits: seq<bool>)
    requires IsAdditive(g)
    ensures Times(g, g.double(x), bits) == g.double(Times(g, x, bits))
  {
    Laws(g, x, x, x);
    if bits != [] {
      var init, last := bits[..|bits| - 1], bits[|bits| - 1];
      DoubleLeft(g, x, init);
      Laws(g, g.double(Times(g, x, init)), Pick(g, last, x), x);
    }
  }

  /** Multiplying by the element that some bits denote is multiplying by the bits. */
  lemma {:induction false} ByElement<T(!new)>(g: Doubling<T>, x: T, bits: seq<bool>)
    requires IsLinear(g)
    ensures Mul(g, Times(g, g.one, bits), x) == Times(g, x, bits)
  {
    if bits == [] {
      ZeroLeft(g, g.bits(x));
    } else {
      var init, last := bits[..|bits| - 1], bits[|bits| - 1];
      var w := Times(g, g.one, init);
      ByElement(g, x, init);
      AddLeft(g, g.double(w), Pick(g, last, g.one), g.bits(x));
      DoubleLeft(g, w, g.bits(x));
      ZeroLeft(g, g.bits(x));
      BitsDenote(g, x);
    }
  }

  lemma Commutes<T(!new)>(g: Doubling<T>, x: T, y: T)
    requires IsLinear(g)
    ensures Mul(g, x, y) == Mul(g, y, x)
  {
    ByElement(g, x, g.bits(y));
    BitsDenote(g, y);
  }

  lemma {:induction false} AssociatesBits<T(!new)>(g: Doubling<T>, x: T, y: T, bits: seq<bool>)
    requires IsLinear(g)
    ensures Mul(g, x, Times(g, y, bits)) == Times(g, Mul(g, x, y), bits)
  {
    Commutes(g, x, Times(g, y, bits));
    if bits == [] {
      ZeroLeft(g, g.bits(x));
    } else {
      var init, last := bits[..|bits| - 1], bits[|bits| - 1];
      var w := Times(g, y, init);
      AssociatesBits(g, x, y, init);
      AddLeft(g, g.double(w), Pick(g, last, y), g.bits(x));
      DoubleLeft(g, w, g.bits(x));
      Commutes(g, x, w);
      Commutes(g, x, y);
      ZeroLeft(g, g.bits(x));
    }
  }

  function Append<T>(g: Doubling<T>, v: T, bit: bool): T {
    g.add(g.double(v), Pick(g, bit, g.one))
  }

  function AppendFour<T>(g: Doubling<T>, v: T, bits: seq<bool>): T
    requires |bits| == 4
  {
    Append(g, Append(g, Append(g, Append(g, v, bits[0]), bits[1]), bits[2]), bits[3])
  }

  lemma TwoBits<T>(g: Doubling<T>, bits: seq<bool>, b0: bool, b1: bool)
    ensures Times(g, g.one, bits + [b0, b1]) == Append(g, Append(g, Times(g, g.one, bits), b0), b1)
  {
    AppendBit(g, bits, b0);
    AppendBit(g, bits + [b0], b1);
    assert bits + [b0] + [b1] == bits + [b0, b1];
  }

  lemma FourBits<T>(g: Doubling<T>, high: seq<bool>, low: seq<bool>)
    requires |low| == 4
    ensures Times(g, g.one, high + low) == AppendFour(g, Times(g, g.one, high), low)
  {
    var half := high + [low[0], low[1]];
    assert high + low == half + [low[2], low[3]];
    TwoBits(g, high, low[0], low[1]);
    TwoBits(g, half, low[2], low[3]);
  }

  lemma AppendBit<T>(g: Doubling<T>, bits: seq<bool>, bit: bool)
    ensures Times(g, g.one, bits + [bit]) == Append(g, Times(g, g.one, bits), bit)
  {
    TimesAppend(g, g.one, bits, bit);
  }

  lemma TimesAppend<T>(g: Doubling<T>, x: T, bits: seq<bool>, bit: bool)
    ensures Times(g, x, bits + [bit]) == g.add(g.double(Times(g, x, bits)), Pick(g, bit, x))
  {
    assert (bits + [bit])[..|bits|] == bits;
  }

  /** x doubled n times. */
  function DoubleN<T>(g: Doubling<T>, x: T, n: nat): T {
    if n == 0 then x else g.double(DoubleN(g, x, n - 1))
  }

  lemma {:induction false} DoubleNLeft<T(!new)>(g: Doubling<T>, x: T, y: T, n: nat)
    requires IsLinear(g)
    ensures Mul(g, DoubleN(g, x, n), y) == DoubleN(g, Mul(g, x, y), n)
  {
    if n > 0 {
      DoubleNLeft(g, x, y, n - 1);
      DoubleLeft(g, DoubleN(g, x, n - 1), g.bits(y));
    }
  }

  lemma {:induction false} DoubleNAdd<T>(g: Doubling<T>, x: T, m: nat, n: nat)
    ensures DoubleN(g, DoubleN(g, x, m), n) == DoubleN(g, x, m + n)
  {
    if n > 0 { DoubleNAdd(g, x, m, n - 1); }
  }

  /** The doublings of one are the powers of two. */
  lemma {:induction false} PowerOfTwo<T(!new)>(g: Doubling<T>, n: nat)
    requires IsLinear(g)
    ensures Pow(AsField(g), g.double(g.one), n) == DoubleN(g, g.one, n)
  {
    if n > 0 {
      PowerOfTwo(g, n - 1);
      var p := DoubleN(g, g.one, n - 1);
      Commutes(g, p, g.double(g.one));
      DoubleLeft(g, g.one, g.bits(p));
      BitsDenote(g, p);
    }
  }

  /** When doubling loses nothing and every element but zero is a multiple doubling of one,
      the product is the multiplication of a field. */
  ghost predicate IsCyclic<T(!new)>(g: Doubling<T>) {
    && g.zero != g.one
    && forall a {:trigger At(a, a, a)} :: CyclicAt(g, a)
  }

  ghost predicate CyclicAt<T>(g: Doubling<T>, a: T) {
    && (g.double(a) == g.zero ==> a == g.zero)
    && (a != g.zero ==> exists n :: DoubleN(g, g.one, n) == a)
  }

  lemma {:induction false} DoubleNZero<T(!new)>(g: Doubling<T>, a: T, n: nat)
    requires IsCyclic(g) && DoubleN(g, a, n) == g.zero
    ensures a == g.zero
  {
    if n > 0 {
      var d := DoubleN(g, a, n - 1);
      assert At(d, d, d);
      DoubleNZero(g, a, n - 1);
    }
  }

  lemma {:induction false} DoubleNXor<T(!new)>(g: Doubling<T>, a: T, b: T, n: nat)
    requires IsAdditive(g)
    ensures DoubleN(g, g.add(a, b), n) == g.add(DoubleN(g, a, n), DoubleN(g, b, n))
  {
    if n > 0 {
      DoubleNXor(g, a, b, n - 1);
      Laws(g, DoubleN(g, a, n - 1), DoubleN(g, b, n - 1), a);
    }
  }

  lemma DoublingCancels<T(!new)>(g: Doubling<T>, a: T, b: T, n: nat)
    requires IsLinear(g) && IsCyclic(g) && DoubleN(g, a, n) == DoubleN(g, b, n)
    ensures a == b
  {
    DoubleNXor(g, a, b, n);
    Laws(g, DoubleN(g, a, n), a, a);
    DoubleNZero(g, g.add(a, b), n);
    Laws(g, a, b, b);
    Laws(g, b, b, b);
  }

  function AsField<T>(g: Doubling<T>): Field<T> {
    Field(g.zero, g.one, g.add, (x, y) => Mul(g, x, y))
  }

  lemma FieldLawsAt<T(!new)>(g: Doubling<T>, a: T, b: T, c: T)
    requires IsLinear(g) && IsCyclic(g)
    ensures LawsAt(AsField(g), a, b, c)
  {
    Laws(g, a, b, c);
    BitsDenote(g, a);
    BitsDenote(g, b);
    Commutes(g, a, b);
    AssociatesBits(g, a, b, g.bits(c));
    Commutes(g, a, g.one);
    AddLeft(g, a, b, g.bits(c));
    if Mul(g, a, b) == g.zero && a != g.zero {
      assert At(a, a, a);
      var n :| DoubleN(g, g.one, n) == a;
      DoubleNLeft(g, g.one, b, n);
      DoubleNZero(g, b, n);
    }
  }

  lemma FormsField<T(!new)>(g: Doubling<T>)
    requires IsLinear(g) && IsCyclic(g)
    ensures IsField(AsField(g))
  {
    var f := AsField(g);
    forall a, b, c
      ensures LawsAt(f, a, b, c)
    {
      FieldLawsAt(g, a, b, c);
    }
  }

  /** If so many doublings of one give one again, so does any multiple of them. */
  lemma {:induction false} FullTurns<T>(g: Doubling<T>, order: nat, k: nat)
    requires DoubleN(g, g.one, order) == g.one
    ensures DoubleN(g, g.one, k * order) == g.one
  {
    if k > 0 {
      FullTurns(g, order, k - 1);
      DoubleNAdd(g, g.one, (k - 1) * order, order);
    }
  }

  /** The inverse of n doublings completes a whole number of turns. */
  lemma CyclicInverse<T(!new)>(g: Doubling<T>, order: nat, a: T)
    requires IsLinear(g) && IsCyclic(g) && order > 0 && DoubleN(g, g.one, order) == g.one
    ensures InverseAt(AsField(g), a)
  {
    if a != g.zero {
      assert At(a, a, a);
      var n: nat :| DoubleN(g, g.one, n) == a;
      var b := DoubleN(g, g.one, n * (order - 1));
      DoubleNLeft(g, g.one, b, n);
      FieldLawsAt(g, b, g.one, b);
      DoubleNAdd(g, g.one, n * (order - 1), n);
      FullTurns(g, order, n);
      assert AsField(g).mul(a, b) == g.one;
    }
  }

  // ----- Multiplication and reduction -----

  function AddBits(p: seq<bool>, q: seq<bool>): seq<bool>
    requires |p| == |q|
  {
    seq(|p|, i requires 0 <= i < |p| => p[i] != q[i])
  }

  lemma {:induction false} AddRight<T(!new)>(g: Doubling<T>, x: T, p: seq<bool>, q: seq<bool>)
    requires IsAdditive(g) && |p| == |q|
    ensures Times(g, x, AddBits(p, q)) == g.add(Times(g, x, p), Times(g, x, q))
  {
    if p == [] {
      Laws(g, g.zero, x, x);
    } else {
      var n := |p| - 1;
      AddRight(g, x, p[..n], q[..n]);
      assert AddBits(p, q)[..n] == AddBits(p[..n], q[..n]);
      var u, v := Times(g, x, p[..n]), Times(g, x, q[..n]);
      Laws(g, u, v, x);
      Laws(g, x, x, x);
      Laws(g, g.zero, g.zero, x);
      Regroup(g, g.double(u), g.double(v), Pick(g, p[n], x), Pick(g, q[n], x));
    }
  }

  /** The doublings of the small group g at which a multiple of m is given off. */
  function Carries<T>(g: Doubling<T>, carry: T -> bool, x: T, bits: seq<bool>): (q: seq<bool>)
    ensures |q| == |bits|
  {
    if bits == [] then []
    else var init := bits[..|bits| - 1]; Carries(g, carry, x, init) + [carry(Times(g, x, init))]
  }

  /** g is w with multiples of m taken off when a doubling carries. */
  ghost predicate Reduces<T(!new), U(!new)>(g: Doubling<T>, w: Doubling<U>, embed: T -> U, carry: T -> bool, m: U) {
    && IsAdditive(w)
    && embed(g.zero) == w.zero
    && forall a, b {:trigger At(a, a, b)} :: ReducesAt(g, w, embed, carry, m, a, b)
  }

  ghost predicate ReducesAt<T, U>(g: Doubling<T>, w: Doubling<U>, embed: T -> U, carry: T -> bool, m: U, a: T, b: T) {
    && embed(g.add(a, b)) == w.add(embed(a), embed(b))
    && w.double(embed(a)) == w.add(embed(g.double(a)), Pick(w, carry(a), m))
  }

  lemma {:induction false} ReducedProduct<T(!new), U(!new)>(
      g: Doubling<T>, w: Doubling<U>, embed: T -> U, carry: T -> bool, m: U, x: T, bits: seq<bool>)
    requires Reduces(g, w, embed, carry, m)
    ensures Times(w, embed(x), bits)
         == w.add(embed(Times(g, x, bits)), Times(w, m, Carries(g, carry, x, bits)))
  {
    if bits == [] {
      Laws(w, w.zero, w.zero, w.zero);
    } else {
      var init, last := bits[..|bits| - 1], bits[|bits| - 1];
      var h, q := Times(g, x, init), Carries(g, carry, x, init);
      ReducedProduct(g, w, embed, carry, m, x, init);
      assert bits == init + [last];
      TimesAppend(g, x, init, last);
      TimesAppend(w, embed(x), init, last);
      TimesAppend(w, m, q, carry(h));
      assert At(h, h, h) && At(g.double(h), g.double(h), Pick(g, last, x));
      var t, dq := Pick(w, carry(h), m), w.double(Times(w, m, q));
      Laws(w, embed(h), Times(w, m, q), w.zero);
      // (double h + t) + dq + pick == (double h + pick) + (dq + t)
      var dh, pick := embed(g.double(h)), Pick(w, last, embed(x));
      Laws(w, dh, t, dq);
      Laws(w, dh, w.add(t, dq), pick);
      Laws(w, dh, pick, w.add(dq, t));
      Laws(w, w.add(t, dq), pick, pick);
      Laws(w, t, dq, dq);
    }
  }
}

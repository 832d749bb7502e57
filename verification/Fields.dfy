/** Fields of characteristic two, given by their operations, and polynomials over them.
    A polynomial is the sequence of its coefficients, the one of the highest power first. */
module Fields {

  datatype Field<!T> = Field(zero: T, one: T, add: (T, T) -> T, mul: (T, T) -> T)

  /** Holds of everything: a proof names the elements at which it uses the laws. */
  ghost predicate At<T>(a: T, b: T, c: T) { true }

  ghost predicate LawsAt<T>(f: Field<T>, a: T, b: T, c: T) {
    && f.add(a, b) == f.add(b, a)
    && f.add(f.add(a, b), c) == f.add(a, f.add(b, c))
    && f.add(a, f.zero) == a
    && f.add(a, a) == f.zero
    && f.mul(a, b) == f.mul(b, a)
    && f.mul(f.mul(a, b), c) == f.mul(a, f.mul(b, c))
    && f.mul(a, f.one) == a
    && f.mul(f.add(a, b), c) == f.add(f.mul(a, c), f.mul(b, c))
    && (f.mul(a, b) == f.zero ==> a == f.zero || b == f.zero)
  }

  ghost predicate IsField<T(!new)>(f: Field<T>) {
    && f.zero != f.one
    && forall a, b, c {:trigger At(a, b, c)} :: LawsAt(f, a, b, c)
  }

  ghost predicate InverseAt<T(!new)>(f: Field<T>, a: T) {
    a != f.zero ==> exists b :: f.mul(a, b) == f.one
  }

  ghost predicate HasInverses<T(!new)>(f: Field<T>) {
    forall a :: InverseAt(f, a)
  }

  // ----- Elementary algebra -----

  lemma Sum<T(!new)>(f: Field<T>, a: T, b: T, c: T)
    requires IsField(f)
    ensures f.add(a, b) == f.add(b, a)
    ensures f.add(f.add(a, b), c) == f.add(a, f.add(b, c))
    ensures f.add(a, f.zero) == a == f.add(f.zero, a)
    ensures f.add(a, a) == f.zero
  {
    assert At(a, b, c);
    assert At(a, f.zero, c);
  }

  lemma Product<T(!new)>(f: Field<T>, a: T, b: T, c: T)
    requires IsField(f)
    ensures f.mul(a, b) == f.mul(b, a)
    ensures f.mul(f.mul(a, b), c) == f.mul(a, f.mul(b, c))
    ensures f.mul(a, f.one) == a == f.mul(f.one, a)
    ensures f.mul(a, f.zero) == f.zero == f.mul(f.zero, a)
    ensures f.mul(f.add(a, b), c) == f.add(f.mul(a, c), f.mul(b, c))
    ensures f.mul(c, f.add(a, b)) == f.add(f.mul(c, a), f.mul(c, b))
    ensures f.mul(a, b) == f.zero ==> a == f.zero || b == f.zero
  {
    assert At(a, b, c);
    assert At(a, c, b) && At(b, c, a) && At(f.add(a, b), c, a);
    assert At(a, f.one, c);
    ghost var z := f.mul(f.zero, a);
    assert At(f.zero, f.zero, a) && At(z, z, z) && At(a, f.zero, a);
  }

  /** Four summands may be paired either way. */
  lemma Regroup<T(!new)>(f: Field<T>, a: T, b: T, c: T, d: T)
    requires IsField(f)
    ensures f.add(f.add(a, b), f.add(c, d)) == f.add(f.add(a, c), f.add(b, d))
  {
    Sum(f, a, b, f.add(c, d));
    Sum(f, b, c, d);
    Sum(f, c, b, d);
    Sum(f, a, c, f.add(b, d));
  }

  /** In characteristic two a sum is zero exactly when its summands agree. */
  lemma ZeroSum<T(!new)>(f: Field<T>, a: T, b: T)
    requires IsField(f)
    ensures f.add(a, b) == f.zero <==> a == b
  {
    Sum(f, a, b, b);
    Sum(f, b, b, b);
  }

  function Pow<T>(f: Field<T>, x: T, n: nat): T {
    if n == 0 then f.one else f.mul(Pow(f, x, n - 1), x)
  }

  // ----- Polynomials -----

  function Eval<T>(f: Field<T>, p: seq<T>, x: T): T {
    if p == [] then f.zero else f.add(f.mul(Eval(f, p[..|p| - 1], x), x), p[|p| - 1])
  }

  function AddPoly<T>(f: Field<T>, p: seq<T>, q: seq<T>): seq<T>
    requires |p| == |q|
  {
    seq(|p|, i requires 0 <= i < |p| => f.add(p[i], q[i]))
  }

  function Scale<T>(f: Field<T>, c: T, p: seq<T>): seq<T> {
    seq(|p|, i requires 0 <= i < |p| => f.mul(p[i], c))
  }

  /** The product of p and x - r. */
  function TimesRoot<T>(f: Field<T>, p: seq<T>, r: T): seq<T> {
    AddPoly(f, p + [f.zero], [f.zero] + Scale(f, r, p))
  }

  lemma {:induction false} EvalAdd<T(!new)>(f: Field<T>, p: seq<T>, q: seq<T>, x: T)
    requires IsField(f) && |p| == |q|
    ensures Eval(f, AddPoly(f, p, q), x) == f.add(Eval(f, p, x), Eval(f, q, x))
  {
    if p == [] {
      Sum(f, f.zero, f.zero, f.zero);
    } else {
      var n := |p| - 1;
      EvalAdd(f, p[..n], q[..n], x);
      assert AddPoly(f, p, q)[..n] == AddPoly(f, p[..n], q[..n]);
      var u, v := Eval(f, p[..n], x), Eval(f, q[..n], x);
      Product(f, u, v, x);
      Regroup(f, f.mul(u, x), f.mul(v, x), p[n], q[n]);
    }
  }

  lemma {:induction false} EvalScale<T(!new)>(f: Field<T>, c: T, p: seq<T>, x: T)
    requires IsField(f)
    ensures Eval(f, Scale(f, c, p), x) == f.mul(Eval(f, p, x), c)
  {
    if p == [] {
      Product(f, c, c, c);
    } else {
      var n := |p| - 1;
      EvalScale(f, c, p[..n], x);
      assert Scale(f, c, p)[..n] == Scale(f, c, p[..n]);
      var u := Eval(f, p[..n], x);
      Product(f, u, c, x);
      Product(f, u, x, c);
      Product(f, c, x, u);
      Product(f, f.mul(u, x), p[n], c);
    }
  }

  lemma {:induction false} EvalConcat<T(!new)>(f: Field<T>, p: seq<T>, q: seq<T>, x: T)
    requires IsField(f)
    ensures Eval(f, p + q, x) == f.add(f.mul(Eval(f, p, x), Pow(f, x, |q|)), Eval(f, q, x))
  {
    var u := Eval(f, p, x);
    if q == [] {
      assert p + q == p;
      Product(f, u, u, u);
      Sum(f, u, u, u);
    } else {
      var n := |q| - 1;
      EvalConcat(f, p, q[..n], x);
      assert (p + q)[..|p + q| - 1] == p + q[..n];
      var w, v := Pow(f, x, n), Eval(f, q[..n], x);
      Product(f, f.mul(u, w), v, x);
      Product(f, u, w, x);
      Sum(f, f.mul(u, f.mul(w, x)), f.mul(v, x), q[n]);
    }
  }

  /** A leading zero does not change a polynomial. */
  lemma EvalLeadingZero<T(!new)>(f: Field<T>, p: seq<T>, x: T)
    requires IsField(f)
    ensures Eval(f, [f.zero] + p, x) == Eval(f, p, x)
  {
    EvalConcat(f, [f.zero], p, x);
    var e := Eval(f, [f.zero], x);
    assert [f.zero][..0] == [];
    Product(f, x, x, x);
    Sum(f, f.zero, f.zero, f.zero);
    Product(f, Pow(f, x, |p|), x, x);
    Sum(f, Eval(f, p, x), x, x);
  }

  lemma EvalTrailingZero<T(!new)>(f: Field<T>, p: seq<T>, x: T)
    requires IsField(f)
    ensures Eval(f, p + [f.zero], x) == f.mul(Eval(f, p, x), x)
  {
    assert (p + [f.zero])[..|p|] == p;
    Sum(f, f.mul(Eval(f, p, x), x), x, x);
  }

  /** The roots of p * (x - r) are those of p and r, and no others. */
  lemma RootsOfTimesRoot<T(!new)>(f: Field<T>, p: seq<T>, r: T, x: T)
    requires IsField(f)
    ensures Eval(f, TimesRoot(f, p, r), x) == f.mul(Eval(f, p, x), f.add(x, r))
    ensures Eval(f, TimesRoot(f, p, r), x) == f.zero <==> Eval(f, p, x) == f.zero || x == r
  {
    var e := Eval(f, p, x);
    EvalAdd(f, p + [f.zero], [f.zero] + Scale(f, r, p), x);
    EvalTrailingZero(f, p, x);
    EvalLeadingZero(f, Scale(f, r, p), x);
    EvalScale(f, r, p, x);
    Product(f, x, r, e);
    Product(f, e, f.add(x, r), e);
    Product(f, f.add(x, r), e, e);
    ZeroSum(f, x, r);
  }
}

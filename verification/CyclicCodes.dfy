/** Reed-Solomon codes over any field of characteristic two: division by a monic generator,
    and the distance between codewords. */
module CyclicCodes {
  import opened Fields

  // ----- The generator -----

  /** The product of x - base^i for i < n, with its leading coefficient. */
  function Generator<T>(f: Field<T>, base: T, n: nat): (g: seq<T>)
    ensures |g| == n + 1
  {
    if n == 0 then [f.one] else TimesRoot(f, Generator(f, base, n - 1), Pow(f, base, n - 1))
  }

  lemma {:induction false} GeneratorIsMonic<T(!new)>(f: Field<T>, base: T, n: nat)
    requires IsField(f)
    ensures Generator(f, base, n)[0] == f.one
  {
    if n > 0 {
      GeneratorIsMonic(f, base, n - 1);
      Sum(f, f.one, f.one, f.one);
    }
  }

  ghost predicate IsPowerBelow<T>(f: Field<T>, base: T, n: nat, x: T) {
    exists i :: 0 <= i < n && Pow(f, base, i) == x
  }

  /** The roots of the generator are the first n powers of the base, and nothing else. */
  lemma {:induction false} GeneratorRoots<T(!new)>(f: Field<T>, base: T, n: nat, x: T)
    requires IsField(f)
    ensures Eval(f, Generator(f, base, n), x) == f.zero <==> IsPowerBelow(f, base, n, x)
  {
    if n == 0 {
      assert [f.one][..0] == [];
      Product(f, x, x, x);
      Sum(f, f.one, f.one, f.one);
    } else {
      GeneratorRoots(f, base, n - 1, x);
      RootsOfTimesRoot(f, Generator(f, base, n - 1), Pow(f, base, n - 1), x);
      assert IsPowerBelow(f, base, n, x) <==> IsPowerBelow(f, base, n - 1, x) || Pow(f, base, n - 1) == x;
    }
  }

  /** The first i factors of the generator of degree d, padded with zeros to d + 1 coefficients; without the first. */
  function Partial<T>(f: Field<T>, base: T, d: nat, i: nat): (p: seq<T>)
    requires i <= d
    ensures |p| == d
  {
    (seq(d - i, _ => f.zero) + Generator(f, base, i))[1..]
  }

  /** Multiplies the padded coefficients p by x - r in place: entry k. */
  function RootColumn<T>(f: Field<T>, p: seq<T>, r: T, k: nat): T
    requires k < |p|
  {
    f.add(f.mul(p[k], r), if k + 1 < |p| then p[k + 1] else f.zero)
  }

  lemma PartialStep<T(!new)>(f: Field<T>, base: T, d: nat, i: nat, k: nat)
    requires IsField(f) && i < d && k < d
    ensures Partial(f, base, d, i + 1)[k] == RootColumn(f, Partial(f, base, d, i), Pow(f, base, i), k)
  {
    var g, r := Generator(f, base, i), Pow(f, base, i);
    var z, y := seq(d - i, _ => f.zero), seq(d - i - 1, _ => f.zero);
    var m := k + 1 - (d - i - 1);  // the index of the coefficient in the longer generator
    assert Partial(f, base, d, i) == (z + g)[1..];
    assert Partial(f, base, d, i + 1)[k] == if m < 0 then f.zero else TimesRoot(f, g, r)[m];
    assert Partial(f, base, d, i)[k] == if m < 1 then f.zero else g[m - 1];
    assert k + 1 < d ==> Partial(f, base, d, i)[k + 1] == if m < 0 then f.zero else g[m];
    Product(f, r, r, r);
    Sum(f, f.zero, f.zero, f.zero);
    if m >= 0 {
      var high := if m <= i then g[m] else f.zero;
      Sum(f, high, if m < 1 then f.zero else f.mul(g[m - 1], r), f.zero);
    }
  }

  // ----- The remainder -----

  /** Consumes one more coefficient: the register is shifted and the monic generator, given without its
      leading one, is subtracted factor times. */
  function Shift<T>(f: Field<T>, r: seq<T>, b: T, divisor: seq<T>): (s: seq<T>)
    requires |r| == |divisor| > 0
    ensures |s| == |r|
  {
    AddPoly(f, r[1..] + [f.zero], Scale(f, f.add(b, r[0]), divisor))
  }

  function Remainder<T>(f: Field<T>, data: seq<T>, divisor: seq<T>): (r: seq<T>)
    requires |divisor| > 0
    ensures |r| == |divisor|
  {
    if data == [] then seq(|divisor|, _ => f.zero)
    else Shift(f, Remainder(f, data[..|data| - 1], divisor), data[|data| - 1], divisor)
  }

  /** At a root of the generator, one step multiplies by x and adds b * x^d. */
  lemma ShiftAtRoot<T(!new)>(f: Field<T>, r: seq<T>, b: T, divisor: seq<T>, x: T)
    requires IsField(f) && |r| == |divisor| > 0
    requires Eval(f, [f.one] + divisor, x) == f.zero
    ensures Eval(f, Shift(f, r, b, divisor), x)
         == f.add(f.mul(Eval(f, r, x), x), f.mul(b, Pow(f, x, |divisor|)))
  {
    var d := |divisor|;
    var xd, low, head := Pow(f, x, d), Eval(f, r[1..], x), r[0];
    EvalMonic(f, divisor, x);
    EvalLeading(f, head, r[1..], x);
    assert r == [head] + r[1..];
    var c := f.add(b, head);
    EvalAdd(f, r[1..] + [f.zero], Scale(f, c, divisor), x);
    EvalTrailingZero(f, r[1..], x);
    EvalScale(f, c, divisor, x);
    ShiftAlgebra(f, head, low, b, x, Pow(f, x, d - 1));
  }

  /** low*x + (b + head)*(w*x) == (head*w + low)*x + b*(w*x) */
  lemma ShiftAlgebra<T(!new)>(f: Field<T>, head: T, low: T, b: T, x: T, w: T)
    requires IsField(f)
    ensures f.add(f.mul(low, x), f.mul(f.mul(w, x), f.add(b, head)))
         == f.add(f.mul(f.add(f.mul(head, w), low), x), f.mul(b, f.mul(w, x)))
  {
    var v := f.mul(w, x);
    Product(f, b, head, v);
    Product(f, f.add(b, head), v, v);
    Product(f, f.mul(head, w), low, x);
    Product(f, head, w, x);
    var hv, lx, bv := f.mul(head, v), f.mul(low, x), f.mul(b, v);
    Sum(f, bv, hv, lx);
    Sum(f, lx, f.add(bv, hv), lx);
    Sum(f, hv, lx, bv);
    Sum(f, bv, f.add(hv, lx), lx);
  }

  lemma EvalLeading<T(!new)>(f: Field<T>, c: T, p: seq<T>, x: T)
    requires IsField(f)
    ensures Eval(f, [c] + p, x) == f.add(f.mul(c, Pow(f, x, |p|)), Eval(f, p, x))
  {
    EvalConcat(f, [c], p, x);
    assert [c][..0] == [];
    Product(f, x, x, x);
    Sum(f, c, f.zero, f.zero);
  }

  lemma EvalMonic<T(!new)>(f: Field<T>, divisor: seq<T>, x: T)
    requires IsField(f) && Eval(f, [f.one] + divisor, x) == f.zero
    ensures Eval(f, divisor, x) == Pow(f, x, |divisor|)
  {
    EvalLeading(f, f.one, divisor, x);
    Product(f, Pow(f, x, |divisor|), x, x);
    ZeroSum(f, Pow(f, x, |divisor|), Eval(f, divisor, x));
  }

  lemma {:induction false} EvalZeros<T(!new)>(f: Field<T>, n: nat, x: T)
    requires IsField(f)
    ensures Eval(f, seq(n, _ => f.zero), x) == f.zero
  {
    if n > 0 {
      EvalZeros(f, n - 1, x);
      assert seq(n, _ => f.zero)[..n - 1] == seq(n - 1, _ => f.zero);
      Product(f, x, x, x);
      Sum(f, f.zero, x, x);
    }
  }

  lemma {:induction false} RemainderAtRoot<T(!new)>(f: Field<T>, data: seq<T>, divisor: seq<T>, x: T)
    requires IsField(f) && |divisor| > 0
    requires Eval(f, [f.one] + divisor, x) == f.zero
    ensures Eval(f, Remainder(f, data, divisor), x) == f.mul(Eval(f, data, x), Pow(f, x, |divisor|))
  {
    var xd := Pow(f, x, |divisor|);
    if data == [] {
      EvalZeros(f, |divisor|, x);
      Product(f, xd, xd, xd);
    } else {
      var init, b := data[..|data| - 1], data[|data| - 1];
      RemainderAtRoot(f, init, divisor, x);
      ShiftAtRoot(f, Remainder(f, init, divisor), b, divisor, x);
      var e := Eval(f, init, x);
      Product(f, f.mul(e, x), b, xd);
      Product(f, e, x, xd);
      Product(f, e, xd, x);
      Product(f, x, xd, x);
    }
  }

  /** Data followed by its remainder vanishes wherever the generator does. */
  lemma AppendedRemainderVanishes<T(!new)>(f: Field<T>, data: seq<T>, divisor: seq<T>, x: T)
    requires IsField(f) && |divisor| > 0
    requires Eval(f, [f.one] + divisor, x) == f.zero
    ensures Eval(f, data + Remainder(f, data, divisor), x) == f.zero
  {
    var r := Remainder(f, data, divisor);
    EvalConcat(f, data, r, x);
    RemainderAtRoot(f, data, divisor, x);
    ZeroSum(f, Eval(f, r, x), Eval(f, r, x));
  }

  // ----- Codewords -----

  /** p vanishes at the first d powers of the base. */
  ghost predicate IsCodeword<T(!new)>(f: Field<T>, base: T, d: nat, p: seq<T>) {
    forall i :: 0 <= i < d ==> Eval(f, p, Pow(f, base, i)) == f.zero
  }

  lemma Systematic<T(!new)>(f: Field<T>, base: T, d: nat, data: seq<T>)
    requires IsField(f) && d > 0
    ensures IsCodeword(f, base, d, data + Remainder(f, data, Generator(f, base, d)[1..]))
  {
    var g := Generator(f, base, d);
    GeneratorIsMonic(f, base, d);
    assert g == [f.one] + g[1..];
    forall i | 0 <= i < d
      ensures Eval(f, data + Remainder(f, data, g[1..]), Pow(f, base, i)) == f.zero
    {
      var x := Pow(f, base, i);
      GeneratorRoots(f, base, d, x);
      assert IsPowerBelow(f, base, d, x);
      AppendedRemainderVanishes(f, data, g[1..], x);
    }
  }

  // ----- Distance -----

  /** The sum of es[k] * xs[k]^j. */
  function PowerSum<T>(f: Field<T>, es: seq<T>, xs: seq<T>, j: nat): T
    requires |es| == |xs|
  {
    if es == [] then f.zero
    else f.add(f.mul(es[0], Pow(f, xs[0], j)), PowerSum(f, es[1..], xs[1..], j))
  }

  /** How many coefficients are not zero. */
  function Weight<T(==)>(f: Field<T>, es: seq<T>): nat {
    if es == [] then 0 else (if es[0] == f.zero then 0 else 1) + Weight(f, es[1..])
  }

  /** Multiplies each coefficient by xs[k] - y: this removes a term at y and keeps all others. */
  function Eliminate<T>(f: Field<T>, es: seq<T>, xs: seq<T>, y: T): (r: seq<T>)
    requires |es| == |xs|
    ensures |r| == |es|
  {
    seq(|es|, i requires 0 <= i < |es| => f.mul(es[i], f.add(xs[i], y)))
  }

  lemma {:induction false} EliminateSums<T(!new)>(f: Field<T>, es: seq<T>, xs: seq<T>, y: T, j: nat)
    requires IsField(f) && |es| == |xs|
    ensures PowerSum(f, Eliminate(f, es, xs, y), xs, j)
         == f.add(PowerSum(f, es, xs, j + 1), f.mul(y, PowerSum(f, es, xs, j)))
  {
    if es == [] {
      Product(f, y, y, y);
      Sum(f, f.zero, y, y);
    } else {
      EliminateSums(f, es[1..], xs[1..], y, j);
      assert Eliminate(f, es, xs, y)[1..] == Eliminate(f, es[1..], xs[1..], y);
      EliminateAlgebra(f, es[0], xs[0], y, Pow(f, xs[0], j),
                       PowerSum(f, es[1..], xs[1..], j + 1), PowerSum(f, es[1..], xs[1..], j));
    }
  }

  /** (e*(x + y))*w + (s + y*t) == (e*(w*x) + s) + y*(e*w + t) */
  lemma EliminateAlgebra<T(!new)>(f: Field<T>, e: T, x: T, y: T, w: T, s: T, t: T)
    requires IsField(f)
    ensures f.add(f.mul(f.mul(e, f.add(x, y)), w), f.add(s, f.mul(y, t)))
         == f.add(f.add(f.mul(e, f.mul(w, x)), s), f.mul(y, f.add(f.mul(e, w), t)))
  {
    var ew := f.mul(e, w);
    Product(f, e, f.add(x, y), w);
    Product(f, f.add(x, y), w, e);
    Product(f, e, w, f.add(x, y));
    Product(f, x, y, ew);
    Product(f, e, w, x);
    Product(f, ew, t, y);
    Product(f, y, ew, y);
    Regroup(f, f.mul(e, f.mul(w, x)), f.mul(y, ew), s, f.mul(y, t));
  }

  ghost predicate Distinct<T>(xs: seq<T>) {
    forall i, j :: 0 <= i < j < |xs| ==> xs[i] != xs[j]
  }

  lemma {:induction false} EliminateWeight<T(!new)>(f: Field<T>, es: seq<T>, xs: seq<T>, y: T)
    requires IsField(f) && |es| == |xs| && y !in xs
    ensures Weight(f, Eliminate(f, es, xs, y)) == Weight(f, es)
  {
    if es != [] {
      EliminateWeight(f, es[1..], xs[1..], y);
      assert Eliminate(f, es, xs, y)[1..] == Eliminate(f, es[1..], xs[1..], y);
      ZeroSum(f, xs[0], y);
      Product(f, es[0], f.add(xs[0], y), y);
      Product(f, f.add(xs[0], y), es[0], y);
    }
  }

  /** A combination of at most d geometric sequences with distinct ratios that vanishes d times is trivial. */
  lemma {:induction false} FewTermsVanish<T(!new)>(f: Field<T>, es: seq<T>, xs: seq<T>, d: nat)
    requires IsField(f) && |es| == |xs| && Distinct(xs)
    requires forall j :: 0 <= j < d ==> PowerSum(f, es, xs, j) == f.zero
    requires Weight(f, es) <= d
    ensures Weight(f, es) == 0
    decreases |es|
  {
    if es != [] {
      var e, x := es[0], xs[0];
      var tail, xtail := es[1..], xs[1..];
      if e == f.zero {
        forall j | 0 <= j < d
          ensures PowerSum(f, tail, xtail, j) == f.zero
        {
          assert PowerSum(f, es, xs, j) == f.zero;
          Product(f, Pow(f, x, j), x, x);
          Sum(f, PowerSum(f, tail, xtail, j), x, x);
        }
        FewTermsVanish(f, tail, xtail, d);
      } else {
        forall j | 0 <= j < d - 1
          ensures PowerSum(f, Eliminate(f, tail, xtail, x), xtail, j) == f.zero
        {
          EliminateFirst(f, es, xs, j);
        }
        EliminateWeight(f, tail, xtail, x);
        FewTermsVanish(f, Eliminate(f, tail, xtail, x), xtail, d - 1);
        LightSumIsZero(f, tail, xtail);
        assert PowerSum(f, es, xs, 0) == f.zero;
        Product(f, e, x, x);
        Sum(f, e, x, x);
        assert false;
      }
    }
  }

  lemma EliminateFirst<T(!new)>(f: Field<T>, es: seq<T>, xs: seq<T>, j: nat)
    requires IsField(f) && |es| == |xs| > 0
    requires PowerSum(f, es, xs, j) == f.zero == PowerSum(f, es, xs, j + 1)
    ensures PowerSum(f, Eliminate(f, es[1..], xs[1..], xs[0]), xs[1..], j) == f.zero
  {
    var x, w := xs[0], Pow(f, xs[0], j);
    var rest := PowerSum(f, Eliminate(f, es[1..], xs[1..], x), xs[1..], j);
    EliminateSums(f, es, xs, x, j);
    assert Eliminate(f, es, xs, x)[1..] == Eliminate(f, es[1..], xs[1..], x);
    Sum(f, x, f.zero, f.zero);
    Product(f, es[0], w, w);
    Product(f, w, x, x);
    Product(f, x, x, x);
    Sum(f, rest, f.zero, f.zero);
  }

  lemma {:induction false} LightSumIsZero<T(!new)>(f: Field<T>, es: seq<T>, xs: seq<T>)
    requires IsField(f) && |es| == |xs| && Weight(f, es) == 0
    ensures PowerSum(f, es, xs, 0) == f.zero
  {
    if es != [] {
      LightSumIsZero(f, es[1..], xs[1..]);
      Product(f, f.one, f.one, f.one);
      Sum(f, f.zero, f.zero, f.zero);
    }
  }

  /** The n powers base^(n-1) ... base^0 that the coefficients of a polynomial belong to. */
  function Ratios<T>(f: Field<T>, base: T, n: nat): (xs: seq<T>)
    ensures |xs| == n
  {
    if n == 0 then [] else [Pow(f, base, n - 1)] + Ratios(f, base, n - 1)
  }

  ghost predicate PowersDistinct<T>(f: Field<T>, base: T, n: nat) {
    forall i, j :: 0 <= i < j < n ==> Pow(f, base, i) != Pow(f, base, j)
  }

  lemma {:induction false} RatioAt<T>(f: Field<T>, base: T, n: nat, k: nat)
    requires k < n
    ensures Ratios(f, base, n)[k] == Pow(f, base, n - 1 - k)
  {
    if k > 0 { RatioAt(f, base, n - 1, k - 1); }
  }

  lemma RatiosDistinct<T>(f: Field<T>, base: T, n: nat)
    requires PowersDistinct(f, base, n)
    ensures Distinct(Ratios(f, base, n))
  {
    forall i, j | 0 <= i < j < n
      ensures Ratios(f, base, n)[i] != Ratios(f, base, n)[j]
    {
      RatioAt(f, base, n, i);
      RatioAt(f, base, n, j);
    }
  }

  lemma {:induction false} PowOfProduct<T(!new)>(f: Field<T>, x: T, y: T, n: nat)
    requires IsField(f)
    ensures Pow(f, f.mul(x, y), n) == f.mul(Pow(f, x, n), Pow(f, y, n))
  {
    if n == 0 {
      Product(f, f.one, x, y);
    } else {
      PowOfProduct(f, x, y, n - 1);
      var u, v := Pow(f, x, n - 1), Pow(f, y, n - 1);
      Product(f, u, v, f.mul(x, y));
      Product(f, v, x, y);
      Product(f, x, v, y);
      Product(f, u, x, f.mul(v, y));
    }
  }

  lemma {:induction false} PowPow<T(!new)>(f: Field<T>, x: T, m: nat, n: nat)
    requires IsField(f)
    ensures Pow(f, Pow(f, x, m), n) == Pow(f, Pow(f, x, n), m)
  {
    if m == 0 {
      PowOne(f, n);
    } else {
      PowPow(f, x, m - 1, n);
      PowOfProduct(f, Pow(f, x, m - 1), x, n);
    }
  }

  lemma {:induction false} PowOne<T(!new)>(f: Field<T>, n: nat)
    requires IsField(f)
    ensures Pow(f, f.one, n) == f.one
  {
    if n > 0 {
      PowOne(f, n - 1);
      Product(f, f.one, f.one, f.one);
    }
  }

  lemma {:induction false} EvalAsPowerSum<T(!new)>(f: Field<T>, base: T, p: seq<T>, j: nat)
    requires IsField(f)
    ensures Eval(f, p, Pow(f, base, j)) == PowerSum(f, p, Ratios(f, base, |p|), j)
  {
    if p != [] {
      assert p == [p[0]] + p[1..];
      EvalLeading(f, p[0], p[1..], Pow(f, base, j));
      EvalAsPowerSum(f, base, p[1..], j);
      PowPow(f, base, j, |p| - 1);
    }
  }

  /** The number of positions at which p and q disagree. */
  function Distance<T(==)>(p: seq<T>, q: seq<T>): nat
    requires |p| == |q|
  {
    if p == [] then 0 else (if p[0] == q[0] then 0 else 1) + Distance(p[1..], q[1..])
  }

  lemma {:induction false} DistanceBounds<T>(p: seq<T>, q: seq<T>)
    requires |p| == |q|
    ensures Distance(p, q) <= |p|
    ensures Distance(p, q) == 0 <==> p == q
  {
    if p != [] {
      DistanceBounds(p[1..], q[1..]);
      assert p == [p[0]] + p[1..] && q == [q[0]] + q[1..];
    }
  }

  lemma {:induction false} Triangle<T>(p: seq<T>, w: seq<T>, q: seq<T>)
    requires |p| == |w| == |q|
    ensures Distance(p, q) <= Distance(p, w) + Distance(w, q)
  {
    if p != [] { Triangle(p[1..], w[1..], q[1..]); }
  }

  lemma {:induction false} DistanceIsWeight<T(!new)>(f: Field<T>, p: seq<T>, q: seq<T>)
    requires IsField(f) && |p| == |q|
    ensures Weight(f, AddPoly(f, p, q)) == Distance(p, q)
  {
    if p != [] {
      DistanceIsWeight(f, p[1..], q[1..]);
      assert AddPoly(f, p, q)[1..] == AddPoly(f, p[1..], q[1..]);
      ZeroSum(f, p[0], q[0]);
    }
  }

  /** Two words that agree at the first d powers are equal or differ in more than d positions. */
  lemma AgreeingWordsAreFar<T(!new)>(f: Field<T>, base: T, d: nat, p: seq<T>, q: seq<T>)
    requires IsField(f) && |p| == |q| && PowersDistinct(f, base, |p|)
    requires forall i :: 0 <= i < d ==> Eval(f, p, Pow(f, base, i)) == Eval(f, q, Pow(f, base, i))
    ensures p == q || Distance(p, q) > d
  {
    var e, xs := AddPoly(f, p, q), Ratios(f, base, |p|);
    DistanceBounds(p, q);
    DistanceIsWeight(f, p, q);
    if Distance(p, q) <= d {
      forall j | 0 <= j < d ensures PowerSum(f, e, xs, j) == f.zero {
        EvalAsPowerSum(f, base, e, j);
        EvalAdd(f, p, q, Pow(f, base, j));
        ZeroSum(f, Eval(f, p, Pow(f, base, j)), Eval(f, q, Pow(f, base, j)));
      }
      RatiosDistinct(f, base, |p|);
      FewTermsVanish(f, e, xs, d);
    }
  }

  /** Among the words of the right length only the remainder completes the data to a codeword. */
  lemma CheckWordIsUnique<T(!new)>(f: Field<T>, base: T, data: seq<T>, r: seq<T>)
    requires IsField(f) && |r| > 0 && PowersDistinct(f, base, |r|)
    ensures IsCodeword(f, base, |r|, data + r) <==> r == Remainder(f, data, Generator(f, base, |r|)[1..])
  {
    var d := |r|;
    var c := Remainder(f, data, Generator(f, base, d)[1..]);
    Systematic(f, base, d, data);
    if IsCodeword(f, base, d, data + r) {
      forall i | 0 <= i < d ensures Eval(f, r, Pow(f, base, i)) == Eval(f, c, Pow(f, base, i)) {
        var x := Pow(f, base, i);
        var lead := f.mul(Eval(f, data, x), Pow(f, x, d));
        EvalConcat(f, data, r, x);
        EvalConcat(f, data, c, x);
        ZeroSum(f, lead, Eval(f, r, x));
        ZeroSum(f, lead, Eval(f, c, x));
      }
      AgreeingWordsAreFar(f, base, d, r, c);
      DistanceBounds(r, c);
    }
  }
}

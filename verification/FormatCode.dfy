/** The format words as a code: multiples of the generator, far apart, and as the standard lists them. */
module FormatCode {
  import opened CarrylessProduct
  import CyclicCodes
  import opened FormatWords
  import Horner

  /** x^10 + x^8 + x^5 + x^4 + x^2 + x + 1. */
  const GENERATOR: Poly := {10, 8, 5, 4, 2, 1, 0}

  /** The 15 low bits of a word, the least significant one first. */
  function LowBits(w: Word): (b: seq<bool>)
    ensures |b| == 15
  {
    seq(15, i requires 0 <= i < 15 => GetBit(w, i))
  }

  function PolyOf(b: seq<bool>): Poly {
    set i: nat | i < |b| && b[i]
  }

  ghost predicate IsMultiple(p: Poly) {
    exists q: seq<bool> :: p == Product(GENERATOR, q)
  }

  // ----- Multiples of the generator -----

  /** One step of the division, bit by bit. */
  predicate Follows(b: seq<bool>, c: seq<bool>) {
    && |b| == |c| == 15
    && c[0] == b[9] && c[1] == (b[0] != b[9]) && c[2] == (b[1] != b[9]) && c[3] == b[2]
    && c[4] == (b[3] != b[9]) && c[5] == (b[4] != b[9]) && c[6] == b[5] && c[7] == b[6]
    && c[8] == (b[7] != b[9]) && c[9] == b[8]
    && !b[10] && !b[11] && !b[12] && !b[13] && !b[14]
    && !c[10] && !c[11] && !c[12] && !c[13] && !c[14]
  }

  lemma ShiftBits(rem: Word)
    requires rem < 0x400
    ensures var y := Shift(rem);
      && GetBit(y, 0) == GetBit(rem, 9) && GetBit(y, 1) == (GetBit(rem, 0) != GetBit(rem, 9))
      && GetBit(y, 2) == (GetBit(rem, 1) != GetBit(rem, 9))
      && GetBit(y, 3) == GetBit(rem, 2) && GetBit(y, 4) == (GetBit(rem, 3) != GetBit(rem, 9))
      && GetBit(y, 5) == (GetBit(rem, 4) != GetBit(rem, 9))
      && GetBit(y, 6) == GetBit(rem, 5) && GetBit(y, 7) == GetBit(rem, 6)
      && GetBit(y, 8) == (GetBit(rem, 7) != GetBit(rem, 9))
      && GetBit(y, 9) == GetBit(rem, 8)
      && !GetBit(y, 10) && !GetBit(y, 11) && !GetBit(y, 12) && !GetBit(y, 13) && !GetBit(y, 14)
  {}

  lemma HighBits(rem: Word)
    requires rem < 0x400
    ensures
      && !GetBit(rem, 10) && !GetBit(rem, 11) && !GetBit(rem, 12) && !GetBit(rem, 13) && !GetBit(rem, 14)
  {}

  lemma ShiftFollows(rem: Word)
    requires rem < 0x400
    ensures Follows(LowBits(rem), LowBits(Shift(rem)))
  {
    ShiftBits(rem);
    HighBits(rem);
  }

  /** A step multiplies by x, and takes off the generator if the degree would be 10. */
  lemma OfFollowing(b: seq<bool>, c: seq<bool>)
    requires Follows(b, c)
    ensures PolyOf(c) == Plus(ShiftUp(PolyOf(b)), if b[9] then GENERATOR else {})
  {
    var up, g := ShiftUp(PolyOf(b)), if b[9] then GENERATOR else {};
    forall e: nat ensures e in PolyOf(c) <==> e in Plus(up, g) {
      ShiftUpMember(PolyOf(b), e);
      FollowingAt(b, c, e);
    }
  }

  lemma FollowingAt(b: seq<bool>, c: seq<bool>, e: nat)
    requires Follows(b, c)
    ensures e < 15 && c[e] <==> (0 < e <= 15 && b[e - 1]) != (b[9] && e in GENERATOR)
  {}

  /** Multiplied by x^n. */
  function Up(p: Poly, n: nat): Poly {
    if n == 0 then p else ShiftUp(Up(p, n - 1))
  }

  lemma {:induction false} UpMember(p: Poly, n: nat, e: nat)
    ensures e in Up(p, n) <==> e >= n && e - n in p
  {
    if n > 0 {
      ShiftUpMember(Up(p, n - 1), e);
      if e > 0 { UpMember(p, n - 1, e - 1); }
    }
  }

  /** After n steps the remainder and the shifted data differ by a multiple of the generator. */
  lemma {:induction false} RemainderIsReduced(data: Word, n: nat) returns (q: seq<bool>)
    requires data < 0x400
    ensures Up(PolyOf(LowBits(data)), n)
         == Plus(PolyOf(LowBits(Remainder(data, n))), Product(GENERATOR, q))
  {
    if n == 0 {
      q := [];
    } else {
      var init := RemainderIsReduced(data, n - 1);
      var rem := Remainder(data, n - 1);
      ShiftFollows(rem);
      q := ReducedStep(LowBits(rem), LowBits(Shift(rem)), init);
    }
  }

  lemma ReducedStep(b: seq<bool>, c: seq<bool>, init: seq<bool>) returns (q: seq<bool>)
    requires Follows(b, c)
    ensures ShiftUp(Plus(PolyOf(b), Product(GENERATOR, init)))
         == Plus(PolyOf(c), Product(GENERATOR, q))
  {
    var m := Product(GENERATOR, init);
    q := init + [b[9]];
    OfFollowing(b, c);
    Horner.TimesAppend(POLYS, GENERATOR, init, b[9]);
    ShiftUpIsLinear(PolyOf(b), m);
    TakenTwice(ShiftUp(PolyOf(b)), ShiftUp(m), if b[9] then GENERATOR else {});
  }

  lemma TakenTwice(p: Poly, q: Poly, g: Poly)
    ensures Plus(Plus(p, g), Plus(q, g)) == Plus(p, q)
  {}

  /** The remainder, and above it the data. */
  predicate Joined(d: seq<bool>, r: seq<bool>, y: seq<bool>) {
    && |d| == |r| == |y| == 15
    && y[0] == r[0] && y[1] == r[1] && y[2] == r[2] && y[3] == r[3] && y[4] == r[4]
    && y[5] == r[5] && y[6] == r[6] && y[7] == r[7] && y[8] == r[8] && y[9] == r[9]
    && y[10] == d[0] && y[11] == d[1] && y[12] == d[2] && y[13] == d[3] && y[14] == d[4]
    && !d[5] && !d[6] && !d[7] && !d[8] && !d[9]
    && !d[10] && !d[11] && !d[12] && !d[13] && !d[14]
    && !r[10] && !r[11] && !r[12] && !r[13] && !r[14]
  }

  lemma JoinJoins(data: Word, rem: Word)
    requires data < 0x20 && rem < 0x400
    ensures Joined(LowBits(data), LowBits(rem), LowBits(Join(data, rem) ^ 0x5412))
  {
    JoinBits(data, rem);
    HighBits(rem);
    DataBits(data);
  }

  lemma JoinBits(data: Word, rem: Word)
    requires data < 0x20 && rem < 0x400
    ensures var y := Join(data, rem) ^ 0x5412;
      && GetBit(y, 0) == GetBit(rem, 0) && GetBit(y, 1) == GetBit(rem, 1) && GetBit(y, 2) == GetBit(rem, 2)
      && GetBit(y, 3) == GetBit(rem, 3) && GetBit(y, 4) == GetBit(rem, 4) && GetBit(y, 5) == GetBit(rem, 5)
      && GetBit(y, 6) == GetBit(rem, 6) && GetBit(y, 7) == GetBit(rem, 7) && GetBit(y, 8) == GetBit(rem, 8)
      && GetBit(y, 9) == GetBit(rem, 9) && GetBit(y, 10) == GetBit(data, 0) && GetBit(y, 11) == GetBit(data, 1)
      && GetBit(y, 12) == GetBit(data, 2) && GetBit(y, 13) == GetBit(data, 3) && GetBit(y, 14) == GetBit(data, 4)
  {}

  lemma DataBits(data: Word)
    requires data < 0x20
    ensures
      && !GetBit(data, 5) && !GetBit(data, 6) && !GetBit(data, 7) && !GetBit(data, 8) && !GetBit(data, 9)
      && !GetBit(data, 10) && !GetBit(data, 11) && !GetBit(data, 12) && !GetBit(data, 13) && !GetBit(data, 14)
  {}

  lemma OfJoined(d: seq<bool>, r: seq<bool>, y: seq<bool>)
    requires Joined(d, r, y)
    ensures PolyOf(y) == Plus(Up(PolyOf(d), 10), PolyOf(r))
  {
    forall e: nat ensures e in PolyOf(y) <==> e in Plus(Up(PolyOf(d), 10), PolyOf(r)) {
      UpMember(PolyOf(d), 10, e);
    }
  }

  /** Without the fixed pattern every format word is a multiple of the generator. */
  lemma WordsAreMultiples(level: nat, msk: nat)
    requires level < 4 && msk < 8
    ensures IsMultiple(PolyOf(LowBits(Packed(FormatData(level, msk)) ^ 0x5412)))
  {
    var data := FormatData(level, msk);
    DataIsSmall(level, msk);
    DataIsMultiple(data);
  }

  lemma DataIsMultiple(data: Word)
    requires data < 0x20
    ensures IsMultiple(PolyOf(LowBits(Packed(data) ^ 0x5412)))
  {
    var q := RemainderIsReduced(data, 10);
    PackedJoins(data);
    SumIsMultiple(LowBits(data), LowBits(Remainder(data, 10)), LowBits(Packed(data) ^ 0x5412), q);
  }

  lemma PackedJoins(data: Word)
    requires data < 0x20
    ensures Joined(LowBits(data), LowBits(Remainder(data, 10)), LowBits(Packed(data) ^ 0x5412))
  {
    JoinJoins(data, Remainder(data, 10));
  }

  lemma SumIsMultiple(d: seq<bool>, r: seq<bool>, y: seq<bool>, q: seq<bool>)
    requires Joined(d, r, y) && Up(PolyOf(d), 10) == Plus(PolyOf(r), Product(GENERATOR, q))
    ensures IsMultiple(PolyOf(y))
  {
    OfJoined(d, r, y);
    var m := Product(GENERATOR, q);
    assert Plus(Plus(PolyOf(r), m), PolyOf(r)) == m;
  }

  // ----- The distance -----

  function One(b: bool): nat {
    if b then 1 else 0
  }

  function Weight(b: seq<bool>): nat {
    if b == [] then 0 else One(b[0]) + Weight(b[1..])
  }

  lemma WeightOfFive(b: seq<bool>, k: nat)
    requires k + 5 <= |b|
    ensures Weight(b[k..])
         == One(b[k]) + One(b[k + 1]) + One(b[k + 2]) + One(b[k + 3]) + One(b[k + 4]) + Weight(b[k + 5..])
  {
    NextWeight(b, k);
    NextWeight(b, k + 1);
    NextWeight(b, k + 2);
    NextWeight(b, k + 3);
    NextWeight(b, k + 4);
  }

  lemma NextWeight(b: seq<bool>, k: nat)
    requires k < |b|
    ensures Weight(b[k..]) == One(b[k]) + Weight(b[k + 1..])
  {
    assert b[k..][1..] == b[k + 1..];
  }

  lemma WeightIsSum(b: seq<bool>)
    requires |b| == 15
    ensures Weight(b) == SumOf(b)
  {
    WeightOfFive(b, 0);
    WeightOfFive(b, 5);
    WeightOfFive(b, 10);
    assert b[0..] == b && b[15..] == [];
  }

  function SumOf(b: seq<bool>): nat
    requires |b| == 15
  {
    One(b[0]) + One(b[1]) + One(b[2]) + One(b[3]) + One(b[4])
    + One(b[5]) + One(b[6]) + One(b[7]) + One(b[8]) + One(b[9])
    + One(b[10]) + One(b[11]) + One(b[12]) + One(b[13]) + One(b[14])
  }

  lemma NextRemainder(data: Word, n: nat)
    ensures Remainder(data, n + 1) == Shift(Remainder(data, n))
  {}

  lemma TenSteps(data: Word)
    ensures Remainder(data, 10)
         == Shift(Shift(Shift(Shift(Shift(Shift(Shift(Shift(Shift(Shift(data))))))))))
  {
    NextRemainder(data, 0);
    NextRemainder(data, 1);
    NextRemainder(data, 2);
    NextRemainder(data, 3);
    NextRemainder(data, 4);
    NextRemainder(data, 5);
    NextRemainder(data, 6);
    NextRemainder(data, 7);
    NextRemainder(data, 8);
    NextRemainder(data, 9);
  }

  /** Every bit of a word is a sum of data bits, and of the pattern. */
  predicate Parities(d: seq<bool>, p: seq<bool>) {
    && |d| == |p| == 15
    && p[0] == ((d[0] != d[2]) != d[4]) && p[1] == !((((d[0] != d[1]) != d[2]) != d[3]) != d[4])
    && p[2] == ((d[0] != d[1]) != d[3])
    && p[3] == ((d[1] != d[2]) != d[4]) && p[4] == !((d[0] != d[3]) != d[4]) && p[5] == ((d[0] != d[1]) != d[2])
    && p[6] == ((d[1] != d[2]) != d[3]) && p[7] == ((d[2] != d[3]) != d[4]) && p[8] == ((d[0] != d[2]) != d[3])
    && p[9] == ((d[1] != d[3]) != d[4]) && p[10] == !d[0] && p[11] == d[1]
    && p[12] == !d[2] && p[13] == d[3] && p[14] == !d[4]
  }

  lemma PackedBits(data: Word)
    requires data < 0x20
    ensures var y := Packed(data);
      && GetBit(y, 0) == ((GetBit(data, 0) != GetBit(data, 2)) != GetBit(data, 4))
      && GetBit(y, 1)
         == !((((GetBit(data, 0) != GetBit(data, 1)) != GetBit(data, 2)) != GetBit(data, 3)) != GetBit(data, 4))
      && GetBit(y, 2) == ((GetBit(data, 0) != GetBit(data, 1)) != GetBit(data, 3))
      && GetBit(y, 3) == ((GetBit(data, 1) != GetBit(data, 2)) != GetBit(data, 4))
      && GetBit(y, 4) == !((GetBit(data, 0) != GetBit(data, 3)) != GetBit(data, 4))
      && GetBit(y, 5) == ((GetBit(data, 0) != GetBit(data, 1)) != GetBit(data, 2))
      && GetBit(y, 6) == ((GetBit(data, 1) != GetBit(data, 2)) != GetBit(data, 3))
      && GetBit(y, 7) == ((GetBit(data, 2) != GetBit(data, 3)) != GetBit(data, 4))
      && GetBit(y, 8) == ((GetBit(data, 0) != GetBit(data, 2)) != GetBit(data, 3))
      && GetBit(y, 9) == ((GetBit(data, 1) != GetBit(data, 3)) != GetBit(data, 4))
      && GetBit(y, 10) == !GetBit(data, 0) && GetBit(y, 11) == GetBit(data, 1)
      && GetBit(y, 12) == !GetBit(data, 2) && GetBit(y, 13) == GetBit(data, 3)
      && GetBit(y, 14) == !GetBit(data, 4)
  {
    TenSteps(data);
  }

  lemma PackedHasParities(data: Word)
    requires data < 0x20
    ensures Parities(LowBits(data), LowBits(Packed(data)))
  {
    PackedBits(data);
  }

  /** The code is linear, and each of its 31 words other than 0 has at least seven bits set. */
  lemma ParitiesAreFar(d: seq<bool>, p: seq<bool>, e: seq<bool>, q: seq<bool>)
    requires Parities(d, p) && Parities(e, q)
    requires d[0] != e[0] || d[1] != e[1] || d[2] != e[2] || d[3] != e[3] || d[4] != e[4]
    ensures CyclicCodes.Distance(p, q) >= 7
  {
    var b := seq(15, i requires 0 <= i < 15 => p[i] != q[i]);
    WeightIsSum(b);
    DistanceIsWeight(p, q, b);
    DifferenceIsWord(d, p, e, q, b, d[0] != e[0], d[1] != e[1], d[2] != e[2], d[3] != e[3], d[4] != e[4]);
  }

  lemma DifferenceIsWord(d: seq<bool>, p: seq<bool>, e: seq<bool>, q: seq<bool>, b: seq<bool>,
      d0: bool, d1: bool, d2: bool, d3: bool, d4: bool)
    requires Parities(d, p) && Parities(e, q) && |b| == 15 && forall i :: 0 <= i < 15 ==> b[i] == (p[i] != q[i])
    requires d0 == (d[0] != e[0]) && d1 == (d[1] != e[1]) && d2 == (d[2] != e[2])
    requires d3 == (d[3] != e[3]) && d4 == (d[4] != e[4]) && (d0 || d1 || d2 || d3 || d4)
    ensures SumOf(b) >= 7
  {
    HeavyWord(d0, d1, d2, d3, d4, b);
  }

  lemma HeavyWord(d0: bool, d1: bool, d2: bool, d3: bool, d4: bool, b: seq<bool>)
    requires (d0 || d1 || d2 || d3 || d4) && |b| == 15
    requires b[0] == ((d0 != d2) != d4) && b[1] == ((((d0 != d1) != d2) != d3) != d4) && b[2] == ((d0 != d1) != d3)
    requires b[3] == ((d1 != d2) != d4) && b[4] == ((d0 != d3) != d4) && b[5] == ((d0 != d1) != d2)
    requires b[6] == ((d1 != d2) != d3) && b[7] == ((d2 != d3) != d4) && b[8] == ((d0 != d2) != d3)
    requires b[9] == ((d1 != d3) != d4) && b[10] == d0 && b[11] == d1
    requires b[12] == d2 && b[13] == d3 && b[14] == d4
    ensures SumOf(b) >= 7
  {}

  lemma {:induction false} DistanceIsWeight(p: seq<bool>, q: seq<bool>, r: seq<bool>)
    requires |p| == |q| == |r| && forall i :: 0 <= i < |r| ==> r[i] == (p[i] != q[i])
    ensures CyclicCodes.Distance(p, q) == Weight(r)
  {
    if p != [] {
      DistanceIsWeight(p[1..], q[1..], r[1..]);
    }
  }

  lemma AreLowBits(level: nat, msk: nat)
    ensures FormatBits(level, msk) == LowBits(Packed(FormatData(level, msk)))
  {}

  /** Format words of different level or mask differ in at least seven of their fifteen bits. */
  lemma WordsAreFar(level: nat, msk: nat, otherLevel: nat, otherMsk: nat)
    requires level < 4 && msk < 8 && otherLevel < 4 && otherMsk < 8 && (level != otherLevel || msk != otherMsk)
    ensures CyclicCodes.Distance(FormatBits(level, msk), FormatBits(otherLevel, otherMsk)) >= 7
  {
    var a, b := FormatData(level, msk), FormatData(otherLevel, otherMsk);
    DataIsSmall(level, msk);
    DataIsSmall(otherLevel, otherMsk);
    PackedHasParities(a);
    PackedHasParities(b);
    DataDiffer(level, msk, otherLevel, otherMsk);
    AreLowBits(level, msk);
    AreLowBits(otherLevel, otherMsk);
    ParitiesAreFar(LowBits(a), LowBits(Packed(a)), LowBits(b), LowBits(Packed(b)));
  }

  lemma DataDiffer(level: nat, msk: nat, otherLevel: nat, otherMsk: nat)
    requires level < 4 && msk < 8 && otherLevel < 4 && otherMsk < 8 && (level != otherLevel || msk != otherMsk)
    ensures var d, e := LowBits(FormatData(level, msk)), LowBits(FormatData(otherLevel, otherMsk));
      d[0] != e[0] || d[1] != e[1] || d[2] != e[2] || d[3] != e[3] || d[4] != e[4]
  {
    FieldsOfData(level, msk);
    FieldsOfData(otherLevel, otherMsk);
  }

  // ----- The list -----

  /** The format words as Annex C of ISO/IEC 18004 lists them, in the order of their five data bits. */
  const LISTED: seq<Word> := [
    0x5412, 0x5125, 0x5E7C, 0x5B4B, 0x45F9, 0x40CE, 0x4F97, 0x4AA0,
    0x77C4, 0x72F3, 0x7DAA, 0x789D, 0x662F, 0x6318, 0x6C41, 0x6976,
    0x1689, 0x13BE, 0x1CE7, 0x19D0, 0x0762, 0x0255, 0x0D0C, 0x083B,
    0x355F, 0x3068, 0x3F31, 0x3A06, 0x24B4, 0x2183, 0x2EDA, 0x2BED
  ]

  lemma WordsAreListed(level: nat, msk: nat)
    requires level < 4 && msk < 8
    ensures Packed(FormatData(level, msk)) == LISTED[8 * level + msk]
  {
    match level
    case 0 => ListedFirst(msk);
    case 1 => ListedSecond(msk);
    case 2 => ListedThird(msk);
    case _ => ListedFourth(msk);
  }

  lemma ListedFirst(msk: nat)
    requires msk < 8
    ensures Packed(FormatData(0, msk)) == LISTED[0 + msk]
  {
    DataFirst();
    WordsFirst();
    if msk < 4 {
      assert msk == 0 || msk == 1 || msk == 2 || msk == 3;
    } else {
      assert msk == 4 || msk == 5 || msk == 6 || msk == 7;
    }
  }

  lemma DataFirst()
    ensures FormatData(0, 0) == 0x00 && FormatData(0, 1) == 0x01 && FormatData(0, 2) == 0x02 && FormatData(0, 3) == 0x03
    ensures FormatData(0, 4) == 0x04 && FormatData(0, 5) == 0x05 && FormatData(0, 6) == 0x06 && FormatData(0, 7) == 0x07
  {}

  lemma WordsFirst()
    ensures Packed(0x00) == 0x5412 && Packed(0x01) == 0x5125 && Packed(0x02) == 0x5E7C && Packed(0x03) == 0x5B4B
    ensures Packed(0x04) == 0x45F9 && Packed(0x05) == 0x40CE && Packed(0x06) == 0x4F97 && Packed(0x07) == 0x4AA0
  {
    TenSteps(0x00);
    TenSteps(0x01);
    TenSteps(0x02);
    TenSteps(0x03);
    TenSteps(0x04);
    TenSteps(0x05);
    TenSteps(0x06);
    TenSteps(0x07);
  }

  lemma ListedSecond(msk: nat)
    requires msk < 8
    ensures Packed(FormatData(1, msk)) == LISTED[8 + msk]
  {
    DataSecond();
    WordsSecond();
    if msk < 4 {
      assert msk == 0 || msk == 1 || msk == 2 || msk == 3;
    } else {
      assert msk == 4 || msk == 5 || msk == 6 || msk == 7;
    }
  }

  lemma DataSecond()
    ensures FormatData(1, 0) == 0x08 && FormatData(1, 1) == 0x09 && FormatData(1, 2) == 0x0A && FormatData(1, 3) == 0x0B
    ensures FormatData(1, 4) == 0x0C && FormatData(1, 5) == 0x0D && FormatData(1, 6) == 0x0E && FormatData(1, 7) == 0x0F
  {}

  lemma WordsSecond()
    ensures Packed(0x08) == 0x77C4 && Packed(0x09) == 0x72F3 && Packed(0x0A) == 0x7DAA && Packed(0x0B) == 0x789D
    ensures Packed(0x0C) == 0x662F && Packed(0x0D) == 0x6318 && Packed(0x0E) == 0x6C41 && Packed(0x0F) == 0x6976
  {
    TenSteps(0x08);
    TenSteps(0x09);
    TenSteps(0x0A);
    TenSteps(0x0B);
    TenSteps(0x0C);
    TenSteps(0x0D);
    TenSteps(0x0E);
    TenSteps(0x0F);
  }

  lemma ListedThird(msk: nat)
    requires msk < 8
    ensures Packed(FormatData(2, msk)) == LISTED[16 + msk]
  {
    DataThird();
    WordsThird();
    if msk < 4 {
      assert msk == 0 || msk == 1 || msk == 2 || msk == 3;
    } else {
      assert msk == 4 || msk == 5 || msk == 6 || msk == 7;
    }
  }

  lemma DataThird()
    ensures FormatData(2, 0) == 0x10 && FormatData(2, 1) == 0x11 && FormatData(2, 2) == 0x12 && FormatData(2, 3) == 0x13
    ensures FormatData(2, 4) == 0x14 && FormatData(2, 5) == 0x15 && FormatData(2, 6) == 0x16 && FormatData(2, 7) == 0x17
  {}

  lemma WordsThird()
    ensures Packed(0x10) == 0x1689 && Packed(0x11) == 0x13BE && Packed(0x12) == 0x1CE7 && Packed(0x13) == 0x19D0
    ensures Packed(0x14) == 0x0762 && Packed(0x15) == 0x0255 && Packed(0x16) == 0x0D0C && Packed(0x17) == 0x083B
  {
    TenSteps(0x10);
    TenSteps(0x11);
    TenSteps(0x12);
    TenSteps(0x13);
    TenSteps(0x14);
    TenSteps(0x15);
    TenSteps(0x16);
    TenSteps(0x17);
  }

  lemma ListedFourth(msk: nat)
    requires msk < 8
    ensures Packed(FormatData(3, msk)) == LISTED[24 + msk]
  {
    DataFourth();
    WordsFourth();
    if msk < 4 {
      assert msk == 0 || msk == 1 || msk == 2 || msk == 3;
    } else {
      assert msk == 4 || msk == 5 || msk == 6 || msk == 7;
    }
  }

  lemma DataFourth()
    ensures FormatData(3, 0) == 0x18 && FormatData(3, 1) == 0x19 && FormatData(3, 2) == 0x1A && FormatData(3, 3) == 0x1B
    ensures FormatData(3, 4) == 0x1C && FormatData(3, 5) == 0x1D && FormatData(3, 6) == 0x1E && FormatData(3, 7) == 0x1F
  {}

  lemma WordsFourth()
    ensures Packed(0x18) == 0x355F && Packed(0x19) == 0x3068 && Packed(0x1A) == 0x3F31 && Packed(0x1B) == 0x3A06
    ensures Packed(0x1C) == 0x24B4 && Packed(0x1D) == 0x2183 && Packed(0x1E) == 0x2EDA && Packed(0x1F) == 0x2BED
  {
    TenSteps(0x18);
    TenSteps(0x19);
    TenSteps(0x1A);
    TenSteps(0x1B);
    TenSteps(0x1C);
    TenSteps(0x1D);
    TenSteps(0x1E);
    TenSteps(0x1F);
  }
}

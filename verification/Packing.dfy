/** Digits of some base, packed group by group into fields of bits. */
module Packing {
  import opened Arithmetic
  import opened BitNumbers
  import opened Sequences

  /** Groups of up to groupSize digits below base; k digits take widths[k] bits. */
  datatype Packing = Packing(base: nat, widths: seq<nat>) {
    function GroupSize(): int {
      |widths| - 1
    }

    /** Every group fits its field. */
    ghost predicate Valid() {
      && base > 0
      && |widths| > 1
      && forall k :: 0 <= k < |widths| ==> Power(base, k) <= Two(widths[k])
    }
  }

  function Power(b: nat, n: nat): nat {
    if n == 0 then 1 else b * Power(b, n - 1)
  }

  function ValueOf(base: nat, vals: seq<nat>): nat {
    if vals == [] then 0 else base * ValueOf(base, vals[..|vals| - 1]) + vals[|vals| - 1]
  }

  function DigitsOf(base: nat, n: nat, v: nat): (vals: seq<nat>)
    requires base > 0
    ensures |vals| == n
  {
    if n == 0 then [] else DigitsOf(base, n - 1, v / base) + [v % base]
  }

  lemma {:induction false} ValueBound(base: nat, vals: seq<nat>)
    requires AllBelow(vals, base)
    ensures ValueOf(base, vals) < Power(base, |vals|)
  {
    if vals != [] {
      var init := vals[..|vals| - 1];
      ValueBound(base, init);
      MulBound(base, ValueOf(base, init), Power(base, |init|), vals[|vals| - 1]);
    }
  }

  lemma MulBound(b: nat, v: nat, p: nat, d: nat)
    requires v < p && d < b
    ensures b * v + d < b * p
  {
    assert b * (v + 1) <= b * p;
  }

  lemma {:induction false} DigitsOfValue(base: nat, vals: seq<nat>)
    requires base > 0 && AllBelow(vals, base)
    ensures DigitsOf(base, |vals|, ValueOf(base, vals)) == vals
  {
    if vals != [] {
      var init, d := vals[..|vals| - 1], vals[|vals| - 1];
      DigitsOfValue(base, init);
      DivMod(base, ValueOf(base, init), d);
    }
  }

  lemma DivMod(b: nat, q: nat, r: nat)
    requires r < b
    ensures (b * q + r) / b == q && (b * q + r) % b == r
  {
    var v := b * q + r;
    assert v == b * (v / b) + v % b;
    assert b * (q - v / b) == b * q - b * (v / b);
    SmallMultiple(q - v / b, b, v % b - r);
  }

  // ----- Packing and unpacking -----

  function PackedBits(p: Packing, vals: seq<nat>): seq<bool>
    requires |p.widths| > 1
  {
    if vals == [] then []
    else if |vals| <= p.GroupSize() then NumBits(ValueOf(p.base, vals), p.widths[|vals|])
    else PackedBits(p, vals[..p.GroupSize()]) + PackedBits(p, vals[p.GroupSize()..])
  }

  /** After whole groups, another group is a field of its own. */
  lemma {:induction false} PackedAppend(p: Packing, done: seq<nat>, group: seq<nat>)
    requires |p.widths| > 1 && Whole(|done|, p.GroupSize()) && |group| <= p.GroupSize()
    ensures PackedBits(p, done + group) == PackedBits(p, done) + PackedBits(p, group)
  {
    var n := p.GroupSize();
    if done == [] {
      assert done + group == group;
    } else if group == [] {
      assert done + group == done;
    } else {
      PackedAppend(p, done[n..], group);
      assert (done + group)[..n] == done[..n] && (done + group)[n..] == done[n..] + group;
      if |done| == n {
        assert done[n..] == [] && done[..n] == done;
      }
    }
  }

  /** k elements are whole groups of n. */
  predicate Whole(k: int, n: int)
    requires n > 0
    decreases k
  {
    k == 0 || (k >= n && Whole(k - n, n))
  }

  datatype Unpacked = Unpacked(vals: seq<nat>, rest: seq<bool>)

  /** Reads n digits from the front of a bit string, if it is long enough. */
  function Unpack(p: Packing, bits: seq<bool>, n: nat): (u: Unpacked)
    requires |p.widths| > 1 && p.base > 0
    ensures |u.rest| <= |bits|
    decreases n
  {
    var k := if n <= p.GroupSize() then n else p.GroupSize();
    var w := p.widths[k];
    if n == 0 || |bits| < w then Unpacked([], bits)
    else
      var group := DigitsOf(p.base, k, Value(bits[..w]));
      var others := Unpack(p, bits[w..], n - k);
      Unpacked(group + others.vals, others.rest)
  }

  lemma {:induction false} PackedCanBeRead(p: Packing, vals: seq<nat>, rest: seq<bool>)
    requires p.Valid() && AllBelow(vals, p.base)
    ensures Unpack(p, PackedBits(p, vals) + rest, |vals|) == Unpacked(vals, rest)
  {
    if vals == [] {
      assert [] + rest == rest;
    } else {
      var k := if |vals| <= p.GroupSize() then |vals| else p.GroupSize();
      var group, others := vals[..k], vals[k..];
      assert group + others == vals;
      PackedCanBeRead(p, others, rest);
      GroupBeforeOthers(p, group, others, rest);
    }
  }

  lemma GroupBeforeOthers(p: Packing, group: seq<nat>, others: seq<nat>, rest: seq<bool>)
    requires p.Valid() && AllBelow(group, p.base) && IsGroup(p, group, others)
    requires Unpack(p, PackedBits(p, others) + rest, |others|) == Unpacked(others, rest)
    ensures Unpack(p, PackedBits(p, group + others) + rest, |group + others|) == Unpacked(group + others, rest)
  {
    PackedSplit(p, group, others);
    UnpackGroup(p, group, others, PackedBits(p, others) + rest, rest);
    Associate(NumBits(ValueOf(p.base, group), p.widths[|group|]), PackedBits(p, others), rest);
  }

  /** A group is full, or the last one. */
  predicate IsGroup(p: Packing, group: seq<nat>, others: seq<nat>) {
    0 < |group| <= p.GroupSize() && (|group| < p.GroupSize() ==> others == [])
  }

  lemma PackedSplit(p: Packing, group: seq<nat>, others: seq<nat>)
    requires |p.widths| > 1 && IsGroup(p, group, others)
    ensures PackedBits(p, group + others)
         == NumBits(ValueOf(p.base, group), p.widths[|group|]) + PackedBits(p, others)
  {
    var vals := group + others;
    assert vals[..|group|] == group && vals[|group|..] == others;
    if others == [] { assert vals == group; }
  }

  /** One step of the reader. */
  lemma UnpackGroup(p: Packing, group: seq<nat>, others: seq<nat>, more: seq<bool>, rest: seq<bool>)
    requires p.Valid() && AllBelow(group, p.base) && IsGroup(p, group, others)
    requires Unpack(p, more, |others|) == Unpacked(others, rest)
    ensures Unpack(p, NumBits(ValueOf(p.base, group), p.widths[|group|]) + more, |group + others|)
         == Unpacked(group + others, rest)
  {
    var field := NumBits(ValueOf(p.base, group), p.widths[|group|]);
    assert (field + more)[..|field|] == field && (field + more)[|field|..] == more;
    GroupCanBeRead(p, group);
  }

  lemma GroupCanBeRead(p: Packing, group: seq<nat>)
    requires p.Valid() && AllBelow(group, p.base) && |group| < |p.widths|
    ensures ValueOf(p.base, group) < Two(p.widths[|group|])
    ensures DigitsOf(p.base, |group|, Value(NumBits(ValueOf(p.base, group), p.widths[|group|]))) == group
  {
    ValueBound(p.base, group);
    FieldCanBeRead(ValueOf(p.base, group), p.widths[|group|]);
    DigitsOfValue(p.base, group);
  }
}

/** The segments of a QR code: digits, alphanumeric text, bytes and ECI designators, as fields of bits. */
module Segments {
  import opened Results
  import opened Sequences
  import opened BitNumbers
  import opened Packing

  const INT_MAX := 0x7FFF_FFFF

  datatype Mode = Numeric | Alphanumeric | Byte | Kanji | Eci {
    function Indicator(): (i: nat)
      ensures 0 < i < 16
    {
      match this
      case Numeric => 1
      case Alphanumeric => 2
      case Byte => 4
      case Kanji => 8
      case Eci => 7
    }

    /** The width of the character count field. */
    function CountBits(version: nat): (n: nat)
      requires 1 <= version <= 40
      ensures n <= 16
    {
      var k := (version + 7) / 17;
      match this
      case Numeric => if k == 0 then 10 else if k == 1 then 12 else 14
      case Alphanumeric => if k == 0 then 9 else if k == 1 then 11 else 13
      case Byte => if k == 0 then 8 else 16
      case Kanji => if k == 0 then 8 else if k == 1 then 10 else 12
      case Eci => 0
    }
  }

  datatype Segment = Segment(mode: Mode, numChars: nat, data: seq<bool>)

  // ----- Characters -----

  /** Three digits take 10 bits; the one or two digits that remain take 4 or 7. */
  const DIGITS := Packing(10, [0, 4, 7, 10])

  /** Two characters take 11 bits; one that remains takes 6. */
  const PAIRS := Packing(45, [0, 6, 11])

  const CHARSET := "0123456789ABCDEFGHIJKLMNOPQRSTUVWXYZ $%*+-./:"

  lemma PackingsAreValid()
    ensures DIGITS.Valid() && PAIRS.Valid()
  {
    assert Power(10, 3) == 1000 && Two(10) == 1024;
    assert Power(10, 2) == 100 && Two(7) == 128;
    assert Power(45, 2) == 2025 && Two(11) == 2048;
    assert Two(4) == 16 && Two(6) == 64;
  }

  function IndexOf(s: string, c: char): (r: Option<nat>)
    ensures r.Some? ==> r.value < |s| && s[r.value] == c
    ensures r.None? ==> c !in s
  {
    if s == [] then None
    else if s[0] == c then Some(0)
    else var r := IndexOf(s[1..], c); if r.Some? then Some(r.value + 1) else None
  }

  predicate IsDigit(c: char) {
    '0' <= c <= '9'
  }

  predicate IsNumeric(text: string) {
    forall i :: 0 <= i < |text| ==> IsDigit(text[i])
  }

  predicate IsAlphanumeric(text: string) {
    forall i :: 0 <= i < |text| ==> text[i] in CHARSET
  }

  function DigitValues(text: string): (vals: seq<nat>)
    requires IsNumeric(text)
    ensures AllBelow(vals, 10)
  {
    seq(|text|, i requires 0 <= i < |text| => (text[i] - '0') as nat)
  }

  function CharsetValues(text: string): (vals: seq<nat>)
    requires IsAlphanumeric(text)
    ensures AllBelow(vals, 45)
  {
    seq(|text|, i requires 0 <= i < |text| => IndexOf(CHARSET, text[i]).value)
  }

  /** The common part of the two text loops: one more digit, and a full group goes out as a field. */
  method PushDigit(p: Packing, bb: BitBuffer, data: nat, count: nat, v: nat, ghost done: seq<nat>,
      ghost group: seq<nat>)
    returns (accumData: nat, accumCount: nat, ghost whole: seq<nat>, ghost part: seq<nat>)
    requires IsPartial(p, bb.bits, data, count, done, group) && v < p.base
    modifies bb
    ensures IsPartial(p, bb.bits, accumData, accumCount, whole, part)
    ensures whole + part == done + group + [v]
  {
    accumData, accumCount := data * p.base + v, count + 1;
    whole, part := done, group + [v];
    if accumCount == |p.widths| - 1 {
      FlushGroup(p, bb, data, count, done, group, v);
      accumData, accumCount := 0, 0;
      whole, part := done + group + [v], [];
    } else {
      GroupGrows(p, bb.bits, data, count, done, group, v);
    }
  }

  /** A full group goes out. */
  method FlushGroup(p: Packing, bb: BitBuffer, data: nat, count: nat, ghost done: seq<nat>, ghost group: seq<nat>,
      v: nat)
    requires IsPartial(p, bb.bits, data, count, done, group) && v < p.base && count + 1 == p.GroupSize()
    modifies bb
    ensures IsPartial(p, bb.bits, 0, 0, done + group + [v], []) && done + group + [v] + [] == done + group + [v]
  {
    GroupFills(p, bb.bits, data, count, done, group, v);
    var appended := bb.AppendBits(data * p.base + v, p.widths[count + 1]);
  }

  lemma GroupGrows(p: Packing, bits: seq<bool>, data: nat, count: nat, done: seq<nat>, group: seq<nat>, v: nat)
    requires IsPartial(p, bits, data, count, done, group) && v < p.base && count + 1 < p.GroupSize()
    ensures IsPartial(p, bits, data * p.base + v, count + 1, done, group + [v])
    ensures done + (group + [v]) == done + group + [v]
  {
    assert (group + [v])[..count] == group;
  }

  lemma GroupFills(p: Packing, bits: seq<bool>, data: nat, count: nat, done: seq<nat>, group: seq<nat>, v: nat)
    requires IsPartial(p, bits, data, count, done, group) && v < p.base && count + 1 == p.GroupSize()
    ensures data * p.base + v < Two(p.widths[count + 1])
    ensures IsPartial(p, bits + NumBits(data * p.base + v, p.widths[count + 1]), 0, 0, done + group + [v], [])
  {
    var part := group + [v];
    assert part[..count] == group;
    assert ValueOf(p.base, part) == data * p.base + v;
    GroupCanBeRead(p, part);
    PackedAppend(p, done, part);
    assert done + group + [v] == done + part;
    WholeAppend(|done|, p.GroupSize());
  }

  lemma {:induction false} WholeAppend(k: nat, n: nat)
    requires n > 0 && Whole(k, n)
    ensures Whole(k + n, n)
  {}

  /** The fields of whole groups have been appended, and the digits of a started group accumulated. */
  ghost predicate IsPartial(p: Packing, bits: seq<bool>, data: nat, count: nat, done: seq<nat>, group: seq<nat>) {
    && p.Valid() && (forall k :: 0 <= k < |p.widths| ==> p.widths[k] <= 31)
    && AllBelow(done, p.base) && AllBelow(group, p.base)
    && Whole(|done|, p.GroupSize()) && |group| == count < p.GroupSize()
    && bits == PackedBits(p, done)
    && data == ValueOf(p.base, group)
  }

  /** What is left of a started group goes out as a shorter field. */
  method Flush(p: Packing, bb: BitBuffer, data: nat, count: nat, ghost done: seq<nat>, ghost group: seq<nat>)
    requires IsPartial(p, bb.bits, data, count, done, group)
    modifies bb
    ensures bb.bits == PackedBits(p, done + group)
  {
    PackedAppend(p, done, group);
    if count > 0 {
      GroupCanBeRead(p, group);
      var appended := bb.AppendBits(data, p.widths[count]);
      assert appended.Ok?;
    }
  }

  lemma NextDigit(text: string, n: nat)
    requires n < |text| && IsNumeric(text[..n]) && '0' <= text[n] <= '9'
    ensures IsNumeric(text[..n + 1])
    ensures DigitValues(text[..n + 1]) == DigitValues(text[..n]) + [(text[n] - '0') as nat]
  {
    TakeNext(text, n);
  }

  lemma NextChar(text: string, n: nat)
    requires n < |text| && IsAlphanumeric(text[..n]) && IndexOf(CHARSET, text[n]).Some?
    ensures IsAlphanumeric(text[..n + 1])
    ensures CharsetValues(text[..n + 1]) == CharsetValues(text[..n]) + [IndexOf(CHARSET, text[n]).value]
  {
    TakeNext(text, n);
  }

  lemma NotNumeric(text: string, n: nat)
    requires n < |text| && !IsDigit(text[n])
    ensures !IsNumeric(text)
  {}

  method MakeNumeric(digits: string) returns (r: Result<Segment>)
    ensures r.Ok? <==> IsNumeric(digits)
    ensures r.Ok? ==> r.value == Segment(Numeric, |digits|, PackedBits(DIGITS, DigitValues(digits)))
  {
    PackingsAreValid();
    var bb := new BitBuffer();
    var accumData, accumCount := 0, 0;
    ghost var done, group: seq<nat> := [], [];
    for n := 0 to |digits|
      invariant IsNumeric(digits[..n]) && done + group == DigitValues(digits[..n])
      invariant IsPartial(DIGITS, bb.bits, accumData, accumCount, done, group)
    {
      var c := digits[n];
      if c < '0' || c > '9' {
        NotNumeric(digits, n);
        return Err("String contains non-numeric characters");
      }
      NextDigit(digits, n);
      accumData, accumCount, done, group := PushDigit(DIGITS, bb, accumData, accumCount, (c - '0') as nat, done, group);
    }
    Flush(DIGITS, bb, accumData, accumCount, done, group);
    assert digits[..|digits|] == digits;
    return Ok(Segment(Numeric, |digits|, bb.bits));
  }

  method MakeAlphanumeric(text: string) returns (r: Result<Segment>)
    ensures r.Ok? <==> IsAlphanumeric(text)
    ensures r.Ok? ==> r.value == Segment(Alphanumeric, |text|, PackedBits(PAIRS, CharsetValues(text)))
  {
    PackingsAreValid();
    var bb := new BitBuffer();
    var accumData, accumCount := 0, 0;
    ghost var done, group: seq<nat> := [], [];
    for n := 0 to |text|
      invariant IsAlphanumeric(text[..n]) && done + group == CharsetValues(text[..n])
      invariant IsPartial(PAIRS, bb.bits, accumData, accumCount, done, group)
    {
      var temp := IndexOf(CHARSET, text[n]);
      if temp.None? {
        return Err("String contains unencodable characters in alphanumeric mode");
      }
      NextChar(text, n);
      accumData, accumCount, done, group := PushDigit(PAIRS, bb, accumData, accumCount, temp.value, done, group);
    }
    Flush(PAIRS, bb, accumData, accumCount, done, group);
    assert text[..|text|] == text;
    return Ok(Segment(Alphanumeric, |text|, bb.bits));
  }

  // ----- Bytes and ECI designators -----

  function ByteBits(data: seq<nat>): (bits: seq<bool>)
    ensures |bits| == 8 * |data|
  {
    if data == [] then [] else ByteBits(data[..|data| - 1]) + NumBits(data[|data| - 1], 8)
  }

  method MakeBytes(data: seq<nat>) returns (r: Result<Segment>)
    requires AreBytes(data)
    ensures r.Ok? <==> |data| <= INT_MAX
    ensures r.Ok? ==> r.value == Segment(Byte, |data|, ByteBits(data))
  {
    if |data| > INT_MAX {
      return Err("Data too long");
    }
    var bb := new BitBuffer();
    for n := 0 to |data|
      invariant bb.bits == ByteBits(data[..n])
    {
      assert data[..n + 1][..n] == data[..n];
      assert Two(8) == 256;
      var appended := bb.AppendBits(data[n], 8);
      assert appended.Ok?;
    }
    assert data[..|data|] == data;
    return Ok(Segment(Byte, |data|, bb.bits));
  }

  function EciBits(v: nat): seq<bool> {
    if v < Two(7) then NumBits(v, 8)
    else if v < Two(14) then NumBits(2, 2) + NumBits(v, 14)
    else NumBits(6, 3) + NumBits(v, 21)
  }

  method MakeEci(assignVal: int) returns (r: Result<Segment>)
    ensures r.Ok? <==> 0 <= assignVal < 1000000
    ensures r.Ok? ==> r.value == Segment(Eci, 0, EciBits(assignVal))
  {
    EciLimits();
    var bb := new BitBuffer();
    var appended;
    if assignVal < 0 {
      return Err("ECI assignment value out of range");
    } else if assignVal < 128 {
      appended := bb.AppendBits(assignVal, 8);
    } else if assignVal < 16384 {
      appended := bb.AppendBits(2, 2);
      assert appended.Ok?;
      appended := bb.AppendBits(assignVal, 14);
    } else if assignVal < 1000000 {
      appended := bb.AppendBits(6, 3);
      assert appended.Ok?;
      appended := bb.AppendBits(assignVal, 21);
    } else {
      return Err("ECI assignment value out of range");
    }
    assert appended.Ok?;
    return Ok(Segment(Eci, 0, bb.bits));
  }

  lemma EciLimits()
    ensures Two(2) == 4 && Two(3) == 8 && Two(7) == 128 && Two(8) == 256 && Two(14) == 16384 && Two(21) > 1000000
  {
    assert Two(10) == 1024;
    assert Two(13) == 8192;
    assert Two(17) == 131072;
  }
}

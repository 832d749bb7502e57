/** Choosing a version, and laying out segments, terminator and padding in the data codewords. */
module Encoding {
  import opened Arithmetic
  import opened Results
  import opened Gf256
  import opened BitStrings
  import opened BitNumbers
  import opened Packing
  import opened Sequences
  import opened Segments

  const MIN_VERSION: nat := 1
  const MAX_VERSION: nat := 40

  datatype Ecc = Low | Medium | Quartile | High

  /** The number of data codewords of each version at each error correction level. */
  type Capacity = (nat, Ecc) -> nat

  // ----- Length arithmetic -----

  /** The exact number of bits of the segments with their headers. */
  function SumOfBits(segs: seq<Segment>, version: nat): nat
    requires 1 <= version <= 40
  {
    if segs == [] then 0
    else
      var seg := segs[|segs| - 1];
      SumOfBits(segs[..|segs| - 1], version) + 4 + seg.mode.CountBits(version) + |seg.data|
  }

  /** Every character count fits its field. */
  predicate CountsFit(segs: seq<Segment>, version: nat)
    requires 1 <= version <= 40
  {
    forall i :: 0 <= i < |segs| ==> segs[i].numChars < Two(segs[i].mode.CountBits(version))
  }

  function TotalBits(segs: seq<Segment>, version: nat): int
    requires 1 <= version <= 40
  {
    if CountsFit(segs, version) && SumOfBits(segs, version) <= INT_MAX then SumOfBits(segs, version) else -1
  }

  lemma {:induction false} SumGrows(segs: seq<Segment>, version: nat, n: nat)
    requires 1 <= version <= 40 && n <= |segs|
    ensures SumOfBits(segs[..n], version) <= SumOfBits(segs, version)
    decreases |segs|
  {
    if n == |segs| {
      assert segs[..n] == segs;
    } else {
      var init := segs[..|segs| - 1];
      SumGrows(init, version, n);
      assert init[..n] == segs[..n];
    }
  }

  /** Adds up without ever exceeding the range of an int. */
  method GetTotalBits(segs: seq<Segment>, version: nat) returns (result: int)
    requires 1 <= version <= 40
    ensures result == TotalBits(segs, version)
  {
    result := 0;
    for n := 0 to |segs|
      invariant 0 <= result <= INT_MAX
      invariant result == SumOfBits(segs[..n], version) && CountsFit(segs[..n], version)
    {
      var seg := segs[n];
      var ccbits := seg.mode.CountBits(version);
      assert segs[..n + 1][..n] == segs[..n];
      SumGrows(segs, version, n + 1);
      if seg.numChars >= Two(ccbits) {
        return -1;
      }
      if 4 + ccbits > INT_MAX - result {
        return -1;
      }
      result := result + 4 + ccbits;
      if |seg.data| > INT_MAX - result {
        return -1;
      }
      result := result + |seg.data|;
    }
    assert segs[..|segs|] == segs;
  }

  // ----- The bit string -----

  function Header(seg: Segment, version: nat): seq<bool>
    requires 1 <= version <= 40
  {
    NumBits(seg.mode.Indicator(), 4) + NumBits(seg.numChars, seg.mode.CountBits(version)) + seg.data
  }

  function AllHeaders(segs: seq<Segment>, version: nat): (bits: seq<bool>)
    requires 1 <= version <= 40
    ensures |bits| == SumOfBits(segs, version)
  {
    if segs == [] then []
    else AllHeaders(segs[..|segs| - 1], version) + Header(segs[|segs| - 1], version)
  }

  /** The pad bytes alternate. */
  function PadByte(n: nat): nat {
    if n % 2 == 0 then 0xEC else 0x11
  }

  function PadBytes(n: nat): (bits: seq<bool>)
    ensures |bits| == 8 * n
  {
    if n == 0 then [] else PadBytes(n - 1) + NumBits(PadByte(n - 1), 8)
  }

  /** Four zeros if there is room for them, and the rest of a byte. */
  function ZerosAfter(used: nat, capacity: nat): (z: nat)
    requires used <= 8 * capacity
    ensures used + z <= 8 * capacity && (used + z) % 8 == 0
    ensures z >= 4 || used + z == 8 * capacity
  {
    var t := Least(4, 8 * capacity - used);
    t + (8 - (used + t) % 8) % 8
  }

  /** The terminator, the rest of a byte, and alternating pad bytes up to the capacity. */
  function Padding(used: nat, capacity: nat): (bits: seq<bool>)
    requires used <= 8 * capacity
    ensures |bits| == 8 * capacity - used
  {
    var z := ZerosAfter(used, capacity);
    assert (8 * capacity - used - z) % 8 == 0;
    Repeated(false, z) + PadBytes((8 * capacity - used - z) / 8)
  }

  function DataBits(segs: seq<Segment>, version: nat, capacity: nat): (bits: seq<bool>)
    requires 1 <= version <= 40 && SumOfBits(segs, version) <= 8 * capacity
    ensures |bits| == 8 * capacity
  {
    AllHeaders(segs, version) + Padding(SumOfBits(segs, version), capacity)
  }

  // ----- The encoder -----

  /** A version holds the segments at an error correction level. */
  predicate Fits(segs: seq<Segment>, capacity: Capacity, version: nat, ecl: Ecc)
    requires 1 <= version <= 40
  {
    0 <= TotalBits(segs, version) <= 8 * capacity(version, ecl)
  }

  /** The highest of the upper three levels at which the data fits the version, or the given one. */
  predicate IsBoosted(segs: seq<Segment>, capacity: Capacity, version: nat, ecl: Ecc, r: Ecc)
    requires 1 <= version <= 40
  {
    if Fits(segs, capacity, version, High) then r == High
    else if Fits(segs, capacity, version, Quartile) then r == Quartile
    else if Fits(segs, capacity, version, Medium) then r == Medium
    else r == ecl
  }

  datatype Encoded = Encoded(version: nat, ecl: Ecc, bits: seq<bool>)

  method EncodeSegments(segs: seq<Segment>, capacity: Capacity, ecl: Ecc, minVersion: int, maxVersion: int,
                        mask: int, boostEcl: bool) returns (r: Result<Encoded>)
    ensures r.Ok? <==>
      && 1 <= minVersion <= maxVersion <= 40 && -1 <= mask <= 7
      && exists v :: minVersion <= v <= maxVersion && Fits(segs, capacity, v, ecl)
    ensures r.Ok? ==>
      && minVersion <= r.value.version <= maxVersion
      && Fits(segs, capacity, r.value.version, ecl)
      && (forall v :: minVersion <= v < r.value.version ==> !Fits(segs, capacity, v, ecl))
      && (if boostEcl then IsBoosted(segs, capacity, r.value.version, ecl, r.value.ecl) else r.value.ecl == ecl)
      && SumOfBits(segs, r.value.version) <= 8 * capacity(r.value.version, r.value.ecl)
      && r.value.bits == DataBits(segs, r.value.version, capacity(r.value.version, r.value.ecl))
  {
    if !(MIN_VERSION <= minVersion <= maxVersion <= MAX_VERSION) || mask < -1 || mask > 7 {
      return Err("Invalid value");
    }

    var found := FindVersion(segs, capacity, ecl, minVersion, maxVersion);
    if found.None? {
      return Err("Data too long");
    }
    var version := found.value;
    var level := Boost(segs, capacity, version, ecl, boostEcl);
    var bits := WriteSegments(segs, version, capacity(version, level));
    return Ok(Encoded(version, level, bits));
  }

  /** The least version in the range that holds the segments. */
  method FindVersion(segs: seq<Segment>, capacity: Capacity, ecl: Ecc, minVersion: nat, maxVersion: nat)
    returns (r: Option<nat>)
    requires 1 <= minVersion <= maxVersion <= 40
    ensures r.None? ==> forall v :: minVersion <= v <= maxVersion ==> !Fits(segs, capacity, v, ecl)
    ensures r.Some? ==> minVersion <= r.value <= maxVersion && Fits(segs, capacity, r.value, ecl)
    ensures r.Some? ==> forall v :: minVersion <= v < r.value ==> !Fits(segs, capacity, v, ecl)
  {
    var version := minVersion;
    while true
      invariant minVersion <= version <= maxVersion
      invariant forall v :: minVersion <= v < version ==> !Fits(segs, capacity, v, ecl)
      decreases maxVersion - version
    {
      var dataCapacityBits := 8 * capacity(version, ecl);
      var dataUsedBits := GetTotalBits(segs, version);
      if dataUsedBits != -1 && dataUsedBits <= dataCapacityBits {
        return Some(version);
      }
      if version >= maxVersion {
        return None;
      }
      version := version + 1;
    }
  }

  /** Raises the error correction level as far as the data still fits the version. */
  method Boost(segs: seq<Segment>, capacity: Capacity, version: nat, ecl: Ecc, boostEcl: bool) returns (level: Ecc)
    requires 1 <= version <= 40 && Fits(segs, capacity, version, ecl)
    ensures if boostEcl then IsBoosted(segs, capacity, version, ecl, level) else level == ecl
    ensures Fits(segs, capacity, version, level)
  {
    level := ecl;
    var dataUsedBits := TotalBits(segs, version);
    if boostEcl && dataUsedBits <= 8 * capacity(version, Medium) { level := Medium; }
    if boostEcl && dataUsedBits <= 8 * capacity(version, Quartile) { level := Quartile; }
    if boostEcl && dataUsedBits <= 8 * capacity(version, High) { level := High; }
  }

  /** Writes the bit string; no field is ever too wide or out of range. */
  method WriteSegments(segs: seq<Segment>, version: nat, capacity: nat) returns (bits: seq<bool>)
    requires 1 <= version <= 40 && CountsFit(segs, version) && SumOfBits(segs, version) <= 8 * capacity
    ensures bits == DataBits(segs, version, capacity)
  {
    var bb := new BitBuffer();
    for n := 0 to |segs|
      invariant bb.bits == AllHeaders(segs[..n], version)
    {
      assert segs[..n + 1][..n] == segs[..n];
      WriteHeader(bb, segs[n], version);
      bb.bits := bb.bits + segs[n].data;
    }
    assert segs[..|segs|] == segs;
    assert |bb.bits| == SumOfBits(segs, version);
    WritePadding(bb, capacity);
    bits := bb.bits;
  }

  method WriteHeader(bb: BitBuffer, seg: Segment, version: nat)
    requires 1 <= version <= 40 && seg.numChars < Two(seg.mode.CountBits(version))
    modifies bb
    ensures bb.bits + seg.data == old(bb.bits) + Header(seg, version)
  {
    assert Two(4) == 16;
    var appended := bb.AppendBits(seg.mode.Indicator(), 4);
    assert appended.Ok?;
    appended := bb.AppendBits(seg.numChars, seg.mode.CountBits(version));
    assert appended.Ok?;
    HeaderJoins(old(bb.bits), seg, version);
  }

  lemma HeaderJoins(start: seq<bool>, seg: Segment, version: nat)
    requires 1 <= version <= 40
    ensures start + NumBits(seg.mode.Indicator(), 4) + NumBits(seg.numChars, seg.mode.CountBits(version)) + seg.data
         == start + Header(seg, version)
  {
    var a, b := NumBits(seg.mode.Indicator(), 4), NumBits(seg.numChars, seg.mode.CountBits(version));
    Associate(start, a, b);
    Associate(start, a + b, seg.data);
  }

  method WritePadding(bb: BitBuffer, capacity: nat)
    requires |bb.bits| <= 8 * capacity
    modifies bb
    ensures bb.bits == old(bb.bits) + Padding(|old(bb.bits)|, capacity)
  {
    ghost var start := bb.bits;
    WriteTerminator(bb, capacity);
    ghost var zeros, count := Repeated(false, ZerosAfter(|start|, capacity)), (8 * capacity - |bb.bits|) / 8;
    PadWithBytes(bb, count, capacity);
    Associate(start, zeros, PadBytes(count));
  }

  method WriteTerminator(bb: BitBuffer, capacity: nat)
    requires |bb.bits| <= 8 * capacity
    modifies bb
    ensures bb.bits == old(bb.bits) + Repeated(false, ZerosAfter(|old(bb.bits)|, capacity))
  {
    var t := Least(4, 8 * capacity - |bb.bits|);
    var appended := bb.AppendBits(0, t);
    assert appended.Ok?;
    ZeroField(t);
    var a := (8 - |bb.bits| % 8) % 8;
    appended := bb.AppendBits(0, a);
    assert appended.Ok?;
    ZeroField(a);
    assert Repeated(false, t) + Repeated(false, a) == Repeated(false, t + a);
  }

  /** Appends the two pad bytes in turn until the capacity is reached. */
  method PadWithBytes(bb: BitBuffer, ghost count: nat, capacity: nat)
    requires |bb.bits| + 8 * count == 8 * capacity
    modifies bb
    ensures bb.bits == old(bb.bits) + PadBytes(count)
  {
    var padByte := 0xEC;
    ghost var n := 0;
    while |bb.bits| < 8 * capacity
      invariant n <= count && |bb.bits| + 8 * (count - n) == 8 * capacity
      invariant padByte == PadByte(n)
      invariant bb.bits == old(bb.bits) + PadBytes(n)
      decreases count - n
    {
      PadsAlternate(n);
      var appended := bb.AppendBits(padByte, 8);
      PadsAppend(old(bb.bits), n);
      padByte := if padByte == 0xEC then 0x11 else 0xEC;  // exclusive or with 0xEC ^ 0x11
      n := n + 1;
    }
  }

  lemma PadsAlternate(n: nat)
    ensures PadByte(n) < Two(8)
    ensures PadByte(n + 1) == if PadByte(n) == 0xEC then 0x11 else 0xEC
  {
    assert Two(8) == 256;
  }

  lemma PadsAppend(start: seq<bool>, n: nat)
    ensures start + PadBytes(n) + NumBits(PadByte(n), 8) == start + PadBytes(n + 1)
  {
    Associate(start, PadBytes(n), NumBits(PadByte(n), 8));
  }

  lemma {:induction false} ZeroField(n: nat)
    ensures NumBits(0, n) == Repeated(false, n) && 0 < Two(n)
  {
    if n > 0 { ZeroField(n - 1); }
  }
}

/** How a reader recovers the contents of the segments from the data codewords. */
module SegmentReading {
  import opened Results
  import opened Gf256
  import opened BitStrings
  import opened BitNumbers
  import opened Packing
  import opened Sequences
  import opened Segments
  import opened Encoding

  datatype Content = Digits(text: string) | Text(text: string) | Bytes(data: seq<nat>) | Designator(value: nat) {
    ghost predicate WellFormed() {
      match this
      case Digits(text) => IsNumeric(text)
      case Text(text) => IsAlphanumeric(text)
      case Bytes(data) => AreBytes(data)
      case Designator(value) => value < 1000000
    }

    /** The segment that the encoder makes of the content. */
    function Segment(): Segment
      requires WellFormed()
    {
      match this
      case Digits(text) => Segments.Segment.Segment(Numeric, |text|, PackedBits(DIGITS, DigitValues(text)))
      case Text(text) => Segments.Segment.Segment(Alphanumeric, |text|, PackedBits(PAIRS, CharsetValues(text)))
      case Bytes(data) => Segments.Segment.Segment(Mode.Byte, |data|, ByteBits(data))
      case Designator(value) => Segments.Segment.Segment(Eci, 0, EciBits(value))
    }
  }

  // ----- The reader -----

  function DigitChars(vals: seq<nat>): string {
    seq(|vals|, i requires 0 <= i < |vals| => if vals[i] < 10 then '0' + vals[i] as char else '?')
  }

  function CharsetChars(vals: seq<nat>): string {
    seq(|vals|, i requires 0 <= i < |vals| => if vals[i] < 45 then ALPHABET[vals[i]] else '?')
  }

  const ALPHABET := "0123456789ABCDEFGHIJKLMNOPQRSTUVWXYZ $%*+-./:"

  /** The number of bits for a character count, in versions up to 9, up to 26, and above. */
  function CountField(version: nat, small: nat, middle: nat, large: nat): nat {
    if version <= 9 then small else if version <= 26 then middle else large
  }

  datatype Read = Read(content: Content, rest: seq<bool>) | Stop

  function ReadBytes(bits: seq<bool>, n: nat): (u: Unpacked)
    ensures |u.rest| <= |bits|
    decreases n
  {
    if n == 0 || |bits| < 8 then Unpacked([], bits)
    else var others := ReadBytes(bits[8..], n - 1); Unpacked([Value(bits[..8])] + others.vals, others.rest)
  }

  function ReadEci(bits: seq<bool>): (r: Read)
    ensures r.Read? ==> |r.rest| <= |bits|
  {
    if |bits| >= 8 && !bits[0] then Read(Designator(Value(bits[..8])), bits[8..])
    else if |bits| >= 16 && bits[0] && !bits[1] then Read(Designator(Value(bits[2..16])), bits[16..])
    else if |bits| >= 24 && bits[0] && bits[1] then Read(Designator(Value(bits[3..24])), bits[24..])
    else Stop
  }

  /** The readers of the modes with a character count of w bits. */
  function ReadDigits(body: seq<bool>, w: nat): (r: Read)
    ensures r.Read? ==> |r.rest| <= |body|
  {
    if |body| < w then Stop
    else
      var u := Unpack(Packing(10, [0, 4, 7, 10]), body[w..], Value(body[..w]));
      Read(Digits(DigitChars(u.vals)), u.rest)
  }

  function ReadText(body: seq<bool>, w: nat): (r: Read)
    ensures r.Read? ==> |r.rest| <= |body|
  {
    if |body| < w then Stop
    else
      var u := Unpack(Packing(45, [0, 6, 11]), body[w..], Value(body[..w]));
      Read(Text(CharsetChars(u.vals)), u.rest)
  }

  function ReadByteData(body: seq<bool>, w: nat): (r: Read)
    ensures r.Read? ==> |r.rest| <= |body|
  {
    if |body| < w then Stop
    else var u := ReadBytes(body[w..], Value(body[..w])); Read(Bytes(u.vals), u.rest)
  }

  /** Reads what follows the mode indicator of the standard; the terminator and unknown modes end the data. */
  function ReadBody(mode: nat, body: seq<bool>, version: nat): (r: Read)
    requires 1 <= version <= 40
    ensures r.Read? ==> |r.rest| <= |body|
  {
    if mode == 7 then ReadEci(body)
    else if mode == 1 then ReadDigits(body, CountField(version, 10, 12, 14))
    else if mode == 2 then ReadText(body, CountField(version, 9, 11, 13))
    else if mode == 4 then ReadByteData(body, CountField(version, 8, 16, 16))
    else Stop
  }

  /** Reads one segment; too few bits for a mode indicator end the data. */
  function ReadSegment(bits: seq<bool>, version: nat): (r: Read)
    requires 1 <= version <= 40
    ensures r.Read? ==> |r.rest| < |bits|
  {
    if |bits| < 4 then Stop else ReadBody(Value(bits[..4]), bits[4..], version)
  }

  function ReadAll(bits: seq<bool>, version: nat): seq<Content>
    requires 1 <= version <= 40
    decreases |bits|
  {
    var r := ReadSegment(bits, version);
    if r.Stop? then [] else [r.content] + ReadAll(r.rest, version)
  }

  // ----- It finds what was written -----

  lemma {:induction false} BytesReadBack(data: seq<nat>, rest: seq<bool>)
    requires AreBytes(data)
    ensures ReadBytes(ByteBits(data) + rest, |data|) == Unpacked(data, rest)
  {
    if data == [] {
      assert [] + rest == rest;
    } else {
      FirstByteBits(data);
      var more := ByteBits(data[1..]) + rest;
      Associate(NumBits(data[0], 8), ByteBits(data[1..]), rest);
      BytesReadBack(data[1..], rest);
      ReadOneByte(data[0], more, |data|);
      assert [data[0]] + data[1..] == data;
    }
  }

  lemma ReadOneByte(b: nat, more: seq<bool>, n: nat)
    requires b < 256 && n > 0
    ensures var others := ReadBytes(more, n - 1);
      ReadBytes(NumBits(b, 8) + more, n) == Unpacked([b] + others.vals, others.rest)
  {
    var field := NumBits(b, 8);
    EciLimits();
    FieldCanBeRead(b, 8);
    assert (field + more)[..8] == field && (field + more)[8..] == more;
  }

  lemma {:induction false} FirstByteBits(data: seq<nat>)
    requires data != []
    ensures ByteBits(data) == NumBits(data[0], 8) + ByteBits(data[1..])
  {
    if |data| == 1 {
      assert data[..0] == [];
      assert data[1..] == [];
    } else {
      var init := data[..|data| - 1];
      FirstByteBits(init);
      assert init[1..] == data[1..][..|data| - 2];
      Associate(NumBits(data[0], 8), ByteBits(init[1..]), NumBits(data[|data| - 1], 8));
    }
  }

  lemma DigitCharsBack(text: string)
    requires IsNumeric(text)
    ensures DigitChars(DigitValues(text)) == text
  {
    forall i | 0 <= i < |text| ensures DigitChars(DigitValues(text))[i] == text[i] {
      assert IsDigit(text[i]);
    }
  }

  lemma CharsetCharsBack(text: string)
    requires IsAlphanumeric(text)
    ensures CharsetChars(CharsetValues(text)) == text
  {}

  /** A field in front of more bits. */
  lemma FieldInFront(v: nat, n: nat, more: seq<bool>)
    requires v < Two(n)
    ensures var bits := NumBits(v, n) + more; Value(bits[..n]) == v && bits[n..] == more
  {
    FieldCanBeRead(v, n);
    assert (NumBits(v, n) + more)[..n] == NumBits(v, n);
  }

  /** The mode, the count and the payload of a header. */
  lemma HeaderFields(seg: Segment, version: nat, more: seq<bool>)
    requires 1 <= version <= 40 && seg.numChars < Two(seg.mode.CountBits(version))
    ensures var bits := Header(seg, version) + more;
      && |bits| >= 4 && Value(bits[..4]) == seg.mode.Indicator()
      && bits[4..] == NumBits(seg.numChars, seg.mode.CountBits(version)) + (seg.data + more)
  {
    var mode, count := NumBits(seg.mode.Indicator(), 4), NumBits(seg.numChars, seg.mode.CountBits(version));
    assert Two(4) == 16;
    assert Header(seg, version) + more == mode + (count + (seg.data + more));
    FieldInFront(seg.mode.Indicator(), 4, count + (seg.data + more));
  }

  lemma EciReadBack(v: nat, more: seq<bool>)
    requires v < 1000000
    ensures ReadEci(EciBits(v) + more) == Read(Designator(v), more)
  {
    EciLimits();
    if v < Two(7) {
      FieldInFront(v, 8, more);
      NumBitsAt(v, 8, 0);
      ShiftedOut(v, 7);
    } else if v < Two(14) {
      NumBitsAt(2, 2, 0);
      NumBitsAt(2, 2, 1);
      PrefixedField(NumBits(2, 2), v, 14, more);
    } else {
      NumBitsAt(6, 3, 0);
      NumBitsAt(6, 3, 1);
      PrefixedField(NumBits(6, 3), v, 21, more);
    }
  }

  lemma PrefixedField(prefix: seq<bool>, v: nat, n: nat, more: seq<bool>)
    requires v < Two(n)
    ensures var bits, k := prefix + NumBits(v, n) + more, |prefix|;
      |bits| >= k + n && (forall i :: 0 <= i < k ==> bits[i] == prefix[i]) && Value(bits[k..k + n]) == v
        && bits[k + n..] == more
  {
    var bits, k := prefix + NumBits(v, n) + more, |prefix|;
    FieldCanBeRead(v, n);
    assert bits[k..k + n] == NumBits(v, n);
  }

  lemma DigitsReadBack(text: string, w: nat, more: seq<bool>)
    requires IsNumeric(text) && |text| < Two(w)
    ensures ReadDigits(NumBits(|text|, w) + (PackedBits(DIGITS, DigitValues(text)) + more), w)
      == Read(Digits(text), more)
  {
    FieldInFront(|text|, w, PackedBits(DIGITS, DigitValues(text)) + more);
    PackingsAreValid();
    PackedCanBeRead(DIGITS, DigitValues(text), more);
    DigitCharsBack(text);
  }

  lemma TextReadBack(text: string, w: nat, more: seq<bool>)
    requires IsAlphanumeric(text) && |text| < Two(w)
    ensures ReadText(NumBits(|text|, w) + (PackedBits(PAIRS, CharsetValues(text)) + more), w) == Read(Text(text), more)
  {
    FieldInFront(|text|, w, PackedBits(PAIRS, CharsetValues(text)) + more);
    PackingsAreValid();
    PackedCanBeRead(PAIRS, CharsetValues(text), more);
    CharsetCharsBack(text);
  }

  lemma ByteDataReadBack(data: seq<nat>, w: nat, more: seq<bool>)
    requires AreBytes(data) && |data| < Two(w)
    ensures ReadByteData(NumBits(|data|, w) + (ByteBits(data) + more), w) == Read(Bytes(data), more)
  {
    FieldInFront(|data|, w, ByteBits(data) + more);
    BytesReadBack(data, more);
  }

  /** What the reader must do with a segment: find the content c behind the mode indicator. */
  ghost predicate ReadsBack(seg: Segment, c: Content, version: nat, more: seq<bool>)
    requires 1 <= version <= 40
  {
    ReadBody(seg.mode.Indicator(), NumBits(seg.numChars, seg.mode.CountBits(version)) + (seg.data + more), version)
    == Read(c, more)
  }

  /** The widths of the standard are those of the encoder. */
  lemma CountFields(version: nat)
    requires 1 <= version <= 40
    ensures CountField(version, 10, 12, 14) == Numeric.CountBits(version)
    ensures CountField(version, 9, 11, 13) == Alphanumeric.CountBits(version)
    ensures CountField(version, 8, 16, 16) == Mode.Byte.CountBits(version)
  {}

  lemma ReadsBody(body: seq<bool>, version: nat)
    requires 1 <= version <= 40
    ensures ReadBody(Numeric.Indicator(), body, version) == ReadDigits(body, Numeric.CountBits(version))
    ensures ReadBody(Alphanumeric.Indicator(), body, version) == ReadText(body, Alphanumeric.CountBits(version))
    ensures ReadBody(Mode.Byte.Indicator(), body, version) == ReadByteData(body, Mode.Byte.CountBits(version))
  {
    CountFields(version);
  }

  lemma DesignatorReadBack(v: nat, version: nat, more: seq<bool>)
    requires 1 <= version <= 40 && v < 1000000
    ensures ReadsBack(Segments.Segment.Segment(Eci, 0, EciBits(v)), Designator(v), version, more)
  {
    var bits := EciBits(v) + more;
    assert NumBits(0, Eci.CountBits(version)) + bits == bits;
    assert ReadBody(Eci.Indicator(), bits, version) == ReadEci(bits);
    EciReadBack(v, more);
  }

  lemma DigitSegmentReadBack(text: string, version: nat, more: seq<bool>)
    requires 1 <= version <= 40 && IsNumeric(text) && |text| < Two(Numeric.CountBits(version))
    ensures ReadsBack(Digits(text).Segment(), Digits(text), version, more)
  {
    DigitsReadBack(text, Numeric.CountBits(version), more);
    ReadsBody(NumBits(|text|, Numeric.CountBits(version)) + (Digits(text).Segment().data + more), version);
  }

  lemma TextSegmentReadBack(text: string, version: nat, more: seq<bool>)
    requires 1 <= version <= 40 && IsAlphanumeric(text) && |text| < Two(Alphanumeric.CountBits(version))
    ensures ReadsBack(Text(text).Segment(), Text(text), version, more)
  {
    TextReadBack(text, Alphanumeric.CountBits(version), more);
    ReadsBody(NumBits(|text|, Alphanumeric.CountBits(version)) + (Text(text).Segment().data + more), version);
  }

  lemma ByteSegmentReadBack(data: seq<nat>, version: nat, more: seq<bool>)
    requires 1 <= version <= 40 && AreBytes(data) && |data| < Two(Mode.Byte.CountBits(version))
    ensures ReadsBack(Bytes(data).Segment(), Bytes(data), version, more)
  {
    ByteDataReadBack(data, Mode.Byte.CountBits(version), more);
    ReadsBody(NumBits(|data|, Mode.Byte.CountBits(version)) + (ByteBits(data) + more), version);
  }

  lemma BodyReadBack(c: Content, version: nat, more: seq<bool>)
    requires 1 <= version <= 40 && c.WellFormed() && c.Segment().numChars < Two(c.Segment().mode.CountBits(version))
    ensures ReadsBack(c.Segment(), c, version, more)
  {
    match c
    case Digits(text) => DigitSegmentReadBack(text, version, more);
    case Text(text) => TextSegmentReadBack(text, version, more);
    case Bytes(data) => ByteSegmentReadBack(data, version, more);
    case Designator(value) => DesignatorReadBack(value, version, more);
  }

  /** Reading a header with its payload finds the content and stops at the next segment. */
  lemma SegmentReadBack(c: Content, version: nat, more: seq<bool>)
    requires 1 <= version <= 40 && c.WellFormed() && c.Segment().numChars < Two(c.Segment().mode.CountBits(version))
    ensures ReadSegment(Header(c.Segment(), version) + more, version) == Read(c, more)
  {
    HeaderFields(c.Segment(), version, more);
    BodyReadBack(c, version, more);
  }

  ghost predicate AllWellFormed(cs: seq<Content>) {
    forall i :: 0 <= i < |cs| ==> cs[i].WellFormed()
  }

  function SegmentsOf(cs: seq<Content>): (segs: seq<Segment>)
    requires AllWellFormed(cs)
    ensures |segs| == |cs|
  {
    seq(|cs|, i requires 0 <= i < |cs| => cs[i].Segment())
  }

  lemma {:induction false} FirstHeader(segs: seq<Segment>, version: nat)
    requires 1 <= version <= 40 && segs != []
    ensures AllHeaders(segs, version) == Header(segs[0], version) + AllHeaders(segs[1..], version)
  {
    if |segs| == 1 {
      assert segs[..0] == [] && segs[1..] == [];
    } else {
      var init, last := segs[..|segs| - 1], segs[|segs| - 1];
      FirstHeader(init, version);
      assert init[1..] == segs[1..][..|segs| - 2];
      Associate(Header(segs[0], version), AllHeaders(init[1..], version), Header(last, version));
    }
  }

  lemma ReadsFirst(c: Content, bits: seq<bool>, rest: seq<bool>, version: nat)
    requires 1 <= version <= 40 && ReadSegment(bits, version) == Read(c, rest)
    ensures ReadAll(bits, version) == [c] + ReadAll(rest, version)
  {}

  lemma OtherSegments(cs: seq<Content>, version: nat)
    requires 1 <= version <= 40 && AllWellFormed(cs) && CountsFit(SegmentsOf(cs), version) && cs != []
    ensures AllWellFormed(cs[1..]) && SegmentsOf(cs[1..]) == SegmentsOf(cs)[1..]
      && CountsFit(SegmentsOf(cs[1..]), version)
    ensures cs[0].WellFormed() && SegmentsOf(cs)[0] == cs[0].Segment()
    ensures cs[0].Segment().numChars < Two(cs[0].Segment().mode.CountBits(version))
  {
    var segs, others := SegmentsOf(cs), SegmentsOf(cs[1..]);
    assert forall i :: 0 <= i < |others| ==> others[i] == segs[i + 1];
  }

  lemma {:induction false} AllReadBack(cs: seq<Content>, version: nat, more: seq<bool>)
    requires 1 <= version <= 40 && AllWellFormed(cs) && CountsFit(SegmentsOf(cs), version)
    requires ReadSegment(more, version).Stop?
    ensures ReadAll(AllHeaders(SegmentsOf(cs), version) + more, version) == cs
  {
    var segs := SegmentsOf(cs);
    if cs == [] {
      assert [] + more == more;
    } else {
      OtherSegments(cs, version);
      AllReadBack(cs[1..], version, more);
      var rest := AllHeaders(segs[1..], version) + more;
      SegmentReadBack(cs[0], version, rest);
      ReadsFirst(cs[0], Header(segs[0], version) + rest, rest, version);
      FirstHeader(segs, version);
      Associate(Header(segs[0], version), AllHeaders(segs[1..], version), more);
      FirstAndOthers(cs);
    }
  }

  lemma PaddingStops(used: nat, capacity: nat, version: nat)
    requires 1 <= version <= 40 && used <= 8 * capacity
    ensures ReadSegment(Padding(used, capacity), version).Stop?
  {
    var pad := Padding(used, capacity);
    if |pad| >= 4 {
      assert pad[..4] == Repeated(false, 4);
      assert Value(Repeated(false, 4)) == 0 by {
        assert Repeated(false, 4)[..3] == Repeated(false, 3) && Repeated(false, 3)[..2] == Repeated(false, 2)
          && Repeated(false, 2)[..1] == Repeated(false, 1) && Repeated(false, 1)[..0] == [];
      }
    }
  }

  /** Whatever version and level were chosen, the reader finds the contents, in order, and nothing else. */
  lemma ContentsCanBeRead(cs: seq<Content>, version: nat, capacity: nat)
    requires 1 <= version <= 40 && AllWellFormed(cs) && CountsFit(SegmentsOf(cs), version)
    requires SumOfBits(SegmentsOf(cs), version) <= 8 * capacity
    ensures ReadAll(DataBits(SegmentsOf(cs), version, capacity), version) == cs
  {
    PaddingStops(SumOfBits(SegmentsOf(cs), version), capacity, version);
    AllReadBack(cs, version, Padding(SumOfBits(SegmentsOf(cs), version), capacity));
  }
}

/** From a text to the data codewords of a symbol, and back from the finished symbol to the text. */
module TextToSymbol {
  import opened Results
  import opened Gf256
  import opened Sequences
  import opened Packing
  import opened BitNumbers
  import opened BitStrings
  import opened Segments
  import opened Encoding
  import opened SegmentReading
  import opened Placement
  import opened Masking
  import opened Interleaving
  import opened ErrorCorrection
  import opened QrReading
  import opened FormatWords
  import opened QrSymbol
  import opened QrConstruction

  /** The characters of a text are bytes. */
  ghost predicate IsByteText(text: string) {
    forall i :: 0 <= i < |text| ==> text[i] as int < 256
  }

  function Codes(text: string): seq<nat> {
    seq(|text|, i requires 0 <= i < |text| => text[i] as nat)
  }

  /** The one segment of the cheapest kind; none for the empty text. */
  function ContentsOf(text: string): (cs: seq<Content>)
    requires IsByteText(text)
    ensures AllWellFormed(cs)
  {
    if text == [] then []
    else if IsNumeric(text) then [Digits(text)]
    else if IsAlphanumeric(text) then [Text(text)]
    else [Bytes(Codes(text))]
  }

  function Characters(cs: seq<Content>): string {
    if cs == [] then []
    else
      (match cs[0]
       case Digits(text) => text
       case Text(text) => text
       case Bytes(data) => seq(|data|, i requires 0 <= i < |data| => if data[i] < 256 then data[i] as char else '?')
       case Designator(_) => []) + Characters(cs[1..])
  }

  lemma TextOfContents(text: string)
    requires IsByteText(text)
    ensures Characters(ContentsOf(text)) == text
  {}

  method MakeSegments(text: string) returns (r: Result<seq<Segment>>)
    requires IsByteText(text)
    ensures r.Ok? ==> r.value == SegmentsOf(ContentsOf(text))
    ensures r.Err? <==> |text| > INT_MAX && !IsNumeric(text) && !IsAlphanumeric(text)
  {
    if text == [] {
      return Ok([]);
    }
    if IsNumeric(text) {
      var seg := MakeNumeric(text);
      return Ok([seg.value]);
    }
    if IsAlphanumeric(text) {
      var seg := MakeAlphanumeric(text);
      return Ok([seg.value]);
    }
    var bytes: seq<nat> := [];
    for n := 0 to |text|
      invariant bytes == Codes(text[..n])
    {
      bytes := bytes + [text[n] as nat];
    }
    assert text[..|text|] == text;
    var seg := MakeBytes(bytes);
    if seg.Err? {
      return Err(seg.error);
    }
    return Ok([seg.value]);
  }

  // ----- The choice of the mode -----

  lemma {:induction false} DigitBits(vals: seq<nat>)
    ensures |PackedBits(DIGITS, vals)| == 10 * (|vals| / 3) + [0, 4, 7][|vals| % 3]
  {
    if |vals| > 3 { DigitBits(vals[3..]); }
  }

  lemma {:induction false} PairBits(vals: seq<nat>)
    ensures |PackedBits(PAIRS, vals)| == 11 * (|vals| / 2) + 6 * (|vals| % 2)
  {
    if |vals| > 2 { PairBits(vals[2..]); }
  }

  /** The ways to write a text in one segment. */
  ghost predicate Writes(c: Content, text: string)
    requires IsByteText(text)
  {
    c.WellFormed() && (c == Digits(text) || c == Text(text) || c == Bytes(Codes(text)))
  }

  /** No other segment of the text is shorter, in any version. */
  lemma ShortestSegment(text: string, c: Content, version: nat)
    requires IsByteText(text) && text != [] && Writes(c, text) && 1 <= version <= 40
    ensures SumOfBits(SegmentsOf(ContentsOf(text)), version) <= SumOfBits(SegmentsOf([c]), version)
  {
    OneSegment(c, version);
    var best := ContentsOf(text)[0];
    assert ContentsOf(text) == [best];
    OneSegment(best, version);
    ShorterContent(text, best, c, version);
  }

  function DigitCost(n: nat, version: nat): nat
    requires 1 <= version <= 40
  {
    Numeric.CountBits(version) + 10 * (n / 3) + [0, 4, 7][n % 3]
  }

  function PairCost(n: nat, version: nat): nat
    requires 1 <= version <= 40
  {
    Alphanumeric.CountBits(version) + 11 * (n / 2) + 6 * (n % 2)
  }

  lemma DigitsAreShorter(n: nat, version: nat)
    requires n > 0 && 1 <= version <= 40
    ensures DigitCost(n, version) <= PairCost(n, version)
  {
    var k, r := n / 6, n % 6;
    assert n / 3 == 2 * k + r / 3 && n % 3 == r % 3;
    assert n / 2 == 3 * k + r / 2 && n % 2 == r % 2;
  }

  lemma PairsAreShorter(n: nat, version: nat)
    requires n > 0 && 1 <= version <= 40
    ensures PairCost(n, version) <= Mode.Byte.CountBits(version) + 8 * n
  {
    assert n == 2 * (n / 2) + n % 2;
  }

  function Cost(c: Content, version: nat): nat
    requires c.WellFormed() && 1 <= version <= 40
  {
    c.Segment().mode.CountBits(version) + |c.Segment().data|
  }

  lemma DigitsCost(text: string, version: nat)
    requires IsNumeric(text) && 1 <= version <= 40
    ensures Cost(Digits(text), version) == DigitCost(|text|, version)
  {
    DigitBits(DigitValues(text));
  }

  lemma TextCost(text: string, version: nat)
    requires IsAlphanumeric(text) && 1 <= version <= 40
    ensures Cost(Text(text), version) == PairCost(|text|, version)
  {
    PairBits(CharsetValues(text));
  }

  lemma BytesCost(text: string, version: nat)
    requires IsByteText(text) && 1 <= version <= 40
    ensures Bytes(Codes(text)).WellFormed()
    ensures Cost(Bytes(Codes(text)), version) == Mode.Byte.CountBits(version) + 8 * |text|
  {}

  lemma ShorterContent(text: string, best: Content, c: Content, version: nat)
    requires IsByteText(text) && text != [] && Writes(c, text) && 1 <= version <= 40 && ContentsOf(text) == [best]
    ensures Cost(best, version) <= Cost(c, version)
  {
    BytesCost(text, version);
    DigitsAreShorter(|text|, version);
    PairsAreShorter(|text|, version);
    if IsNumeric(text) { DigitsCost(text, version); }
    if IsAlphanumeric(text) { TextCost(text, version); }
    assert c == Digits(text) || c == Text(text) || c == Bytes(Codes(text));
  }

  lemma OneSegment(c: Content, version: nat)
    requires c.WellFormed() && 1 <= version <= 40
    ensures SumOfBits(SegmentsOf([c]), version) == 4 + Cost(c, version)
  {
    assert SegmentsOf([c])[..0] == [];
  }

  // ----- From the text to the symbol -----

  /** The text fits a version at a level. */
  ghost predicate TextFits(text: string, t: Tables, version: nat, ecl: Ecc)
    requires IsByteText(text) && 1 <= version <= 40
  {
    Fits(SegmentsOf(ContentsOf(text)), Capacities(t), version, ecl)
  }

  /** The data codewords of a text. */
  ghost function DataOf(text: string, t: Tables, version: nat, ecl: Ecc): (data: seq<Byte>)
    requires IsByteText(text) && 1 <= version <= 40 && TextFits(text, t, version, ecl)
    ensures |data| == NumData(t.layout(version, ecl))
  {
    FromBits(DataBits(SegmentsOf(ContentsOf(text)), version, NumData(t.layout(version, ecl))))
  }

  /** The segments of a text that is too long to be a segment fit nowhere. */
  lemma TooLong(text: string, t: Tables, version: nat, ecl: Ecc)
    requires IsByteText(text) && 1 <= version <= 40 && |text| > INT_MAX && !IsNumeric(text) && !IsAlphanumeric(text)
    ensures !TextFits(text, t, version, ecl)
  {
    OneSegment(ContentsOf(text)[0], version);
  }

  /** The symbol is one of the text, of the least version that holds it, with the best mask. */
  ghost predicate IsSymbolOf(q: QrCode, text: string, t: Tables, ecl: Ecc, penaltyScore: Grid -> int, version: nat,
      level: Ecc)
    requires IsByteText(text) && AllFit(t)
    reads q
  {
    && 1 <= version <= 40 && q.size == Size(version) && q.level == LevelBits(level) && 0 <= q.mask < 8
    && (forall v :: 1 <= v < version ==> !TextFits(text, t, v, ecl))
    && IsBoosted(SegmentsOf(ContentsOf(text)), Capacities(t), version, ecl, level)
    && TextFits(text, t, version, ecl) && TextFits(text, t, version, level) && Fit(t, version, level)
    && var data := DataOf(text, t, version, level);
       && q.modules == Symbol(t, version, level, data, q.mask)
       && IsChoice(-1, DrawnData(t, version, level, data), t.functions(version), q.size, FormatOf(LevelBits(level)),
                   penaltyScore, q.mask)
  }

  method EncodeText(text: string, t: Tables, ecl: Ecc, penaltyScore: Grid -> int) returns (r: Result<QrCode>)
    requires IsByteText(text) && AllFit(t) && forall g :: 0 <= penaltyScore(g) <= MAX_PENALTY
    ensures r.Ok? <==> exists v :: 1 <= v <= 40 && TextFits(text, t, v, ecl)
    ensures r.Ok? ==> fresh(r.value) && exists version, level ::
      IsSymbolOf(r.value, text, t, ecl, penaltyScore, version, level)
    ensures r.Ok? ==> ReadText(t, r.value.modules) == text
  {
    var segs := MakeSegments(text);
    if segs.Err? {
      forall v | 1 <= v <= 40 ensures !TextFits(text, t, v, ecl) { TooLong(text, t, v, ecl); }
      return Err(segs.error);
    }
    var encoded := EncodeSegments(segs.value, Capacities(t), ecl, 1, 40, -1, true);
    if encoded.Err? {
      return Err(encoded.error);
    }
    r := SymbolFor(text, t, ecl, encoded.value, penaltyScore);
  }

  lemma WholeBytes(bits: seq<bool>, n: nat)
    requires |bits| == 8 * n
    ensures |bits| % 8 == 0
  {}

  method SymbolFor(text: string, t: Tables, ghost ecl: Ecc, encoded: Encoded, penaltyScore: Grid -> int)
    returns (r: Result<QrCode>)
    requires IsByteText(text) && AllFit(t) && forall g :: 0 <= penaltyScore(g) <= MAX_PENALTY
    requires 1 <= encoded.version <= 40 && TextFits(text, t, encoded.version, ecl)
      && TextFits(text, t, encoded.version, encoded.ecl)
    requires forall v :: 1 <= v < encoded.version ==> !TextFits(text, t, v, ecl)
    requires IsBoosted(SegmentsOf(ContentsOf(text)), Capacities(t), encoded.version, ecl, encoded.ecl)
    requires encoded.bits == DataBits(SegmentsOf(ContentsOf(text)), encoded.version,
      NumData(t.layout(encoded.version, encoded.ecl)))
    ensures r.Ok? && fresh(r.value) && exists version, level ::
      IsSymbolOf(r.value, text, t, ecl, penaltyScore, version, level)
    ensures ReadText(t, r.value.modules) == text
  {
    ghost var version, level := encoded.version, encoded.ecl;
    WholeBytes(encoded.bits, NumData(t.layout(version, level)));
    var codewords := PackBits(encoded.bits);
    assert codewords == DataOf(text, t, version, level);
    assert Fit(t, version, level);
    r := Construct(t, encoded.version, encoded.ecl, codewords, -1, penaltyScore);
    assert IsSymbolOf(r.value, text, t, ecl, penaltyScore, version, level);
    TextCanBeRead(text, t, version, level, r.value.mask);
  }

  /** Reads a finished symbol: format, codewords, blocks, data, segments, characters. */
  ghost function ReadText(t: Tables, g: Grid): string {
    var read := ReadSymbol(t, g);
    if read.None? || read.value.version > 40 then []
    else Characters(ReadAll(ToBits(read.value.data), read.value.version))
  }

  /** A symbol of a text, with whatever version, level and mask, reads as the text. */
  lemma TextCanBeRead(text: string, t: Tables, version: nat, ecl: Ecc, msk: nat)
    requires IsByteText(text) && 1 <= version <= 40 && TextFits(text, t, version, ecl) && Fit(t, version, ecl)
      && msk < 8
    ensures ReadText(t, Symbol(t, version, ecl, DataOf(text, t, version, ecl), msk)) == text
  {
    DataIsText(text, t, version, ecl);
    SymbolIsData(t, version, ecl, DataOf(text, t, version, ecl), msk);
  }

  lemma SymbolIsData(t: Tables, version: nat, ecl: Ecc, data: seq<Byte>, msk: nat)
    requires Fit(t, version, ecl) && 1 <= version <= 40 && |data| == NumData(t.layout(version, ecl)) && msk < 8
    ensures ReadText(t, Symbol(t, version, ecl, data, msk)) == Characters(ReadAll(ToBits(data), version))
  {
    SymbolCanBeRead(t, version, ecl, data, msk);
  }

  /** The data codewords of a text read as the text. */
  lemma DataIsText(text: string, t: Tables, version: nat, ecl: Ecc)
    requires IsByteText(text) && 1 <= version <= 40 && TextFits(text, t, version, ecl)
    ensures Characters(ReadAll(ToBits(DataOf(text, t, version, ecl)), version)) == text
  {
    var capacity, cs := NumData(t.layout(version, ecl)), ContentsOf(text);
    FitsMeans(text, t, version, ecl);
    var bits := DataBits(SegmentsOf(cs), version, capacity);
    WholeBytes(bits, capacity);
    BitsCanBeRead(bits);
    ContentsCanBeRead(cs, version, capacity);
    TextOfContents(text);
  }

  lemma FitsMeans(text: string, t: Tables, version: nat, ecl: Ecc)
    requires IsByteText(text) && 1 <= version <= 40 && TextFits(text, t, version, ecl)
    ensures CountsFit(SegmentsOf(ContentsOf(text)), version)
    ensures SumOfBits(SegmentsOf(ContentsOf(text)), version) <= 8 * NumData(t.layout(version, ecl))
  {}
}

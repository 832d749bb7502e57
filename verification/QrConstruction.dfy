/** The construction of a symbol from its data codewords, and what a reader finds in it. */
module QrConstruction {
  import opened Results
  import opened Gf256
  import opened Placement
  import opened Masking
  import opened FormatWords
  import FormatCode
  import opened QrSymbol
  import opened Interleaving
  import opened ErrorCorrection
  import opened QrReading
  import opened Encoding

  function Size(version: nat): nat {
    4 * version + 17
  }

  /** The level as it stands in the format bits. */
  function LevelBits(ecl: Ecc): (n: nat)
    ensures n < 4
  {
    match ecl
    case Low => 1
    case Medium => 0
    case Quartile => 3
    case High => 2
  }

  function LevelOf(n: nat): Ecc {
    if n == 0 then Medium else if n == 1 then Low else if n == 2 then High else Quartile
  }

  /** The format words of the levels are those that the standard lists for them. */
  lemma LevelsAreListed(ecl: Ecc, msk: nat)
    requires msk < 8
    ensures Packed(FormatData(LevelBits(ecl), msk))
         == FormatCode.LISTED[(match ecl case Medium => 0 case Low => 8 case High => 16 case Quartile => 24) + msk]
  {
    FormatCode.WordsAreListed(LevelBits(ecl), msk);
  }

  // ----- The tables -----

  /** The block layout of each version and level, and the function patterns of each version. */
  datatype Tables = Tables(layout: (nat, Ecc) -> Layout, patterns: nat -> Grid, functions: nat -> Grid)

  /** What the tables have to say of one version and level. */
  ghost predicate Fit(t: Tables, version: nat, ecl: Ecc) {
    && t.layout(version, ecl).Valid() && Square(t.patterns(version), Size(version))
    && FormatReserved(t.functions(version), Size(version))
    && HasRoom(t.functions(version), Size(version), t.layout(version, ecl).rawCodewords)
  }

  ghost predicate AllFit(t: Tables) {
    forall version, ecl :: 1 <= version <= 40 ==> Fit(t, version, ecl)
  }

  /** There are such tables: two codewords fit beside the row and the column of the format modules. */
  lemma TablesExist()
    ensures exists t :: AllFit(t)
  {
    var t := Tables((version: nat, ecl: Ecc) => Layout(1, 1, 2), (version: nat) => Cross(Size(version)),
                    (version: nat) => Cross(Size(version)));
    forall version, ecl | 1 <= version <= 40 ensures Fit(t, version, ecl) {
      CrossFits(Size(version));
    }
    assert AllFit(t);
  }

  lemma CrossFits(size: nat)
    requires size >= 21
    ensures FormatReserved(Cross(size), size) && HasRoom(Cross(size), size, 2)
  {
    forall k | 0 <= k < 31 ensures At(Cross(size), size, FormatCell(size, k)) {}
    PathFromOn(size, Adjusted(size - 1), 0);
    FreeBelow(size, 0);
  }

  function Cross(size: nat): (g: Grid)
    ensures Square(g, size)
    ensures forall c :: Inside(c, size) ==> At(g, size, c) == (c.x == 8 || c.y == 8)
  {
    seq(size, y => seq(size, x => x == 8 || y == 8))
  }

  lemma {:induction false} FreeBelow(size: nat, vert: nat)
    requires size >= 21 && vert <= 8
    ensures On(PathFrom(size, size - 1, vert), size)
    ensures |Free(Cross(size), size, PathFrom(size, size - 1, vert))| >= 2 * (8 - vert)
    decreases 8 - vert
  {
    PathFromOn(size, size - 1, vert);
    if vert < 8 {
      FreeBelow(size, vert + 1);
      var y, rest := RowAt(size, size - 1, vert), PathFrom(size, size - 1, vert + 1);
      TwoFree(Cross(size), size, Cell(size - 1, y), Cell(size - 2, y), rest);
    }
  }

  lemma TwoFree(g: Grid, size: nat, a: Cell, b: Cell, rest: seq<Cell>)
    requires Square(g, size) && On(rest, size) && Inside(a, size) && Inside(b, size)
    requires !At(g, size, a) && !At(g, size, b)
    ensures On([a, b] + rest, size) && |Free(g, size, [a, b] + rest)| == 2 + |Free(g, size, rest)|
  {
    assert ([a, b] + rest)[1..] == [b] + rest && ([b] + rest)[1..] == rest;
  }

  function NumData(l: Layout): nat {
    if l.Valid() then l.rawCodewords - l.eccLen * l.numBlocks else 0
  }

  function Capacities(t: Tables): Capacity {
    (version: nat, ecl: Ecc) => NumData(t.layout(version, ecl))
  }

  /** The grid with the codewords for some data, before it is masked. */
  ghost function DrawnData(t: Tables, version: nat, ecl: Ecc, data: seq<Byte>): (g: Grid)
    requires Fit(t, version, ecl) && |data| == NumData(t.layout(version, ecl))
    ensures Square(g, Size(version))
  {
    PathFromOn(Size(version), Adjusted(Size(version) - 1), 0);
    t.layout(version, ecl).Totals();
    Draw(t.patterns(version), t.functions(version), Size(version), Zigzag(Size(version)),
         BitStrings.ToBits(Codewords(t.layout(version, ecl).Shape(), data)))
  }

  /** The finished symbol for some data and a mask. */
  ghost function Symbol(t: Tables, version: nat, ecl: Ecc, data: seq<Byte>, msk: nat): (g: Grid)
    requires Fit(t, version, ecl) && |data| == NumData(t.layout(version, ecl)) && msk < 8
    ensures Square(g, Size(version))
  {
    Trial(DrawnData(t, version, ecl, data), t.functions(version), Size(version), FormatOf(LevelBits(ecl)), msk)
  }

  // ----- The encoder -----

  /** A symbol of the version, with the mask asked for or the best one. */
  method Construct(t: Tables, version: int, ecl: Ecc, data: seq<Byte>, msk: int, penaltyScore: Grid -> int)
    returns (r: Result<QrCode>)
    requires AllFit(t) && forall g :: 0 <= penaltyScore(g) <= MAX_PENALTY
    ensures r.Ok? <==> 1 <= version <= 40 && -1 <= msk <= 7 && |data| == NumData(t.layout(version, ecl))
    ensures r.Ok? ==>
      var q := r.value;
      && fresh(q) && q.Valid() && q.size == 4 * version + 17 && q.level == LevelBits(ecl) && 0 <= q.mask < 8
      && q.modules == Symbol(t, version, ecl, data, q.mask)
      && IsChoice(msk, DrawnData(t, version, ecl, data), t.functions(version), q.size, FormatOf(LevelBits(ecl)),
                  penaltyScore, q.mask)
  {
    if version < 1 || version > 40 {
      return Err("Version value out of range");
    }
    if msk < -1 || msk > 7 {
      return Err("Mask value out of range");
    }
    var l := t.layout(version, ecl);
    assert Fit(t, version, ecl);
    var allCodewords := AddEccAndInterleave(l, data);
    if allCodewords.Err? {
      return Err(allCodewords.error);
    }
    var q := Complete(t, version, ecl, data, allCodewords.value, msk, penaltyScore);
    return Ok(q);
  }

  method Complete(t: Tables, version: nat, ecl: Ecc, data: seq<Byte>, codewords: seq<Byte>, msk: int,
      penaltyScore: Grid -> int)
    returns (q: QrCode)
    requires Fit(t, version, ecl) && |data| == NumData(t.layout(version, ecl)) && -1 <= msk <= 7
    requires |data| == t.layout(version, ecl).Shape().NumData()
      && codewords == Codewords(t.layout(version, ecl).Shape(), data)
    requires forall g :: 0 <= penaltyScore(g) <= MAX_PENALTY
    ensures fresh(q) && q.Valid() && q.size == Size(version) && q.level == LevelBits(ecl) && 0 <= q.mask < 8
    ensures q.modules == Symbol(t, version, ecl, data, q.mask)
    ensures IsChoice(msk, DrawnData(t, version, ecl, data), t.functions(version), q.size, FormatOf(LevelBits(ecl)),
                     penaltyScore, q.mask)
  {
    var l := t.layout(version, ecl);
    EncodingIsLossless(l, data);
    q := new QrCode(Size(version), LevelBits(ecl), l.rawCodewords, t.patterns(version), t.functions(version));
    var drawn := q.DrawCodewords(codewords);
    assert drawn.Ok? && drawn.value == 8 * |codewords|;
    var chosen := q.DoMasking(msk, penaltyScore);
  }

  // ----- A reader that is given nothing but the symbol and the tables -----

  /** The format bits of the first copy. */
  function FormatIn(g: Grid, size: nat): (bits: seq<bool>)
    requires Square(g, size) && size >= 21
    ensures |bits| == 15
  {
    seq(15, k requires 0 <= k < 15 => At(g, size, FIRST_COPY[k]))
  }

  /** The version and the data codewords. */
  datatype Contents = Contents(version: nat, data: seq<Byte>)

  /** Takes the mask off, scans, and joins the data of the blocks. */
  ghost function ReadWith(t: Tables, g: Grid, version: nat, ecl: Ecc, msk: nat): Option<Contents>
    requires Square(g, Size(version)) && msk < 8
  {
    if !Fit(t, version, ecl) then None
    else
      var l := t.layout(version, ecl);
      var read := ReadCodewords(g, t.functions(version), Size(version), msk, l.rawCodewords);
      if |read| != l.Shape().NumCodewords() then None
      else Some(Contents(version, DataIn(l.Shape(), read, l.numBlocks)))
  }

  /** Finds the version by the size, and level and mask in the format bits. */
  ghost function ReadSymbol(t: Tables, g: Grid): Option<Contents> {
    var version := (|g| - 17) / 4;
    if version < 1 || |g| != Size(version) || !Square(g, |g|) then None
    else
      var bits := FormatIn(g, |g|);
      ReadWith(t, g, version, LevelOf(LevelIn(bits)), MaskIn(bits))
  }

  lemma FormatIsRead(t: Tables, version: nat, ecl: Ecc, data: seq<Byte>, msk: nat)
    requires Fit(t, version, ecl) && |data| == NumData(t.layout(version, ecl)) && msk < 8
    ensures FormatIn(Symbol(t, version, ecl, data, msk), Size(version)) == FormatBits(LevelBits(ecl), msk)
  {
    var size, bits := Size(version), FormatBits(LevelBits(ecl), msk);
    FormatIsShown(Masked(DrawnData(t, version, ecl, data), t.functions(version), size, msk), size, bits);
    BothCopies(Symbol(t, version, ecl, data, msk), size, bits);
  }

  lemma FormatTells(t: Tables, g: Grid, version: nat, ecl: Ecc, msk: nat)
    requires Square(g, Size(version)) && version >= 1 && msk < 8
    requires FormatIn(g, Size(version)) == FormatBits(LevelBits(ecl), msk)
    ensures ReadSymbol(t, g) == ReadWith(t, g, version, ecl, msk)
  {
    assert (|g| - 17) / 4 == version;
    FormatCanBeRead(LevelBits(ecl), msk);
  }

  lemma SizeIsOdd(version: nat)
    ensures Size(version) % 2 == 1 && Size(version) >= 7
  {
    OddNumber(2 * version + 8, Size(version));
  }

  lemma OddNumber(k: nat, n: nat)
    requires n == 2 * k + 1
    ensures n % 2 == 1
  {}

  lemma SymbolIsFinished(t: Tables, version: nat, ecl: Ecc, data: seq<Byte>, msk: nat)
    requires Fit(t, version, ecl) && |data| == NumData(t.layout(version, ecl))
      == t.layout(version, ecl).Shape().NumData() && msk < 8
    ensures Symbol(t, version, ecl, data, msk)
         == Finished(t.patterns(version), t.functions(version), Size(version), FormatOf(LevelBits(ecl)), msk,
                     Codewords(t.layout(version, ecl).Shape(), data))
  {}

  lemma DataIsRead(t: Tables, version: nat, ecl: Ecc, data: seq<Byte>, msk: nat)
    requires Fit(t, version, ecl) && |data| == NumData(t.layout(version, ecl)) && msk < 8
    ensures ReadWith(t, Symbol(t, version, ecl, data, msk), version, ecl, msk) == Some(Contents(version, data))
  {
    var l := t.layout(version, ecl);
    DataFills(l, data);
    SizeIsOdd(version);
    SymbolIsFinished(t, version, ecl, data, msk);
    DataCanBeReadFromSymbol(l, data, t.patterns(version), t.functions(version), Size(version), FormatOf(LevelBits(ecl)),
      msk);
  }

  lemma DataFills(l: Layout, data: seq<Byte>)
    requires l.Valid() && |data| == NumData(l)
    ensures |data| == l.rawCodewords - l.eccLen * l.numBlocks && |data| == l.Shape().NumData()
  {
    l.Totals();
  }

  /** From the symbol alone a reader finds the version and the data codewords. */
  lemma SymbolCanBeRead(t: Tables, version: nat, ecl: Ecc, data: seq<Byte>, msk: nat)
    requires Fit(t, version, ecl) && 1 <= version && |data| == NumData(t.layout(version, ecl)) && msk < 8
    ensures ReadSymbol(t, Symbol(t, version, ecl, data, msk)) == Some(Contents(version, data))
  {
    var g := Symbol(t, version, ecl, data, msk);
    FormatIsRead(t, version, ecl, data, msk);
    FormatTells(t, g, version, ecl, msk);
    DataIsRead(t, version, ecl, data, msk);
  }
}

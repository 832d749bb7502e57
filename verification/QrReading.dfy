/** What a reader does with a finished symbol, and that it finds what the encoder put in. */
module QrReading {
  import opened Gf256
  import opened BitStrings
  import opened Placement
  import opened Masking
  import opened Interleaving
  import opened ErrorCorrection

  /** Takes the mask off, scans the free modules in zigzag order, and packs n codewords. */
  function ReadCodewords(g: Grid, isFunction: Grid, size: nat, msk: nat, n: nat): seq<Byte>
    requires Square(g, size) && Square(isFunction, size) && msk < 8
  {
    PathFromOn(size, Adjusted(size - 1), 0);
    var bits := Scan(Masked(g, isFunction, size, msk), isFunction, size, Zigzag(size));
    FromBits(if |bits| < 8 * n then bits else bits[..8 * n])
  }

  /** A finished symbol: codewords drawn on the grid g, then masked with its format information. */
  function Finished(g: Grid, isFunction: Grid, size: nat, format: nat -> seq<bool>, msk: nat,
      codewords: seq<Byte>): Grid
    requires Square(g, size) && FormatReserved(isFunction, size) && msk < 8 && |format(msk)| == 15
  {
    PathFromOn(size, Adjusted(size - 1), 0);
    Trial(Draw(g, isFunction, size, Zigzag(size), ToBits(codewords)), isFunction, size, format, msk)
  }

  /** The symbol has room for n codewords. */
  ghost predicate HasRoom(isFunction: Grid, size: nat, n: nat)
    requires Square(isFunction, size)
  {
    PathFromOn(size, Adjusted(size - 1), 0);
    8 * n <= |Free(isFunction, size, Zigzag(size))|
  }

  /** Whatever mask was chosen, taking it off and scanning gives the codewords back. */
  lemma CodewordsCanBeRead(g: Grid, isFunction: Grid, size: nat, format: nat -> seq<bool>, msk: nat,
      codewords: seq<Byte>)
    requires Square(g, size) && FormatReserved(isFunction, size) && msk < 8 && |format(msk)| == 15
    requires size % 2 == 1 && HasRoom(isFunction, size, |codewords|)
    ensures ReadCodewords(Finished(g, isFunction, size, format, msk, codewords), isFunction, size, msk, |codewords|)
         == codewords
  {
    var path, bits := Zigzag(size), ToBits(codewords);
    PathFromOn(size, Adjusted(size - 1), 0);
    ZigzagVisits(size);
    var drawn := Draw(g, isFunction, size, path, bits);
    Unmasked(drawn, isFunction, size, format, msk);
    var unmasked := DrawFormat(drawn, size, format(msk), 31);
    forall c | c in path && !At(isFunction, size, c) ensures At(drawn, size, c) == At(unmasked, size, c) {
      FormatKeepsData(drawn, isFunction, size, format(msk), c);
    }
    ScanUnchanged(drawn, unmasked, isFunction, size, path);
    ScanOfDraw(g, isFunction, size, path, bits);
    assert Scan(drawn, isFunction, size, path)[..|bits|] == bits + [];
    BytesCanBeRead(codewords, []);
  }

  /** The k-th free module in zigzag order is dark in the unmasked symbol exactly when bit k is set. */
  lemma BitPlacement(g: Grid, isFunction: Grid, size: nat, codewords: seq<Byte>, k: nat)
    requires Square(g, size) && Square(isFunction, size) && size % 2 == 1 && size >= 7
    requires HasRoom(isFunction, size, |codewords|) && k < 8 * |codewords|
    ensures On(Zigzag(size), size) && k < |Free(isFunction, size, Zigzag(size))|
    ensures var c := Free(isFunction, size, Zigzag(size))[k];
      Inside(c, size) && At(Draw(g, isFunction, size, Zigzag(size), ToBits(codewords)), size, c)
                      == Bit(codewords[k / 8], 7 - k % 8)
  {
    var path, bits := Zigzag(size), ToBits(codewords);
    PathFromOn(size, Adjusted(size - 1), 0);
    ZigzagVisits(size);
    ScanOfDraw(g, isFunction, size, path, bits);
    ScanAt(Draw(g, isFunction, size, path, bits), isFunction, size, path, k);
    BitOfBytes(codewords, k);
  }

  /** From data codewords to a masked symbol and back. */
  lemma DataCanBeReadFromSymbol(
      l: Layout, data: seq<Byte>, g: Grid, isFunction: Grid, size: nat, format: nat -> seq<bool>, msk: nat)
    requires l.Valid() && |data| == l.rawCodewords - l.eccLen * l.numBlocks && |data| == l.Shape().NumData()
    requires Square(g, size) && FormatReserved(isFunction, size) && msk < 8 && |format(msk)| == 15
    requires size % 2 == 1 && HasRoom(isFunction, size, l.rawCodewords)
    ensures var symbol := Finished(g, isFunction, size, format, msk, Codewords(l.Shape(), data));
      var read := ReadCodewords(symbol, isFunction, size, msk, l.rawCodewords);
      |read| == l.Shape().NumCodewords() && DataIn(l.Shape(), read, l.numBlocks) == data
  {
    EncodingIsLossless(l, data);
    CodewordsCanBeRead(g, isFunction, size, format, msk, Codewords(l.Shape(), data));
  }
}

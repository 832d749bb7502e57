/** The codewords of a symbol: blocks of data with their check words, interleaved, and how a reader gets them back. */
module ErrorCorrection {
  import opened Results
  import opened CyclicCodes
  import opened Gf256
  import opened ReedSolomon
  import opened Interleaving

  /** What the tables of the encoder say about one version and error correction level. */
  datatype Layout = Layout(numBlocks: nat, eccLen: nat, rawCodewords: nat) {
    predicate Valid() {
      && 0 < numBlocks
      && 1 <= eccLen <= 255
      && eccLen * numBlocks <= rawCodewords
    }

    function Shape(): (s: Shape)
      requires Valid()
      ensures s.Valid() && s.eccLen == eccLen
    {
      EccFits();
      Interleaving.Shape.Shape(numBlocks, numBlocks - rawCodewords % numBlocks, rawCodewords / numBlocks - eccLen,
        eccLen)
    }

    lemma EccFits()
      requires Valid()
      ensures eccLen <= rawCodewords / numBlocks
    {
      var q := rawCodewords / numBlocks;
      assert rawCodewords == q * numBlocks + rawCodewords % numBlocks;
      assert eccLen * numBlocks < (q + 1) * numBlocks;
      FactorLess(eccLen, q + 1, numBlocks);
    }

    /** The slices use up the data exactly, and the rows fill the symbol exactly. */
    lemma Totals()
      requires Valid()
      ensures Shape().NumData() == rawCodewords - eccLen * numBlocks
      ensures Shape().NumCodewords() == rawCodewords
    {
      var q, r := rawCodewords / numBlocks, rawCodewords % numBlocks;
      EccFits();
      assert rawCodewords == numBlocks * q + r;
      assert numBlocks * (q - eccLen) == numBlocks * q - numBlocks * eccLen;
      assert (q + 1) * numBlocks == q * numBlocks + numBlocks;
    }
  }

  lemma FactorLess(x: nat, y: nat, n: nat)
    requires x * n < y * n
    ensures x < y
  {}

  // ----- Specification -----

  function BlockData(s: Shape, data: seq<Byte>, j: nat): (b: seq<Byte>)
    requires |data| == s.NumData() && j < s.numBlocks
    ensures |b| == s.DataLen(j)
  {
    s.StartStep(j);
    s.StartsOrdered(j + 1, s.numBlocks);
    data[s.Start(j)..s.Start(j + 1)]
  }

  /** Data with its check word; a short block gets a place holder, so that all check words line up. */
  function Protect(s: Shape, j: nat, dat: seq<Byte>): (b: seq<Byte>)
    requires s.eccLen > 0
    ensures |b| == |dat| + s.eccLen + if j < s.numShort then 1 else 0
  {
    dat + (if j < s.numShort then [0] else []) + CheckWord(dat, s.eccLen)
  }

  function AllBlocks(s: Shape, data: seq<Byte>): (bs: seq<seq<Byte>>)
    requires s.eccLen > 0 && |data| == s.NumData()
    ensures Rectangular(s, bs)
  {
    seq(s.numBlocks, j requires 0 <= j < s.numBlocks => Protect(s, j, BlockData(s, data, j)))
  }

  ghost function Codewords(s: Shape, data: seq<Byte>): seq<Byte>
    requires s.Valid() && s.eccLen > 0 && |data| == s.NumData()
  {
    Weave(s, AllBlocks(s, data), s.Rows())
  }

  // ----- The encoder -----

  method AddEccAndInterleave(l: Layout, data: seq<Byte>) returns (r: Result<seq<Byte>>)
    requires l.Valid()
    ensures r.Ok? <==> |data| == l.rawCodewords - l.eccLen * l.numBlocks
    ensures r.Ok? ==> |data| == l.Shape().NumData() && r.value == Codewords(l.Shape(), data)
  {
    if |data| != l.rawCodewords - l.eccLen * l.numBlocks {
      return Err("Invalid argument");
    }
    l.Totals();
    var blocks := BuildBlocks(l.Shape(), data);
    var result := InterleaveBlocks(l.Shape(), blocks);
    return Ok(result);
  }

  /** The first loop: splits the data and appends the check words. */
  method BuildBlocks(s: Shape, data: seq<Byte>) returns (blocks: seq<seq<Byte>>)
    requires 1 <= s.eccLen <= 255 && |data| == s.NumData()
    ensures blocks == AllBlocks(s, data)
  {
    blocks := [];
    var rsDiv := ComputeDivisor(s.eccLen);
    var k := 0;
    for i := 0 to s.numBlocks
      invariant k == s.Start(i)
      invariant blocks == AllBlocks(s, data)[..i]
    {
      s.StartStep(i);
      s.StartsOrdered(i + 1, s.numBlocks);
      var dat := data[k..k + s.shortData + if i < s.numShort then 0 else 1];
      k := k + |dat|;
      var block := ProtectBlock(s, i, dat, rsDiv.value);
      blocks := blocks + [block];
    }
  }

  method ProtectBlock(s: Shape, i: nat, dat: seq<Byte>, rsDiv: seq<Byte>) returns (block: seq<Byte>)
    requires s.eccLen > 0 && rsDiv == Divisor(s.eccLen)
    ensures block == Protect(s, i, dat)
  {
    var ecc := ComputeRemainder(dat, rsDiv);
    block := dat;
    if i < s.numShort {
      block := block + [0];
    }
    block := block + ecc;
  }

  // ----- The order of the codewords in numbers -----

  /** Where the data of block j begins: the first blocks hold short codewords each, the others one more. */
  function BlockStart(short: nat, numShort: nat, j: nat): nat {
    j * short + if j > numShort then j - numShort else 0
  }

  /** Data codeword i of block j stands in row i, which the short blocks have no part in when it is the last one. */
  lemma DataCodewordAt(s: Shape, data: seq<Byte>, i: nat, j: nat)
    requires s.Valid() && s.eccLen > 0 && |data| == s.NumData() && j < s.numBlocks
    requires i < s.shortData || (i == s.shortData && s.numShort <= j)
    ensures var w, p := Codewords(s, data), i * s.numBlocks + j - if i == s.shortData then s.numShort else 0;
      && 0 <= p < |w| && BlockStart(s.shortData, s.numShort, j) + i < |data|
      && w[p] == data[BlockStart(s.shortData, s.numShort, j) + i]
  {
    WeaveEntry(s, AllBlocks(s, data), s.Rows(), i, j);
    s.StartStep(j);
    s.StartsOrdered(j + 1, s.numBlocks);
    assert AllBlocks(s, data)[j][i] == BlockData(s, data, j)[i];
  }

  /** After all data codewords come the check codewords, row by row. */
  lemma CheckCodewordAt(s: Shape, data: seq<Byte>, i: nat, j: nat, first: nat, next: nat, p: nat)
    requires s.Valid() && |data| == s.NumData() && i < s.eccLen && j < s.numBlocks
    requires first == BlockStart(s.shortData, s.numShort, j) && next == BlockStart(s.shortData, s.numShort, j + 1)
    requires p == |data| + i * s.numBlocks + j
    ensures first <= next <= |data| && p < |Codewords(s, data)|
    ensures Codewords(s, data)[p] == CheckWord(data[first..next], s.eccLen)[i]
  {
    s.StartStep(j);
    s.StartsOrdered(j + 1, s.numBlocks);
    CheckEntry(s, data, i, j, s.shortData + 1 + i);
    PlaceOfCheck(s, |data|, i, j, s.shortData + 1 + i, p);
  }

  lemma CheckEntry(s: Shape, data: seq<Byte>, i: nat, j: nat, row: nat)
    requires s.Valid() && |data| == s.NumData() && i < s.eccLen && j < s.numBlocks && row == s.shortData + 1 + i
    ensures 0 <= s.Place(row, j) < |Codewords(s, data)|
    ensures Codewords(s, data)[s.Place(row, j)] == CheckWord(BlockData(s, data, j), s.eccLen)[i]
  {
    WeaveEntry(s, AllBlocks(s, data), s.Rows(), row, j);
    assert AllBlocks(s, data)[j] == Protect(s, j, BlockData(s, data, j));
  }

  lemma PlaceOfCheck(s: Shape, dataLen: nat, i: nat, j: nat, row: nat, p: nat)
    requires s.Valid() && dataLen == s.NumData() && row == s.shortData + 1 + i && p == dataLen + i * s.numBlocks + j
    ensures s.Place(row, j) == p
  {
    CheckPlace(row, s.shortData, i, s.numBlocks, s.numShort);
  }

  lemma CheckPlace(row: nat, short: nat, i: nat, numBlocks: nat, numShort: nat)
    requires row == short + 1 + i && numShort <= numBlocks
    ensures row * numBlocks - numShort == numBlocks * short + (numBlocks - numShort) + i * numBlocks
  {
    assert row * numBlocks == short * numBlocks + numBlocks + i * numBlocks;
  }

  // ----- The reader -----

  /** The codewords of block j in a symbol. */
  function BlockIn(s: Shape, w: seq<Byte>, j: nat): seq<Byte>
    requires s.Valid() && |w| == s.NumCodewords() && j < s.numBlocks
  {
    Column(s, w, j, s.Rows())
  }

  /** The data of the first n blocks, without the check words. */
  function DataIn(s: Shape, w: seq<Byte>, n: nat): seq<Byte>
    requires s.Valid() && |w| == s.NumCodewords() && n <= s.numBlocks
  {
    if n == 0 then []
    else
      var b := BlockIn(s, w, n - 1);
      DataIn(s, w, n - 1) + b[..if |b| < s.eccLen then 0 else |b| - s.eccLen]
  }

  /** Every block can be read back from the symbol, followed by its check word. */
  lemma BlockCanBeRead(s: Shape, data: seq<Byte>, j: nat)
    requires s.Valid() && s.eccLen > 0 && |data| == s.NumData() && j < s.numBlocks
    ensures |Codewords(s, data)| == s.NumCodewords()
    ensures var d := BlockData(s, data, j); BlockIn(s, Codewords(s, data), j) == d + CheckWord(d, s.eccLen)
  {
    ColumnIsBlock(s, AllBlocks(s, data), j, s.Rows());
    WithoutPlaceHolder(s, j, BlockData(s, data, j));
  }

  lemma WithoutPlaceHolder(s: Shape, j: nat, d: seq<Byte>)
    requires s.eccLen > 0 && |d| == s.DataLen(j)
    ensures Without(s, Protect(s, j, d), j, s.Rows()) == d + CheckWord(d, s.eccLen)
  {}

  lemma BlockIsCodeword(s: Shape, data: seq<Byte>, j: nat)
    requires s.Valid() && 1 <= s.eccLen <= 255 && |data| == s.NumData() && j < s.numBlocks
    ensures |Codewords(s, data)| == s.NumCodewords()
    ensures IsCodeword(FIELD, 2, s.eccLen, BlockIn(s, Codewords(s, data), j))
  {
    BlockCanBeRead(s, data, j);
    CheckWordCompletes(BlockData(s, data, j), CheckWord(BlockData(s, data, j), s.eccLen));
  }

  ghost predicate Holds(s: Shape, w: seq<Byte>, data: seq<Byte>, j: nat)
    requires s.Valid() && |w| == s.NumCodewords() && |data| == s.NumData() && j < s.numBlocks
  {
    var b := BlockIn(s, w, j);
    |b| == s.DataLen(j) + s.eccLen && b[..s.DataLen(j)] == BlockData(s, data, j)
  }

  lemma {:induction false} BlocksJoin(s: Shape, w: seq<Byte>, data: seq<Byte>, n: nat)
    requires s.Valid() && |w| == s.NumCodewords() && |data| == s.NumData() && n <= s.numBlocks
    requires forall j :: 0 <= j < n ==> Holds(s, w, data, j)
    ensures s.Start(n) <= |data| && DataIn(s, w, n) == data[..s.Start(n)]
  {
    s.StartsOrdered(n, s.numBlocks);
    if n > 0 {
      BlocksJoin(s, w, data, n - 1);
      assert Holds(s, w, data, n - 1);
      s.StartStep(n - 1);
      AppendSlice(data, s.Start(n - 1), s.Start(n));
    }
  }

  lemma BlockHolds(s: Shape, data: seq<Byte>, j: nat)
    requires s.Valid() && s.eccLen > 0 && |data| == s.NumData() && j < s.numBlocks
    ensures |Codewords(s, data)| == s.NumCodewords() && Holds(s, Codewords(s, data), data, j)
  {
    BlockCanBeRead(s, data, j);
  }

  /** De-interleaving and dropping the check words gives the data back: nothing is lost or reordered. */
  lemma DataCanBeRead(s: Shape, data: seq<Byte>)
    requires s.Valid() && s.eccLen > 0 && |data| == s.NumData()
    ensures |Codewords(s, data)| == s.NumCodewords() && DataIn(s, Codewords(s, data), s.numBlocks) == data
  {
    var w := Codewords(s, data);
    BlockHolds(s, data, 0);
    forall j | 0 <= j < s.numBlocks ensures Holds(s, w, data, j) { BlockHolds(s, data, j); }
    BlocksJoin(s, w, data, s.numBlocks);
  }

  lemma AppendSlice(data: seq<Byte>, i: nat, j: nat)
    requires i <= j <= |data|
    ensures data[..i] + data[i..j] == data[..j]
  {}

  /** What the encoder emits for a layout has the length of the symbol and determines the data. */
  lemma EncodingIsLossless(l: Layout, data: seq<Byte>)
    requires l.Valid() && |data| == l.rawCodewords - l.eccLen * l.numBlocks
    ensures |data| == l.Shape().NumData() && l.rawCodewords == l.Shape().NumCodewords()
    ensures |Codewords(l.Shape(), data)| == l.rawCodewords
    ensures DataIn(l.Shape(), Codewords(l.Shape(), data), l.numBlocks) == data
  {
    l.Totals();
    DataCanBeRead(l.Shape(), data);
  }
}

/** Splitting the data of a symbol into blocks of two lengths and interleaving them. */
module Interleaving {

  /** The blocks of a symbol: the first numShort of the numBlocks blocks hold shortData data codewords, the
      others one more; every block has eccLen check words. */
  datatype Shape = Shape(numBlocks: nat, numShort: nat, shortData: nat, eccLen: nat) {
    predicate Valid() {
      0 < numShort <= numBlocks
    }

    /** The data codewords of block j. */
    function DataLen(j: nat): nat {
      if j < numShort then shortData else shortData + 1
    }

    /** Where the data of block j begins. */
    function Start(j: nat): nat {
      j * shortData + if j > numShort then j - numShort else 0
    }

    function NumData(): nat {
      Start(numBlocks)
    }

    /** The length of a long block, and of a short block with a place holder. */
    function Rows(): nat {
      shortData + 1 + eccLen
    }

    /** How many blocks have no codeword in row i. */
    function Skip(i: nat): nat {
      if i == shortData then numShort else 0
    }

    /** Where row i begins in the interleaved sequence. */
    function RowStart(i: nat): int {
      i * numBlocks - if i > shortData then numShort else 0
    }

    function NumCodewords(): int {
      RowStart(Rows())
    }

    lemma StartStep(j: nat)
      ensures Start(j + 1) == Start(j) + DataLen(j)
    {}

    lemma RowStep(i: nat)
      ensures RowStart(i + 1) == RowStart(i) + numBlocks - Skip(i)
    {
      assert (i + 1) * numBlocks == i * numBlocks + numBlocks;
    }

    lemma StartsOrdered(i: nat, j: nat)
      requires i <= j
      ensures Start(i) <= Start(j)
      decreases j - i
    {
      if i < j {
        StartStep(i);
        StartsOrdered(i + 1, j);
      }
    }

    lemma RowsOrdered(i: nat, n: nat)
      requires Valid() && i <= n
      ensures 0 <= RowStart(i) <= RowStart(n)
      decreases n - i
    {
      if i > 0 { assert i * numBlocks == (i - 1) * numBlocks + numBlocks; }
      if i < n {
        RowStep(i);
        RowsOrdered(i + 1, n);
      }
    }

    /** The codeword of block j in row i has a place of its own in the symbol. */
    lemma PlaceInRange(i: nat, j: nat)
      requires Valid() && i < Rows() && Skip(i) <= j < numBlocks
      ensures 0 <= Place(i, j) < NumCodewords()
    {
      RowStep(i);
      RowsOrdered(i, i);
      RowsOrdered(i + 1, Rows());
    }

    function Place(i: nat, j: nat): int {
      RowStart(i) + j - Skip(i)
    }
  }

  // ----- Interleaving -----

  ghost predicate Rectangular<T>(s: Shape, blocks: seq<seq<T>>) {
    |blocks| == s.numBlocks && forall j :: 0 <= j < |blocks| ==> |blocks[j]| == s.Rows()
  }

  /** The codewords in row i of the blocks that take part in it. */
  ghost function Row<T>(s: Shape, blocks: seq<seq<T>>, i: nat): (r: seq<T>)
    requires s.Valid() && Rectangular(s, blocks) && i < s.Rows()
    ensures |r| == s.numBlocks - s.Skip(i)
  {
    seq(s.numBlocks - s.Skip(i), k requires 0 <= k < s.numBlocks - s.Skip(i) => blocks[s.Skip(i) + k][i])
  }

  ghost function Weave<T>(s: Shape, blocks: seq<seq<T>>, n: nat): (w: seq<T>)
    requires s.Valid() && Rectangular(s, blocks) && n <= s.Rows()
  {
    if n == 0 then [] else Weave(s, blocks, n - 1) + Row(s, blocks, n - 1)
  }

  /** The nested loops: one codeword of every block after the other, without the place holders. */
  method InterleaveBlocks<T>(s: Shape, blocks: seq<seq<T>>) returns (result: seq<T>)
    requires s.Valid() && Rectangular(s, blocks)
    ensures result == Weave(s, blocks, s.Rows())
  {
    result := [];
    for i := 0 to |blocks[0]|
      invariant result == Weave(s, blocks, i)
    {
      ghost var row, skip := Row(s, blocks, i), s.Skip(i);
      for j := 0 to |blocks|
        invariant result == Weave(s, blocks, i) + row[..if j < skip then 0 else j - skip]
      {
        if i != s.shortData || j >= s.numShort {
          assert row[..j - skip] + [blocks[j][i]] == row[..j + 1 - skip];
          result := result + [blocks[j][i]];
        }
      }
    }
  }

  // ----- Reading the blocks back -----

  /** The codewords of block j in the first n rows. */
  function Column<T>(s: Shape, w: seq<T>, j: nat, n: nat): (c: seq<T>)
    requires s.Valid() && |w| == s.NumCodewords() && j < s.numBlocks && n <= s.Rows()
  {
    if n == 0 then []
    else if j < s.Skip(n - 1) then Column(s, w, j, n - 1)
    else
      s.PlaceInRange(n - 1, j);
      Column(s, w, j, n - 1) + [w[s.Place(n - 1, j)]]
  }

  lemma {:induction false} WeaveLength<T>(s: Shape, blocks: seq<seq<T>>, n: nat)
    requires s.Valid() && Rectangular(s, blocks) && n <= s.Rows()
    ensures |Weave(s, blocks, n)| == s.RowStart(n)
  {
    if n > 0 {
      WeaveLength(s, blocks, n - 1);
      s.RowStep(n - 1);
    }
  }

  lemma {:induction false} WeaveEntry<T>(s: Shape, blocks: seq<seq<T>>, n: nat, i: nat, j: nat)
    requires s.Valid() && Rectangular(s, blocks) && i < n <= s.Rows() && s.Skip(i) <= j < s.numBlocks
    ensures 0 <= s.Place(i, j) < |Weave(s, blocks, n)|
    ensures Weave(s, blocks, n)[s.Place(i, j)] == blocks[j][i]
  {
    WeaveLength(s, blocks, n - 1);
    if i < n - 1 {
      WeaveEntry(s, blocks, n - 1, i, j);
    }
  }

  /** Block j without its place holder, up to row n. */
  function Without<T>(s: Shape, block: seq<T>, j: nat, n: nat): seq<T>
    requires n <= |block| == s.Rows()
  {
    if j < s.numShort && s.shortData < n then block[..s.shortData] + block[s.shortData + 1..n] else block[..n]
  }

  /** The place holder of a short block is the entry that its column skips. */
  lemma WithoutStep<T>(s: Shape, block: seq<T>, j: nat, n: nat)
    requires s.Valid() && 0 < n <= |block| == s.Rows()
    ensures Without(s, block, j, n) == Without(s, block, j, n - 1) + if j < s.Skip(n - 1) then [] else [block[n - 1]]
  {}

  lemma {:induction false} ColumnIsBlock<T>(s: Shape, blocks: seq<seq<T>>, j: nat, n: nat)
    requires s.Valid() && Rectangular(s, blocks) && j < s.numBlocks && n <= s.Rows()
    ensures |Weave(s, blocks, s.Rows())| == s.NumCodewords()
    ensures Column(s, Weave(s, blocks, s.Rows()), j, n) == Without(s, blocks[j], j, n)
  {
    WeaveLength(s, blocks, s.Rows());
    if n > 0 {
      ColumnIsBlock(s, blocks, j, n - 1);
      WithoutStep(s, blocks[j], j, n);
      if j >= s.Skip(n - 1) {
        WeaveEntry(s, blocks, s.Rows(), n - 1, j);
      }
    }
  }
}

/** The masks of a symbol and its format modules, as functions of the grid. */
module Masking {
  import opened Results
  import opened Placement

  // ----- The eight masks -----

  predicate Inverts(msk: nat, x: nat, y: nat)
    requires msk < 8
  {
    match msk
    case 0 => (x + y) % 2 == 0
    case 1 => y % 2 == 0
    case 2 => x % 3 == 0
    case 3 => (x + y) % 3 == 0
    case 4 => (x / 3 + y / 2) % 2 == 0
    case 5 => x * y % 2 + x * y % 3 == 0
    case 6 => (x * y % 2 + x * y % 3) % 2 == 0
    case _ => ((x + y) % 2 + x * y % 3) % 2 == 0
  }

  /** Whether a mask changes the module at c. */
  predicate Flips(isFunction: Grid, size: nat, msk: nat, c: Cell)
    requires Square(isFunction, size) && Inside(c, size) && msk < 8
  {
    Inverts(msk, c.x, c.y) && !At(isFunction, size, c)
  }

  function Masked(g: Grid, isFunction: Grid, size: nat, msk: nat): (r: Grid)
    requires Square(g, size) && Square(isFunction, size) && msk < 8
    ensures Square(r, size)
    ensures forall c :: Inside(c, size) ==> At(r, size, c) == (At(g, size, c) != Flips(isFunction, size, msk, c))
  {
    seq(size, y requires 0 <= y < size =>
      seq(size, x requires 0 <= x < size => g[y][x] != Flips(isFunction, size, msk, Cell(x, y))))
  }

  /** A mask undoes itself, and leaves function modules alone. */
  lemma MaskTwice(g: Grid, isFunction: Grid, size: nat, msk: nat)
    requires Square(g, size) && Square(isFunction, size) && msk < 8
    ensures Masked(Masked(g, isFunction, size, msk), isFunction, size, msk) == g
  {
    SameGrid(Masked(Masked(g, isFunction, size, msk), isFunction, size, msk), g, size);
  }

  // ----- The format modules -----

  /** The modules of the format information in the order in which they are drawn. */
  function FormatCell(size: nat, k: nat): Cell
    requires k < 31
  {
    if k < 6 then Cell(8, k)
    else if k == 6 then Cell(8, 7)
    else if k == 7 then Cell(8, 8)
    else if k == 8 then Cell(7, 8)
    else if k < 15 then Cell(14 - k, 8)
    else if k < 23 then Cell(size - 1 - (k - 15), 8)
    else if k < 30 then Cell(8, size - 15 + (k - 15))
    else Cell(8, size - 8)
  }

  function FormatValue(bits: seq<bool>, k: nat): bool
    requires |bits| == 15 && k < 31
  {
    if k < 15 then bits[k] else if k < 30 then bits[k - 15] else true
  }

  /** The grid after the first k modules of the format information have been drawn. */
  function DrawFormat(g: Grid, size: nat, bits: seq<bool>, k: nat): (r: Grid)
    requires Square(g, size) && size >= 21 && |bits| == 15 && k <= 31
    ensures Square(r, size)
  {
    if k == 0 then g else Put(DrawFormat(g, size, bits, k - 1), size, FormatCell(size, k - 1), FormatValue(bits, k - 1))
  }

  /** What the first k format modules leave at c. */
  function LastWrite(size: nat, bits: seq<bool>, k: nat, c: Cell): Option<bool>
    requires |bits| == 15 && k <= 31
  {
    if k == 0 then None
    else if FormatCell(size, k - 1) == c then Some(FormatValue(bits, k - 1))
    else LastWrite(size, bits, k - 1, c)
  }

  lemma {:induction false} FormatAt(g: Grid, size: nat, bits: seq<bool>, k: nat, c: Cell)
    requires Square(g, size) && size >= 21 && |bits| == 15 && k <= 31 && Inside(c, size)
    ensures At(DrawFormat(g, size, bits, k), size, c)
         == var w := LastWrite(size, bits, k, c); if w.Some? then w.value else At(g, size, c)
  {
    if k > 0 { FormatAt(g, size, bits, k - 1, c); }
  }

  predicate IsFormatCell(size: nat, k: nat, c: Cell)
    requires k <= 31
  {
    exists j :: 0 <= j < k && FormatCell(size, j) == c
  }

  lemma {:induction false} WritesAreFormatCells(size: nat, bits: seq<bool>, k: nat, c: Cell)
    requires |bits| == 15 && k <= 31
    ensures LastWrite(size, bits, k, c).Some? <==> IsFormatCell(size, k, c)
  {
    if k > 0 {
      WritesAreFormatCells(size, bits, k - 1, c);
      assert IsFormatCell(size, k, c) <==> IsFormatCell(size, k - 1, c) || FormatCell(size, k - 1) == c;
    }
  }

  /** The 31 modules of the format are different ones. */
  lemma FormatCellsDiffer(size: nat, j: nat, k: nat)
    requires size >= 21 && j < k < 31
    ensures FormatCell(size, j) != FormatCell(size, k)
  {}

  lemma {:induction false} WrittenOnce(size: nat, bits: seq<bool>, n: nat, k: nat)
    requires size >= 21 && |bits| == 15 && k < n <= 31
    ensures LastWrite(size, bits, n, FormatCell(size, k)) == Some(FormatValue(bits, k))
  {
    if k < n - 1 {
      FormatCellsDiffer(size, k, n - 1);
      WrittenOnce(size, bits, n - 1, k);
    }
  }

  /** Both copies of the format, and the dark module, can be seen in the symbol. */
  ghost predicate ShowsFormat(g: Grid, size: nat, bits: seq<bool>)
    requires Square(g, size) && size >= 21 && |bits| == 15
  {
    forall k :: 0 <= k < 31 ==> At(g, size, FormatCell(size, k)) == FormatValue(bits, k)
  }

  /** Nothing but the format modules has changed. */
  ghost predicate OnlyFormat(g: Grid, h: Grid, size: nat)
    requires Square(g, size) && Square(h, size)
  {
    forall c :: Inside(c, size) && !IsFormatCell(size, 31, c) ==> At(h, size, c) == At(g, size, c)
  }

  /** The first copy, from bit 0 on: down column 8 and back along row 8, passing over the timing patterns. */
  const FIRST_COPY: seq<Cell> := [
    Cell(8, 0), Cell(8, 1), Cell(8, 2), Cell(8, 3), Cell(8, 4), Cell(8, 5), Cell(8, 7), Cell(8, 8),
    Cell(7, 8), Cell(5, 8), Cell(4, 8), Cell(3, 8), Cell(2, 8), Cell(1, 8), Cell(0, 8)
  ]

  lemma FirstCopyAt(size: nat, k: nat)
    requires k < 15
    ensures FormatCell(size, k) == FIRST_COPY[k]
  {}

  /** The second copy goes from the right end of row 8 to the left, and then down column 8 to its lower end. */
  lemma BothCopies(g: Grid, size: nat, bits: seq<bool>)
    requires Square(g, size) && size >= 21 && |bits| == 15 && ShowsFormat(g, size, bits)
    ensures forall i :: 0 <= i < 15 ==> At(g, size, FIRST_COPY[i]) == bits[i]
    ensures forall i :: 0 <= i < 8 ==> At(g, size, Cell(size - 1 - i, 8)) == bits[i]
    ensures forall i :: 8 <= i < 15 ==> At(g, size, Cell(8, size - 15 + i)) == bits[i]
    ensures At(g, size, Cell(8, size - 8))
  {
    forall i | 0 <= i < 15 ensures At(g, size, FIRST_COPY[i]) == bits[i] {
      FirstCopyAt(size, i);
      assert At(g, size, FormatCell(size, i)) == FormatValue(bits, i);
    }
    forall i | 0 <= i < 15 ensures At(g, size, FormatCell(size, 15 + i)) == bits[i] {
      assert At(g, size, FormatCell(size, 15 + i)) == FormatValue(bits, 15 + i);
    }
    forall i | 0 <= i < 8 ensures At(g, size, Cell(size - 1 - i, 8)) == bits[i] {
      assert FormatCell(size, 15 + i) == Cell(size - 1 - i, 8);
    }
    forall i | 8 <= i < 15 ensures At(g, size, Cell(8, size - 15 + i)) == bits[i] {
      assert FormatCell(size, 15 + i) == Cell(8, size - 15 + i);
    }
    assert At(g, size, FormatCell(size, 30)) == FormatValue(bits, 30);
  }

  lemma FormatIsShown(g: Grid, size: nat, bits: seq<bool>)
    requires Square(g, size) && size >= 21 && |bits| == 15
    ensures ShowsFormat(DrawFormat(g, size, bits, 31), size, bits) && OnlyFormat(g, DrawFormat(g, size, bits, 31), size)
  {
    var h := DrawFormat(g, size, bits, 31);
    forall k | 0 <= k < 31 ensures At(h, size, FormatCell(size, k)) == FormatValue(bits, k) {
      WrittenOnce(size, bits, 31, k);
      FormatAt(g, size, bits, 31, FormatCell(size, k));
    }
    forall c | Inside(c, size) && !IsFormatCell(size, 31, c) ensures At(h, size, c) == At(g, size, c) {
      FormatAt(g, size, bits, 31, c);
      WritesAreFormatCells(size, bits, 31, c);
    }
  }

  /** Drawing a second format replaces the first. */
  lemma FormatReplaces(g: Grid, size: nat, first: seq<bool>, second: seq<bool>)
    requires Square(g, size) && size >= 21 && |first| == |second| == 15
    ensures DrawFormat(DrawFormat(g, size, first, 31), size, second, 31) == DrawFormat(g, size, second, 31)
  {
    var h := DrawFormat(g, size, first, 31);
    forall c | Inside(c, size)
      ensures At(DrawFormat(h, size, second, 31), size, c) == At(DrawFormat(g, size, second, 31), size, c)
    {
      FormatAt(h, size, second, 31, c);
      FormatAt(g, size, second, 31, c);
      FormatAt(g, size, first, 31, c);
      WritesAreFormatCells(size, first, 31, c);
      WritesAreFormatCells(size, second, 31, c);
    }
    SameGrid(DrawFormat(h, size, second, 31), DrawFormat(g, size, second, 31), size);
  }

  /** The format modules are function modules. */
  ghost predicate FormatReserved(isFunction: Grid, size: nat) {
    Square(isFunction, size) && size >= 21 &&
    forall k :: 0 <= k < 31 ==> At(isFunction, size, FormatCell(size, k))
  }

  lemma MaskedFormat(g: Grid, isFunction: Grid, size: nat, bits: seq<bool>, msk: nat)
    requires Square(g, size) && FormatReserved(isFunction, size) && |bits| == 15 && msk < 8
    ensures Masked(DrawFormat(g, size, bits, 31), isFunction, size, msk)
         == DrawFormat(Masked(g, isFunction, size, msk), size, bits, 31)
  {
    var left := Masked(DrawFormat(g, size, bits, 31), isFunction, size, msk);
    var right := DrawFormat(Masked(g, isFunction, size, msk), size, bits, 31);
    forall c | Inside(c, size) ensures At(left, size, c) == At(right, size, c) {
      FormatAt(g, size, bits, 31, c);
      FormatAt(Masked(g, isFunction, size, msk), size, bits, 31, c);
      WritesAreFormatCells(size, bits, 31, c);
    }
    SameGrid(left, right, size);
  }

  /** Modules that are not function modules keep their value under a format. */
  lemma FormatKeepsData(g: Grid, isFunction: Grid, size: nat, bits: seq<bool>, c: Cell)
    requires Square(g, size) && FormatReserved(isFunction, size) && |bits| == 15
    requires Inside(c, size) && !At(isFunction, size, c)
    ensures At(DrawFormat(g, size, bits, 31), size, c) == At(g, size, c)
  {
    FormatAt(g, size, bits, 31, c);
    WritesAreFormatCells(size, bits, 31, c);
  }

  // ----- Trials -----

  /** The symbol with the given mask and its format information. */
  function Trial(g: Grid, isFunction: Grid, size: nat, format: nat -> seq<bool>, msk: nat): Grid
    requires Square(g, size) && FormatReserved(isFunction, size) && msk < 8 && |format(msk)| == 15
  {
    DrawFormat(Masked(g, isFunction, size, msk), size, format(msk), 31)
  }

  /** Taking the mask off again after a trial leaves the data modules as they were. */
  lemma Unmasked(g: Grid, isFunction: Grid, size: nat, format: nat -> seq<bool>, msk: nat)
    requires Square(g, size) && FormatReserved(isFunction, size) && msk < 8 && |format(msk)| == 15
    ensures Masked(Trial(g, isFunction, size, format, msk), isFunction, size, msk)
      == DrawFormat(g, size, format(msk), 31)
  {
    MaskedFormat(Masked(g, isFunction, size, msk), isFunction, size, format(msk), msk);
    MaskTwice(g, isFunction, size, msk);
  }

  /** A trial does not depend on the format information that was there before. */
  lemma TrialAfterFormat(g: Grid, isFunction: Grid, size: nat, format: nat -> seq<bool>, bits: seq<bool>, msk: nat)
    requires Square(g, size) && FormatReserved(isFunction, size) && msk < 8 && |format(msk)| == 15 && |bits| == 15
    ensures Trial(DrawFormat(g, size, bits, 31), isFunction, size, format, msk)
      == Trial(g, isFunction, size, format, msk)
  {
    MaskedFormat(g, isFunction, size, bits, msk);
    FormatReplaces(Masked(g, isFunction, size, msk), size, bits, format(msk));
  }

  /** The penalty of each trial. */
  ghost function Penalties(g: Grid, isFunction: Grid, size: nat, format: nat -> seq<bool>,
      penaltyScore: Grid -> int): nat -> int
    requires Square(g, size) && FormatReserved(isFunction, size)
  {
    (m: nat) => if m < 8 && |format(m)| == 15 then penaltyScore(Trial(g, isFunction, size, format, m)) else 0
  }

  /**
    * The mask that is asked for, or for -1 the one whose trial
    * symbol has the least penalty, the lowest such one on ties.
    */
  ghost predicate IsChoice(msk: int, g: Grid, isFunction: Grid, size: nat, format: nat -> seq<bool>,
                           penaltyScore: Grid -> int, chosen: nat)
    requires Square(g, size) && FormatReserved(isFunction, size)
  {
    if msk == -1 then IsBestBelow(8, Penalties(g, isFunction, size, format, penaltyScore), chosen) else chosen == msk
  }

  /** The least of the first n penalties, with the lowest mask on ties. */
  ghost predicate IsBestBelow(n: nat, penalties: nat -> int, m: nat) {
    && m < n
    && (forall k :: 0 <= k < n ==> penalties(m) <= penalties(k))
    && (forall k :: 0 <= k < m ==> penalties(m) < penalties(k))
  }

  lemma BestOfNext(n: nat, penalties: nat -> int, m: nat)
    requires n > 0 ==> IsBestBelow(n, penalties, m)
    ensures IsBestBelow(n + 1, penalties, if n == 0 || penalties(n) < penalties(m) then n else m)
  {}
}

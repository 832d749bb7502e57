/** The zigzag in which the codeword bits of a symbol are placed, on a grid with function modules. */
module Placement {

  datatype Cell = Cell(x: int, y: int)

  type Grid = seq<seq<bool>>

  ghost predicate Square(g: Grid, size: nat) {
    |g| == size && forall y :: 0 <= y < size ==> |g[y]| == size
  }

  predicate Inside(c: Cell, size: nat) {
    0 <= c.x < size && 0 <= c.y < size
  }

  function At(g: Grid, size: nat, c: Cell): bool
    requires Square(g, size) && Inside(c, size)
  {
    g[c.y][c.x]
  }

  function Put(g: Grid, size: nat, c: Cell, b: bool): (r: Grid)
    requires Square(g, size) && Inside(c, size)
    ensures Square(r, size)
    ensures forall d :: Inside(d, size) ==> At(r, size, d) == if d == c then b else At(g, size, d)
  {
    g[c.y := g[c.y][c.x := b]]
  }

  /** Two grids are the same when every module is. */
  lemma SameGrid(g: Grid, h: Grid, size: nat)
    requires Square(g, size) && Square(h, size)
    requires forall c :: Inside(c, size) ==> At(g, size, c) == At(h, size, c)
    ensures g == h
  {
    forall y | 0 <= y < size ensures g[y] == h[y] {
      forall x | 0 <= x < size ensures g[y][x] == h[y][x] {
        assert At(g, size, Cell(x, y)) == At(h, size, Cell(x, y));
      }
    }
  }

  lemma PutSame(g: Grid, size: nat, c: Cell, b: bool)
    requires Square(g, size) && Inside(c, size) && At(g, size, c) == b
    ensures Put(g, size, c, b) == g
  {
    SameGrid(Put(g, size, c, b), g, size);
  }

  // ----- The path -----

  /** The scan skips the column of the vertical timing pattern. */
  function Adjusted(right: int): int {
    if right == 6 then 5 else right
  }

  predicate Upward(right: int) {
    (right + 1) / 2 % 2 == 0
  }

  function RowAt(size: nat, right: int, vert: int): int {
    if Upward(right) then size - 1 - vert else vert
  }

  /** The rest of the scan: the pair of columns right and right - 1 from the given step on, then the pairs
      to the left. */
  function PathFrom(size: nat, right: int, vert: nat): seq<Cell>
    decreases right, size - vert
  {
    if right < 1 then []
    else if vert >= size then PathFrom(size, Adjusted(right - 2), 0)
    else
      var y := RowAt(size, right, vert);
      [Cell(right, y), Cell(right - 1, y)] + PathFrom(size, right, vert + 1)
  }

  function Zigzag(size: nat): seq<Cell> {
    PathFrom(size, Adjusted(size - 1), 0)
  }

  ghost predicate NoRepeats(p: seq<Cell>) {
    forall i, j :: 0 <= i < j < |p| ==> p[i] != p[j]
  }

  /** Where the right column of a pair can be. */
  predicate IsRight(right: int) {
    if right % 2 == 0 then right > 6 else -1 <= right <= 5
  }

  /** The cells of the scan from the given step on. */
  predicate IsAhead(size: nat, right: int, vert: nat, c: Cell) {
    && 0 <= c.y < size
    && 0 <= c.x <= right && c.x != 6
    && (c.x >= right - 1 ==> RowAt(size, right, c.y) >= vert)
  }

  lemma {:induction false} PathFromCells(size: nat, right: int, vert: nat, c: Cell)
    requires IsRight(right) && vert <= size
    ensures c in PathFrom(size, right, vert) <==> IsAhead(size, right, vert, c)
    decreases right, size - vert
  {
    if right >= 1 {
      if vert >= size {
        PathFromCells(size, Adjusted(right - 2), 0, c);
      } else {
        PathFromCells(size, right, vert + 1, c);
        StepCells(size, right, vert, c);
      }
    }
  }

  /** One step through a pair of columns takes the two cells of one row. */
  lemma StepCells(size: nat, right: int, vert: nat, c: Cell)
    requires IsRight(right) && right >= 1 && vert < size
    ensures var y := RowAt(size, right, vert);
      IsAhead(size, right, vert, c)
      <==> c == Cell(right, y) || c == Cell(right - 1, y) || IsAhead(size, right, vert + 1, c)
  {}

  lemma {:induction false} PathFromNoRepeats(size: nat, right: int, vert: nat)
    requires IsRight(right) && vert <= size
    ensures NoRepeats(PathFrom(size, right, vert))
    decreases right, size - vert
  {
    if right >= 1 {
      if vert >= size {
        PathFromNoRepeats(size, Adjusted(right - 2), 0);
      } else {
        PathFromNoRepeats(size, right, vert + 1);
        var y := RowAt(size, right, vert);
        StepIsNew(size, right, vert);
        TwoMore(Cell(right, y), Cell(right - 1, y), PathFrom(size, right, vert + 1));
      }
    }
  }

  lemma StepIsNew(size: nat, right: int, vert: nat)
    requires IsRight(right) && right >= 1 && vert < size
    ensures var y, rest := RowAt(size, right, vert), PathFrom(size, right, vert + 1);
      Cell(right, y) !in rest && Cell(right - 1, y) !in rest
  {
    var y := RowAt(size, right, vert);
    PathFromCells(size, right, vert + 1, Cell(right, y));
    PathFromCells(size, right, vert + 1, Cell(right - 1, y));
  }

  lemma TwoMore(a: Cell, b: Cell, rest: seq<Cell>)
    requires NoRepeats(rest) && a !in rest && b !in rest && a != b
    ensures NoRepeats([a, b] + rest)
  {}

  /** On the sizes of symbols the scan visits every module outside column 6 once, and no others. */
  lemma ZigzagVisits(size: nat)
    requires size % 2 == 1 && size >= 7
    ensures NoRepeats(Zigzag(size))
    ensures forall c :: c in Zigzag(size) <==> Inside(c, size) && c.x != 6
  {
    PathFromNoRepeats(size, Adjusted(size - 1), 0);
    forall c ensures c in Zigzag(size) <==> Inside(c, size) && c.x != 6 {
      PathFromCells(size, Adjusted(size - 1), 0, c);
    }
  }

  /** Smaller odd grids have no column 6, and lose column 0 instead. */
  lemma ZigzagComplete(size: nat)
    requires size % 2 == 1
    ensures (forall c :: Inside(c, size) && c.x != 6 ==> c in Zigzag(size)) <==> size >= 7
  {
    if size >= 7 {
      ZigzagVisits(size);
    } else {
      EvenPathMissesColumnZero(size, size - 1, 0);
      assert Inside(Cell(0, 0), size);
    }
  }

  lemma {:induction false} EvenPathMissesColumnZero(size: nat, right: int, vert: nat)
    requires 0 <= right <= 4 && right % 2 == 0
    ensures Cell(0, 0) !in PathFrom(size, right, vert)
    decreases right, size - vert
  {
    if right >= 1 {
      if vert >= size {
        EvenPathMissesColumnZero(size, right - 2, 0);
      } else {
        EvenPathMissesColumnZero(size, right, vert + 1);
      }
    }
  }

  // ----- The scan in numbers -----

  /** The right column of a pair, the pairs counted from the right. */
  function PairColumn(size: nat, p: nat): int {
    var right := size - 1 - 2 * p;
    if right <= 6 then right - 1 else right
  }

  lemma {:induction false} AfterRows(size: nat, right: int, vert: nat, n: nat)
    requires 1 <= right && vert <= size && n == 2 * vert
    ensures n <= |PathFrom(size, right, 0)| && PathFrom(size, right, 0)[n..] == PathFrom(size, right, vert)
    decreases vert
  {
    if vert > 0 {
      AfterRows(size, right, vert - 1, n - 2);
      var y, before, rest := RowAt(size, right, vert - 1), PathFrom(size, right, vert - 1), PathFrom(size, right, vert);
      assert before == [Cell(right, y), Cell(right - 1, y)] + rest;
      DropMore(PathFrom(size, right, 0), n - 2, 2, n);
    }
  }

  lemma DropMore<T>(s: seq<T>, a: nat, b: nat, n: nat)
    requires n == a + b && a <= |s| && b <= |s[a..]|
    ensures n <= |s| && s[n..] == s[a..][b..]
  {}

  /** How many cells lie before a pair of columns. */
  function PairStart(size: nat, p: nat): nat {
    if p == 0 then 0 else PairStart(size, p - 1) + 2 * size
  }

  lemma {:induction false} StartIsProduct(size: nat, p: nat)
    ensures PairStart(size, p) == 2 * size * p
  {
    if p > 0 {
      StartIsProduct(size, p - 1);
      assert 2 * size * p == 2 * size * (p - 1) + 2 * size;
    }
  }

  lemma {:induction false} AfterPairs(size: nat, p: nat)
    requires size % 2 == 1 && size >= 7 && 2 * p <= size - 1
    ensures PairStart(size, p) <= |Zigzag(size)|
    ensures Zigzag(size)[PairStart(size, p)..] == PathFrom(size, PairColumn(size, p), 0)
  {
    if p > 0 {
      var before, m := PairColumn(size, p - 1), PairStart(size, p - 1);
      AfterPairs(size, p - 1);
      AfterRows(size, before, size, 2 * size);
      PairEnds(size, p, before);
      DropMore(Zigzag(size), m, 2 * size, PairStart(size, p));
    }
  }

  lemma PairEnds(size: nat, p: nat, before: int)
    requires size % 2 == 1 && 0 < p && 2 * p <= size - 1 && before == PairColumn(size, p - 1)
    ensures before >= 1 && PathFrom(size, before, size) == PathFrom(size, PairColumn(size, p), 0)
  {
    assert Adjusted(before - 2) == PairColumn(size, p);
  }

  lemma ZigzagLength(size: nat)
    requires size % 2 == 1 && size >= 7
    ensures |Zigzag(size)| == size * (size - 1)
  {
    var p := size / 2;
    AfterPairs(size, p);
    StartIsProduct(size, p);
    LastPair(size, p);
  }

  lemma LastPair(size: nat, p: nat)
    requires size == 2 * p + 1 && p >= 3
    ensures PathFrom(size, PairColumn(size, p), 0) == [] && 2 * size * p == size * (size - 1)
  {}

  lemma UpwardInTurn(size: nat, p: nat)
    requires size % 2 == 1 && size >= 7 && 2 * p < size - 1
    ensures Upward(PairColumn(size, p)) <==> ((p % 2 == 0) <==> (size % 4 == 1))
  {}

  lemma CellOfPair(size: nat, right: int, v: nat, j: nat, pair: seq<Cell>)
    requires 1 <= right && v < size && j < 2 && pair == PathFrom(size, right, 0)
    ensures 2 * v + j < |pair| && pair[2 * v + j] == Cell(right - j, RowAt(size, right, v))
  {
    var rest := PathFrom(size, right, v);
    AfterRows(size, right, v, 2 * v);
    assert pair[2 * v..][j] == rest[j];
  }

  /**
    * Cell by cell: two columns at a time from the right, passing over column 6, row by row, each row from the right,
    * the pairs of columns in turn upward and downward. On a symbol, of size 1 modulo 4, the first pair goes upward.
    */
  lemma ZigzagAt(size: nat, p: nat, v: nat, j: nat, i: nat)
    requires size % 2 == 1 && size >= 7 && 2 * p < size - 1 && v < size && j < 2 && i == 2 * size * p + 2 * v + j
    ensures i < |Zigzag(size)| == size * (size - 1)
    ensures var right := size - 1 - 2 * p;
      Zigzag(size)[i] == Cell((if right <= 6 then right - 1 else right) - j,
                              if (p % 2 == 0) == (size % 4 == 1) then size - 1 - v else v)
  {
    var right, n, all := PairColumn(size, p), PairStart(size, p), Zigzag(size);
    AfterPairs(size, p);
    StartIsProduct(size, p);
    ZigzagLength(size);
    CellOfPair(size, right, v, j, all[n..]);
    InTail(all, n, 2 * v + j, i);
    UpwardInTurn(size, p);
  }

  lemma InTail<T>(s: seq<T>, n: nat, k: nat, i: nat)
    requires n <= |s| && k < |s[n..]| && i == n + k
    ensures i < |s| && s[i] == s[n..][k]
  {}

  // ----- Drawing and scanning along a path -----

  ghost predicate On(path: seq<Cell>, size: nat) {
    forall i :: 0 <= i < |path| ==> Inside(path[i], size)
  }

  /** The cells of a path that are not function modules. */
  function Free(isFunction: Grid, size: nat, path: seq<Cell>): (f: seq<Cell>)
    requires Square(isFunction, size) && On(path, size)
  {
    if path == [] then []
    else (if At(isFunction, size, path[0]) then [] else [path[0]]) + Free(isFunction, size, path[1..])
  }

  /** Draws the bits on the free cells of a path, one after the other. */
  function Draw(g: Grid, isFunction: Grid, size: nat, path: seq<Cell>, bits: seq<bool>): (r: Grid)
    requires Square(g, size) && Square(isFunction, size) && On(path, size)
    ensures Square(r, size)
    decreases |path|
  {
    if path == [] || bits == [] then g
    else if At(isFunction, size, path[0]) then Draw(g, isFunction, size, path[1..], bits)
    else Draw(Put(g, size, path[0], bits[0]), isFunction, size, path[1..], bits[1..])
  }

  /** Reads the free cells of a path. */
  function Scan(g: Grid, isFunction: Grid, size: nat, path: seq<Cell>): (bits: seq<bool>)
    requires Square(g, size) && Square(isFunction, size) && On(path, size)
    ensures |bits| == |Free(isFunction, size, path)|
  {
    if path == [] then []
    else (if At(isFunction, size, path[0]) then [] else [At(g, size, path[0])]) + Scan(g, isFunction, size, path[1..])
  }

  lemma {:induction false} ScanAt(g: Grid, isFunction: Grid, size: nat, path: seq<Cell>, k: nat)
    requires Square(g, size) && Square(isFunction, size) && On(path, size)
    requires k < |Free(isFunction, size, path)|
    ensures Inside(Free(isFunction, size, path)[k], size)
    ensures Scan(g, isFunction, size, path)[k] == At(g, size, Free(isFunction, size, path)[k])
  {
    if At(isFunction, size, path[0]) {
      ScanAt(g, isFunction, size, path[1..], k);
    } else if k > 0 {
      ScanAt(g, isFunction, size, path[1..], k - 1);
    }
  }

  /** Drawing changes nothing off the path and no function module. */
  lemma {:induction false} DrawFrame(g: Grid, isFunction: Grid, size: nat, path: seq<Cell>, bits: seq<bool>, c: Cell)
    requires Square(g, size) && Square(isFunction, size) && On(path, size) && Inside(c, size)
    requires c !in path || At(isFunction, size, c)
    ensures At(Draw(g, isFunction, size, path, bits), size, c) == At(g, size, c)
    decreases |path|
  {
    if path != [] && bits != [] {
      if At(isFunction, size, path[0]) {
        DrawFrame(g, isFunction, size, path[1..], bits, c);
      } else {
        DrawFrame(Put(g, size, path[0], bits[0]), isFunction, size, path[1..], bits[1..], c);
      }
    }
  }

  /** The k-th free module of the path holds bit k, and the free modules beyond the bits are as before. */
  lemma {:induction false} ScanOfDraw(g: Grid, isFunction: Grid, size: nat, path: seq<Cell>, bits: seq<bool>)
    requires Square(g, size) && Square(isFunction, size) && On(path, size) && NoRepeats(path)
    ensures var n := |Free(isFunction, size, path)|;
      Scan(Draw(g, isFunction, size, path, bits), isFunction, size, path)
      == if |bits| <= n then bits + Scan(g, isFunction, size, path)[|bits|..] else bits[..n]
    decreases |path|
  {
    if path != [] && bits != [] {
      var c, rest := path[0], path[1..];
      assert path == [c] + rest && c !in rest;
      if At(isFunction, size, c) {
        ScanOfDraw(g, isFunction, size, rest, bits);
      } else {
        ScanOfDraw(Put(g, size, c, bits[0]), isFunction, size, rest, bits[1..]);
        DrawFirst(g, isFunction, size, path, bits);
        ScanFirst(g, isFunction, size, path);
        ScannedBits(bits, At(g, size, c), Scan(g, isFunction, size, rest));
      }
    }
  }

  /** The first free module of a path holds the first bit. */
  /** The bits that a scan gives, when the first free cell has got the first bit. */
  lemma ScannedBits(bits: seq<bool>, first: bool, rest: seq<bool>)
    requires bits != []
    ensures [bits[0]] + (if |bits| - 1 <= |rest| then bits[1..] + rest[|bits| - 1..] else bits[1..][..|rest|])
         == if |bits| <= |rest| + 1 then bits + ([first] + rest)[|bits|..] else bits[..|rest| + 1]
  {
    assert bits == [bits[0]] + bits[1..];
  }

  lemma DrawFirst(g: Grid, isFunction: Grid, size: nat, path: seq<Cell>, bits: seq<bool>)
    requires Square(g, size) && Square(isFunction, size) && On(path, size)
    requires path != [] && bits != [] && path[0] !in path[1..] && !At(isFunction, size, path[0])
    ensures var h := Put(g, size, path[0], bits[0]);
      && Scan(Draw(g, isFunction, size, path, bits), isFunction, size, path)
         == [bits[0]] + Scan(Draw(h, isFunction, size, path[1..], bits[1..]), isFunction, size, path[1..])
      && Scan(h, isFunction, size, path[1..]) == Scan(g, isFunction, size, path[1..])
  {
    var h := Put(g, size, path[0], bits[0]);
    DrawFrame(h, isFunction, size, path[1..], bits[1..], path[0]);
    ScanFirst(Draw(h, isFunction, size, path[1..], bits[1..]), isFunction, size, path);
    ScanUnchanged(g, h, isFunction, size, path[1..]);
  }

  lemma ScanFirst(g: Grid, isFunction: Grid, size: nat, path: seq<Cell>)
    requires Square(g, size) && Square(isFunction, size) && On(path, size)
    requires path != [] && !At(isFunction, size, path[0])
    ensures Scan(g, isFunction, size, path) == [At(g, size, path[0])] + Scan(g, isFunction, size, path[1..])
  {}

  /** A scan sees only the free modules of its path. */
  lemma {:induction false} ScanUnchanged(g: Grid, h: Grid, isFunction: Grid, size: nat, path: seq<Cell>)
    requires Square(g, size) && Square(h, size) && Square(isFunction, size) && On(path, size)
    requires forall c :: c in path && !At(isFunction, size, c) ==> At(g, size, c) == At(h, size, c)
    ensures Scan(g, isFunction, size, path) == Scan(h, isFunction, size, path)
  {
    if path != [] {
      ScanUnchanged(g, h, isFunction, size, path[1..]);
    }
  }

  lemma {:induction false} PathFromOn(size: nat, right: int, vert: nat)
    requires right < size
    ensures On(PathFrom(size, right, vert), size)
    decreases right, size - vert
  {
    if right >= 1 {
      if vert >= size {
        PathFromOn(size, Adjusted(right - 2), 0);
      } else {
        PathFromOn(size, right, vert + 1);
      }
    }
  }
}

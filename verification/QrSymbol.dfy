/** The symbol under construction: the encoder's methods that write modules in place. */
module QrSymbol {
  import opened Arithmetic
  import opened Results
  import opened Gf256
  import opened BitStrings
  import opened Placement
  import opened Masking
  import opened FormatWords

  /** The bound that the encoder asserts on every penalty. */
  const MAX_PENALTY := 2568888

  /** The least that the type of a penalty must be able to hold. */
  const LONG_MAX := 0x7FFF_FFFF

  class QrCode {
    const size: nat
    /** The error correction level, in two bits of the format information. */
    const level: nat
    /** The 15 format bits for each mask. */
    const format: nat -> seq<bool>
    /** How many codewords the symbol takes. */
    const rawCodewords: nat
    var modules: Grid
    var isFunction: Grid
    var mask: int

    /** Takes over the function patterns that have been drawn on an otherwise light grid. */
    constructor (size: nat, level: nat, rawCodewords: nat, modules: Grid, isFunction: Grid)
      requires Square(modules, size) && FormatReserved(isFunction, size) && level < 4
      ensures Valid()
      ensures this.size == size && this.level == level && this.rawCodewords == rawCodewords
      ensures this.modules == modules && this.isFunction == isFunction
    {
      this.size, this.level, this.format, this.rawCodewords := size, level, FormatOf(level), rawCodewords;
      this.modules, this.isFunction, mask := modules, isFunction, -1;
    }

    ghost predicate Valid()
      reads this
    {
      Square(modules, size) && FormatReserved(isFunction, size) && level < 4 && format == FormatOf(level)
    }

    method SetFunctionModule(x: nat, y: nat, isDark: bool)
      requires Square(modules, size) && Square(isFunction, size) && x < size && y < size
      modifies this`modules, this`isFunction
      ensures Square(modules, size) && Square(isFunction, size)
      ensures modules == Put(old(modules), size, Cell(x, y), isDark)
      ensures isFunction == Put(old(isFunction), size, Cell(x, y), true)
    {
      modules := modules[y := modules[y][x := isDark]];
      isFunction := isFunction[y := isFunction[y][x := true]];
    }

    /**
      * Draws the bits of the codewords along the zigzag and returns
      * how many were drawn; refuses a wrong number of codewords.
      */
    method DrawCodewords(data: seq<Byte>) returns (r: Result<nat>)
      requires Valid()
      modifies this`modules
      ensures Valid() && On(Zigzag(size), size)
      ensures r.Ok? <==> |data| == rawCodewords
      ensures modules == if r.Ok? then Draw(old(modules), isFunction, size, Zigzag(size), ToBits(data))
        else old(modules)
      ensures r.Ok? ==> r.value == Least(|Free(isFunction, size, Zigzag(size))|, 8 * |data|)
    {
      PathFromOn(size, Adjusted(size - 1), 0);
      if |data| != rawCodewords {
        return Err("Invalid argument");
      }
      var i := DrawAll(data);
      return Ok(i);
    }

    method DrawAll(data: seq<Byte>) returns (i: nat)
      requires Valid() && On(Zigzag(size), size)
      modifies this`modules
      ensures Valid()
      ensures modules == Draw(old(modules), isFunction, size, Zigzag(size), ToBits(data))
      ensures i == Least(|Free(isFunction, size, Zigzag(size))|, 8 * |data|)
    {
      i := 0;
      var right: int := size - 1;
      while right >= 1
        invariant right < size
        invariant Pending(PathFrom(size, Adjusted(right), 0), data, i, old(modules))
        decreases right
      {
        if right == 6 {
          right := 5;
        }
        i := DrawPair(right, data, i, old(modules));
        right := right - 2;
      }
    }

    /** The inner loops: one pair of columns. */
    method DrawPair(right: int, data: seq<Byte>, i: nat, ghost start: Grid) returns (k: nat)
      requires 1 <= right < size && Pending(PathFrom(size, right, 0), data, i, start)
      modifies this`modules
      ensures Pending(PathFrom(size, Adjusted(right - 2), 0), data, k, start)
    {
      k := i;
      ghost var path := PathFrom(size, right, 0);
      for vert := 0 to size
        invariant path == PathFrom(size, right, vert) && Pending(path, data, k, start)
      {
        ghost var rest := PathFrom(size, right, vert + 1);
        PathRow(size, right, vert, rest);
        k := DrawRow(right, vert, data, k, path, rest, start);
        path := rest;
      }
      PathEnd(size, right);
    }

    /** The innermost loop: the two modules of one row. */
    method DrawRow(right: int, vert: nat, data: seq<Byte>, i: nat,
        ghost path: seq<Cell>, ghost rest: seq<Cell>, ghost start: Grid)
      returns (k: nat)
      requires Pending(path, data, i, start) && path == PairFrom(right, RowAt(size, right, vert), 0, rest)
      modifies this`modules
      ensures Pending(rest, data, k, start)
    {
      k := i;
      ghost var y := RowAt(size, right, vert);
      for j := 0 to 2
        invariant Pending(PairFrom(right, y, j, rest), data, k, start)
      {
        k := DrawModule(right, vert, j, data, k, rest, start);
      }
    }

    /** The body of the loops: draws the next bit, if there is one, unless this is a function module. */
    method DrawModule(right: int, vert: nat, j: nat, data: seq<Byte>, i: nat, ghost rest: seq<Cell>, ghost start: Grid)
      returns (k: nat)
      requires j < 2 && Pending(PairFrom(right, RowAt(size, right, vert), j, rest), data, i, start)
      modifies this`modules
      ensures Pending(PairFrom(right, RowAt(size, right, vert), j + 1, rest), data, k, start)
    {
      var x := right - j;
      var upward := (right + 1) / 2 % 2 == 0;
      var y := if upward then size - 1 - vert else vert;
      PairStep(right, y, j, rest);
      k := DrawAt(x, y, data, i, PairFrom(right, y, j + 1, rest), start);
    }

    /** Draws the next bit, if there is one, on the next module of the path unless that is a function module. */
    method DrawAt(x: int, y: int, data: seq<Byte>, i: nat, ghost after: seq<Cell>, ghost start: Grid) returns (k: nat)
      requires Pending([Cell(x, y)] + after, data, i, start)
      modifies this`modules
      ensures Pending(after, data, k, start)
    {
      DrawNext(modules, isFunction, size, Cell(x, y), after, ToBits(data), i, start);
      k := i;
      if !isFunction[y][x] && i < |data| * 8 {
        BitOfBytes(data, i);
        modules := modules[y := modules[y][x := Bit(data[i / 8], 7 - i % 8)]];
        k := i + 1;
      }
    }

    /** Flips the free modules that the mask selects; refuses other masks than the eight. */
    method ApplyMask(msk: int) returns (r: Result<()>)
      requires Valid()
      modifies this`modules
      ensures Valid() && (r.Ok? <==> 0 <= msk < 8)
      ensures modules == if r.Ok? then Masked(old(modules), isFunction, size, msk) else old(modules)
    {
      if msk < 0 || msk > 7 {
        return Err("Mask value out of range");
      }
      FlipModules(msk);
      return Ok(());
    }

    method FlipModules(msk: nat)
      requires Valid() && msk < 8
      modifies this`modules
      ensures Valid() && modules == Masked(old(modules), isFunction, size, msk)
    {
      ghost var after := Masked(modules, isFunction, size, msk);
      for y := 0 to size
        invariant Valid() && Halfway(old(modules), after, 0, y)
      {
        for x := 0 to size
          invariant Valid() && Halfway(old(modules), after, x, y)
        {
          MaskModule(msk, x, y);
        }
      }
      SameGrid(modules, after, size);
    }

    /** The modules before (x, y) in reading order are those of the second grid, the others those of the first. */
    ghost predicate Halfway(g: Grid, h: Grid, x: nat, y: nat)
      reads this
    {
      && Square(modules, size) && Square(g, size) && Square(h, size)
      && forall c :: Inside(c, size) ==>
           At(modules, size, c) == if c.y < y || (c.y == y && c.x < x) then At(h, size, c) else At(g, size, c)
    }

    method MaskModule(msk: nat, x: nat, y: nat)
      requires Valid() && msk < 8 && x < size && y < size
      modifies this`modules
      ensures Valid()
      ensures var c := Cell(x, y);
        modules == Put(old(modules), size, c, At(old(modules), size, c) != Flips(isFunction, size, msk, c))
    {
      var invert := Inverts(msk, x, y);
      var flipped := modules[y][x] != (invert && !isFunction[y][x]);
      modules := modules[y := modules[y][x := flipped]];
    }

    /** Draws both copies of the format information for a mask, and the module that is always dark. */
    method DrawFormatBits(msk: nat)
      requires Valid() && msk < 8
      modifies this`modules, this`isFunction
      ensures Valid() && isFunction == old(isFunction)
      ensures modules == DrawFormat(old(modules), size, format(msk), 31)
      ensures ShowsFormat(modules, size, FormatBits(level, msk)) && OnlyFormat(old(modules), modules, size)
    {
      ghost var start := modules;
      var bits := ComputeFormatBits(level, msk);
      for i := 0 to 6
        invariant isFunction == old(isFunction) && Drawn(start, msk, i)
      {
        FormatModule(8, i, GetBit(bits, i), msk, i, start);
      }
      FormatModule(8, 7, GetBit(bits, 6), msk, 6, start);
      FormatModule(8, 8, GetBit(bits, 7), msk, 7, start);
      FormatModule(7, 8, GetBit(bits, 8), msk, 8, start);
      for i := 9 to 15
        invariant isFunction == old(isFunction) && Drawn(start, msk, i)
      {
        FormatModule(14 - i, 8, GetBit(bits, i), msk, i, start);
      }
      for i := 0 to 8
        invariant isFunction == old(isFunction) && Drawn(start, msk, 15 + i)
      {
        FormatModule(size - 1 - i, 8, GetBit(bits, i), msk, 15 + i, start);
      }
      for i := 8 to 15
        invariant isFunction == old(isFunction) && Drawn(start, msk, 15 + i)
      {
        FormatModule(8, size - 15 + i, GetBit(bits, i), msk, 15 + i, start);
      }
      FormatModule(8, size - 8, true, msk, 30, start);
      FormatIsShown(start, size, format(msk));
    }

    /** The k-th call of SetFunctionModule for the format information. */
    method FormatModule(x: nat, y: nat, isDark: bool, msk: nat, ghost k: nat, ghost start: Grid)
      requires Drawn(start, msk, k) && k < 31
      requires Cell(x, y) == FormatCell(size, k) && isDark == FormatValue(format(msk), k)
      modifies this`modules, this`isFunction
      ensures isFunction == old(isFunction) && Drawn(start, msk, k + 1)
    {
      assert At(isFunction, size, FormatCell(size, k));
      PutSame(isFunction, size, Cell(x, y), true);
      SetFunctionModule(x, y, isDark);
    }

    /** The first k format modules have been drawn. */
    ghost predicate Drawn(start: Grid, msk: nat, k: nat)
      reads this
    {
      && Valid() && Square(start, size) && k <= 31
      && modules == DrawFormat(start, size, format(msk), k)
    }

    /** Masks the symbol: with the given mask, or for -1 with one whose trial has the least penalty. */
    method DoMasking(msk: int, penaltyScore: Grid -> int) returns (r: Result<nat>)
      requires Valid()
      requires forall g :: 0 <= penaltyScore(g) <= MAX_PENALTY
      modifies this`modules, this`isFunction, this`mask
      ensures Valid() && isFunction == old(isFunction)
      ensures r.Ok? <==> -1 <= msk <= 7
      ensures r.Err? ==> modules == old(modules)
      ensures r.Ok? ==> r.value < 8 && mask == r.value
      ensures r.Ok? ==> modules == Trial(old(modules), isFunction, size, format, r.value)
      ensures r.Ok? ==> IsChoice(msk, old(modules), isFunction, size, format, penaltyScore, r.value)
    {
      if msk < -1 || msk > 7 {
        return Err("Mask value out of range");
      }
      ghost var start := modules;
      var best := msk;
      if msk == -1 {
        best := ChooseMask(penaltyScore);
        TrialAfterFormat(start, isFunction, size, format, format(7), best);
      }
      mask := best;
      var applied := ApplyMask(best);
      DrawFormatBits(best);
      return Ok(best);
    }

    /** One trial: its penalty, and the data modules as they were before it. */
    method TryMask(i: nat, penaltyScore: Grid -> int, ghost start: Grid) returns (penalty: int)
      requires Valid() && Square(start, size) && i < 8
      requires modules == start || exists m :: modules == DrawFormat(start, size, format(m), 31)
      modifies this`modules, this`isFunction
      ensures Valid() && isFunction == old(isFunction)
      ensures modules == DrawFormat(start, size, format(i), 31)
      ensures penalty == penaltyScore(Trial(start, isFunction, size, format, i))
    {
      ghost var before := modules;
      if modules != start {
        ghost var m :| modules == DrawFormat(start, size, format(m), 31);
        TrialAfterFormat(start, isFunction, size, format, format(m), i);
        FormatReplaces(start, size, format(m), format(i));
      }
      var applied := ApplyMask(i);
      DrawFormatBits(i);
      penalty := penaltyScore(modules);
      Unmasked(before, isFunction, size, format, i);
      applied := ApplyMask(i);
    }

    /** The trial loop. It leaves every data module as it was, and some format information behind. */
    method ChooseMask(penaltyScore: Grid -> int) returns (best: nat)
      requires Valid()
      requires forall g :: 0 <= penaltyScore(g) <= MAX_PENALTY
      modifies this`modules, this`isFunction
      ensures Valid() && isFunction == old(isFunction)
      ensures modules == DrawFormat(old(modules), size, format(7), 31)
      ensures IsBestBelow(8, Penalties(old(modules), isFunction, size, format, penaltyScore), best)
    {
      ghost var start, penalties := modules, Penalties(modules, isFunction, size, format, penaltyScore);
      var minPenalty := LONG_MAX;
      best := 0;
      for i := 0 to 8
        invariant Valid() && isFunction == old(isFunction)
        invariant i == 0 ==> modules == start && minPenalty == LONG_MAX
        invariant i > 0 ==> modules == DrawFormat(start, size, format(i - 1), 31)
        invariant i > 0 ==> IsBestBelow(i, penalties, best) && minPenalty == penalties(best)
      {
        var penalty := TryMask(i, penaltyScore, start);
        assert penalty == penalties(i) && penalty < LONG_MAX;
        BestOfNext(i, penalties, best);
        if penalty < minPenalty {
          best := i;
          minPenalty := penalty;
        }
      }
    }

    /** Drawing the bits from i on along the rest of the path completes the drawing of all bits. */
    ghost predicate Pending(path: seq<Cell>, data: seq<Byte>, i: nat, start: Grid)
      reads this
    {
      Valid() && IsPending(modules, isFunction, size, path, ToBits(data), i, start)
    }
  }

  /** What is left to draw completes the drawing of all the bits along the zigzag. */
  ghost predicate IsPending(g: Grid, isFunction: Grid, size: nat, path: seq<Cell>, bits: seq<bool>, i: nat, start: Grid)
    requires Square(g, size) && Square(isFunction, size)
  {
    && Square(start, size) && i <= |bits|
    && On(path, size) && On(Zigzag(size), size)
    && Draw(g, isFunction, size, path, bits[i..]) == Draw(start, isFunction, size, Zigzag(size), bits)
    && i + Least(|Free(isFunction, size, path)|, |bits| - i) == Least(|Free(isFunction, size, Zigzag(size))|, |bits|)
  }

  /** The next bit, if there is one, goes to the first cell unless that is a function module. */
  lemma DrawNext(g: Grid, isFunction: Grid, size: nat, c: Cell, after: seq<Cell>, bits: seq<bool>, i: nat, start: Grid)
    requires Square(g, size) && Square(isFunction, size) && IsPending(g, isFunction, size, [c] + after, bits, i, start)
    ensures Inside(c, size)
    ensures if At(isFunction, size, c) || i == |bits| then IsPending(g, isFunction, size, after, bits, i, start)
            else IsPending(Put(g, size, c, bits[i]), isFunction, size, after, bits, i + 1, start)
  {
    var path := [c] + after;
    assert Inside(path[0], size) && path[1..] == after;
    assert forall k :: 0 <= k < |after| ==> after[k] == path[k + 1];
    if i < |bits| { assert bits[i..][1..] == bits[i + 1..]; }
  }

  lemma PathRow(size: nat, right: int, vert: nat, rest: seq<Cell>)
    requires 1 <= right && vert < size && rest == PathFrom(size, right, vert + 1)
    ensures PathFrom(size, right, vert) == PairFrom(right, RowAt(size, right, vert), 0, rest)
  {}

  lemma PathEnd(size: nat, right: int)
    requires 1 <= right
    ensures PathFrom(size, right, size) == PathFrom(size, Adjusted(right - 2), 0)
  {}

  lemma PairStep(right: int, y: int, j: nat, rest: seq<Cell>)
    requires j < 2
    ensures PairFrom(right, y, j, rest) == [Cell(right - j, y)] + PairFrom(right, y, j + 1, rest)
  {}

  /** What is left of one row of a pair of columns, followed by the rest of the path. */
  ghost function PairFrom(right: int, y: int, j: nat, rest: seq<Cell>): seq<Cell> {
    if j == 0 then [Cell(right, y), Cell(right - 1, y)] + rest
    else if j == 1 then [Cell(right - 1, y)] + rest
    else rest
  }
}

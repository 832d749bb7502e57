/** The eight masks as pictures. */
module MaskPatterns {
  import opened Masking

  /** The tile that a mask repeats over the symbol, from the upper left corner; # marks the modules that it changes. */
  function Tile(msk: nat): (rows: seq<string>)
    requires msk < 8
    ensures 0 < |rows| && |rows| <= 6
    ensures 0 < |rows[0]| <= 6 && forall i :: 0 <= i < |rows| ==> |rows[i]| == |rows[0]|
  {
    match msk
    case 0 => ["#.", ".#"]
    case 1 => ["#", "."]
    case 2 => ["#.."]
    case 3 => ["#..", "..#", ".#."]
    case 4 => ["###...", "###...", "...###", "...###"]
    case 5 => ["######", "#.....", "#..#..", "#.#.#.", "#..#..", "#....."]
    case 6 => ["######", "###...", "##.##.", "#.#.#.", "#.##.#", "#...##"]
    case _ => ["#.#.#.", "...###", "#...##", ".#.#.#", "###...", ".###.."]
  }

  lemma SixTimes(x: nat, m: nat)
    requires m == 2 || m == 3
    ensures x % m == x % 6 % m
  {}

  /** The remainder of a product is that of the product of remainders. */
  lemma ProductRemainder(x: nat, y: nat, m: nat)
    requires m == 2 || m == 3
    ensures x * y % m == (x % 6) * (y % 6) % m
  {
    var r, s, a, b := x % 6, y % 6, x / 6, y / 6;
    SixesOut(x, y, a, r, b, s);
    WholeSixes(a * y + r * b, r * s, x * y, m);
  }

  lemma SixesOut(x: nat, y: nat, a: nat, r: nat, b: nat, s: nat)
    requires x == 6 * a + r && y == 6 * b + s
    ensures x * y == 6 * (a * y + r * b) + r * s
  {
    assert (6 * a + r) * y == 6 * (a * y) + r * y;
    assert r * (6 * b + s) == 6 * (r * b) + r * s;
  }

  lemma WholeSixes(n: int, t: int, z: int, m: nat)
    requires (m == 2 || m == 3) && z == 6 * n + t
    ensures z % m == t % m
  {
    if m == 2 { Evenly(3 * n, t, z); } else { ByThree(2 * n, t, z); }
  }

  lemma Evenly(k: int, t: int, z: int)
    requires z == 2 * k + t
    ensures z % 2 == t % 2
  {}

  lemma ByThree(k: int, t: int, z: int)
    requires z == 3 * k + t
    ensures z % 3 == t % 3
  {}

  lemma InOneTile(msk: nat, x: nat, y: nat)
    requires msk < 8
    ensures var rows := Tile(msk); Inverts(msk, x, y) == Inverts(msk, x % |rows[0]|, y % |rows|)
  {
    match msk
    case 0 => SumRemainder(x, y, 0);
    case 1 => StripesInTile(x, y);
    case 2 => StripesInTile(x, y);
    case 3 => SumRemainder(x, y, 3);
    case 4 => BlockRemainder(x, y);
    case 5 => ProductsInTile(5, x, y);
    case 6 => ProductsInTile(6, x, y);
    case _ => ProductsInTile(7, x, y);
  }

  lemma StripesInTile(x: nat, y: nat)
    ensures Inverts(1, x, y) == Inverts(1, x % 1, y % 2) && Inverts(2, x, y) == Inverts(2, x % 3, y % 1)
  {}

  lemma SumRemainder(x: nat, y: nat, msk: nat)
    requires msk == 0 || msk == 3
    ensures var m := if msk == 0 then 2 else 3; (x + y) % m == (x % m + y % m) % m
  {}

  lemma BlockRemainder(x: nat, y: nat)
    ensures (x / 3 + y / 2) % 2 == (x % 6 / 3 + y % 4 / 2) % 2
  {
    assert x / 3 == 2 * (x / 6) + x % 6 / 3 && y / 2 == 2 * (y / 4) + y % 4 / 2;
  }

  lemma ProductsInTile(msk: nat, x: nat, y: nat)
    requires 5 <= msk < 8
    ensures Inverts(msk, x, y) == Inverts(msk, x % 6, y % 6)
  {
    ProductRemainder(x, y, 2);
    ProductRemainder(x, y, 3);
    SixTimes(x, 2);
    SixTimes(y, 2);
    SumRemainder(x, y, 0);
    SumRemainder(x % 6, y % 6, 0);
  }

  lemma TileIsMask(msk: nat, x: nat, y: nat)
    requires msk < 8 && y < |Tile(msk)| && x < |Tile(msk)[0]|
    ensures Inverts(msk, x, y) == (Tile(msk)[y][x] == '#')
  {
    match msk
    case 5 => Row5(x, y);
    case 6 => Row6(x, y);
    case 7 => Row7(x, y);
    case _ =>
  }

  lemma Row5(x: nat, y: nat)
    requires x < 6 && y < 6
    ensures Inverts(5, x, y) == (Tile(5)[y][x] == '#')
  {
    assert x == 0 || x == 1 || x == 2 || x == 3 || x == 4 || x == 5;
    assert y == 0 || y == 1 || y == 2 || y == 3 || y == 4 || y == 5;
  }

  lemma Row6(x: nat, y: nat)
    requires x < 6 && y < 6
    ensures Inverts(6, x, y) == (Tile(6)[y][x] == '#')
  {
    assert x == 0 || x == 1 || x == 2 || x == 3 || x == 4 || x == 5;
    assert y == 0 || y == 1 || y == 2 || y == 3 || y == 4 || y == 5;
  }

  lemma Row7(x: nat, y: nat)
    requires x < 6 && y < 6
    ensures Inverts(7, x, y) == (Tile(7)[y][x] == '#')
  {
    assert x == 0 || x == 1 || x == 2 || x == 3 || x == 4 || x == 5;
    assert y == 0 || y == 1 || y == 2 || y == 3 || y == 4 || y == 5;
  }

  /** Each mask is its tile, repeated. */
  lemma MaskIsTiled(msk: nat, x: nat, y: nat)
    requires msk < 8
    ensures var rows := Tile(msk); Inverts(msk, x, y) == (rows[y % |rows|][x % |rows[0]|] == '#')
  {
    InOneTile(msk, x, y);
    TileIsMask(msk, x % |Tile(msk)[0]|, y % |Tile(msk)|);
  }
}

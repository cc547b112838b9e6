/**
  What the eight masks invert, as pictures: each mask repeats one small tile over the symbol (section 7.8.2 of
  ISO/IEC 18004:2015). Taking a mask off by its tile undoes the formula that put it on.
 */
module QrTiles {
  import opened QrFormat
  import opened QrGrid
  import opened QrSymbol

  /** The tile that mask m repeats, its dark cells inverted. */
  function Tile(m: Mask): (t: seq<string>)
    ensures |t| == TileHeight(m) && forall y :: 0 <= y < |t| ==> |t[y]| == 6
  {
    match m
    case 0 => ["#.#.#.", ".#.#.#", "#.#.#.", ".#.#.#", "#.#.#.", ".#.#.#"]
    case 1 => ["######", "......", "######", "......", "######", "......"]
    case 2 => ["#..#..", "#..#..", "#..#..", "#..#..", "#..#..", "#..#.."]
    case 3 => ["#..#..", "..#..#", ".#..#.", "#..#..", "..#..#", ".#..#."]
    case 4 => ["###...", "###...", "...###", "...###"]
    case 5 => ["######", "#.....", "#..#..", "#.#.#.", "#..#..", "#....."]
    case 6 => ["######", "###...", "##.##.", "#.#.#.", "#.##.#", "#...##"]
    case _ => ["#.#.#.", "...###", "#...##", ".#.#.#", "###...", ".###.."]
  }

  function TileHeight(m: Mask): nat {
    if m == 4 then 4 else 6
  }

  predicate Tiled(m: Mask, x: nat, y: nat) {
    Tile(m)[y % TileHeight(m)][x % 6] == '#'
  }

  // ----- Products, by remainders -----

  predicate BothOdd(x: nat, y: nat) {
    x % 2 == 1 && y % 2 == 1
  }

  /** The remainder of x * y by 3. */
  function Third(x: nat, y: nat): nat {
    if x % 3 == 0 || y % 3 == 0 then 0 else if x % 3 == y % 3 then 1 else 2
  }

  lemma Halves(x: nat, q: int, r: nat)
    requires x == 2 * q + r && r < 2
    ensures x % 2 == r
  {}

  lemma Thirds(x: nat, q: int, r: nat)
    requires x == 3 * q + r && r < 3
    ensures x % 3 == r
  {}

  lemma ProductParts(n: int, a: int, u: int, b: int, v: int)
    ensures (n * a + u) * (n * b + v) == n * (a * (n * b + v) + u * b) + u * v
  {
    assert (n * a + u) * (n * b + v) == n * (a * (n * b + v)) + u * (n * b + v);
    assert u * (n * b + v) == n * (u * b) + u * v;
  }

  lemma ProductHalves(x: nat, y: nat)
    ensures x * y % 2 == (if BothOdd(x, y) then 1 else 0)
  {
    var a, u, b, v := x / 2, x % 2, y / 2, y % 2;
    ProductParts(2, a, u, b, v);
    assert u * v == (if BothOdd(x, y) then 1 else 0);
    Halves(x * y, a * y + u * b, u * v);
  }

  lemma ProductThirds(x: nat, y: nat)
    ensures x * y % 3 == Third(x, y)
  {
    var a, u, b, v := x / 3, x % 3, y / 3, y % 3;
    ProductParts(3, a, u, b, v);
    SmallProduct(u, v);
    Thirds(x * y, a * y + u * b + u * v / 3, u * v % 3);
  }

  lemma SmallProduct(u: nat, v: nat)
    requires u < 3 && v < 3
    ensures u * v % 3 == Third(u, v)
  {
    assert u == 0 || u == 1 || u == 2;
  }

  lemma EvenSum(a: nat, b: nat)
    requires a < 2 && b < 3
    ensures ((a + b) % 2 == 0) == ((a == 1) == (b == 1))
  {
    assert a == 0 || a == 1;
    assert b == 0 || b == 1 || b == 2;
  }

  lemma SumParity(x: nat, y: nat)
    ensures (x + y) % 2 == (if x % 2 == y % 2 then 0 else 1)
  {
    var u, v := x % 2, y % 2;
    Halves(x + y, x / 2 + y / 2 + (if u == v == 1 then 1 else 0), if u == v then 0 else 1);
  }

  /** What the masks invert, without products. */
  predicate ByRemainders(m: Mask, x: nat, y: nat) {
    match m
    case 0 => (x + y) % 2 == 0
    case 1 => y % 2 == 0
    case 2 => x % 3 == 0
    case 3 => (x + y) % 3 == 0
    case 4 => (x / 3 + y / 2) % 2 == 0
    case 5 => !BothOdd(x, y) && Third(x, y) == 0
    case 6 => BothOdd(x, y) == (Third(x, y) == 1)
    case _ => (x % 2 == y % 2) == (Third(x, y) != 1)
  }

  lemma InvertsByRemainders(m: Mask, x: nat, y: nat)
    ensures Inverts(m, x, y) == ByRemainders(m, x, y)
  {
    hide BothOdd, Third;
    ProductHalves(x, y);
    ProductThirds(x, y);
    if m == 6 {
      EvenSum(x * y % 2, x * y % 3);
    } else if m == 7 {
      SumParity(x, y);
      EvenSum((x + y) % 2, x * y % 3);
    }
  }

  // ----- The tiles repeat -----

  lemma Sixes(k: nat, w: nat)
    ensures (6 * k + w) % 2 == w % 2 && (6 * k + w) % 3 == w % 3
  {
    Halves(6 * k + w, 3 * k + w / 2, w % 2);
    Thirds(6 * k + w, 2 * k + w / 3, w % 3);
  }

  lemma RemaindersKept(m: Mask, x: nat, y: nat, u: nat, v: nat)
    requires m != 4 && x % 2 == u % 2 && y % 2 == v % 2 && x % 3 == u % 3 && y % 3 == v % 3
    requires (x + y) % 2 == (u + v) % 2 && (x + y) % 3 == (u + v) % 3
    ensures ByRemainders(m, x, y) == ByRemainders(m, u, v)
  {}

  lemma BlocksRepeat(x: nat, y: nat)
    ensures ByRemainders(4, x, y) == ByRemainders(4, x % 6, y % 4)
  {
    assert x / 3 == 2 * (x / 6) + x % 6 / 3 && y / 2 == 2 * (y / 4) + y % 4 / 2;
  }

  lemma MaskRepeats(m: Mask, x: nat, y: nat)
    ensures ByRemainders(m, x, y) == ByRemainders(m, x % 6, y % TileHeight(m))
  {
    hide ByRemainders;
    if m == 4 {
      BlocksRepeat(x, y);
    } else {
      Sixes(x / 6, x % 6);
      Sixes(y / 6, y % 6);
      Sixes(x / 6 + y / 6, x % 6 + y % 6);
      RemaindersKept(m, x, y, x % 6, y % 6);
    }
  }

  lemma Tile0(x: nat, y: nat)
    requires x < 6 && y < 6
    ensures ByRemainders(0, x, y) == (Tile(0)[y][x] == '#')
  {
    assert y == 0 || y == 1 || y == 2 || y == 3 || y == 4 || y == 5;
    assert x == 0 || x == 1 || x == 2 || x == 3 || x == 4 || x == 5;
  }

  lemma Tile1(x: nat, y: nat)
    requires x < 6 && y < 6
    ensures ByRemainders(1, x, y) == (Tile(1)[y][x] == '#')
  {
    assert y == 0 || y == 1 || y == 2 || y == 3 || y == 4 || y == 5;
    assert x == 0 || x == 1 || x == 2 || x == 3 || x == 4 || x == 5;
  }

  lemma Tile2(x: nat, y: nat)
    requires x < 6 && y < 6
    ensures ByRemainders(2, x, y) == (Tile(2)[y][x] == '#')
  {
    assert y == 0 || y == 1 || y == 2 || y == 3 || y == 4 || y == 5;
    assert x == 0 || x == 1 || x == 2 || x == 3 || x == 4 || x == 5;
  }

  lemma Tile3(x: nat, y: nat)
    requires x < 6 && y < 6
    ensures ByRemainders(3, x, y) == (Tile(3)[y][x] == '#')
  {
    assert y == 0 || y == 1 || y == 2 || y == 3 || y == 4 || y == 5;
    assert x == 0 || x == 1 || x == 2 || x == 3 || x == 4 || x == 5;
  }

  lemma Tile4(x: nat, y: nat)
    requires x < 6 && y < 4
    ensures ByRemainders(4, x, y) == (Tile(4)[y][x] == '#')
  {
    assert y == 0 || y == 1 || y == 2 || y == 3;
    assert x == 0 || x == 1 || x == 2 || x == 3 || x == 4 || x == 5;
  }

  lemma Tile5(x: nat, y: nat)
    requires x < 6 && y < 6
    ensures ByRemainders(5, x, y) == (Tile(5)[y][x] == '#')
  {
    assert y == 0 || y == 1 || y == 2 || y == 3 || y == 4 || y == 5;
    assert x == 0 || x == 1 || x == 2 || x == 3 || x == 4 || x == 5;
  }

  lemma Tile6(x: nat, y: nat)
    requires x < 6 && y < 6
    ensures ByRemainders(6, x, y) == (Tile(6)[y][x] == '#')
  {
    assert y == 0 || y == 1 || y == 2 || y == 3 || y == 4 || y == 5;
    assert x == 0 || x == 1 || x == 2 || x == 3 || x == 4 || x == 5;
  }

  lemma Tile7(x: nat, y: nat)
    requires x < 6 && y < 6
    ensures ByRemainders(7, x, y) == (Tile(7)[y][x] == '#')
  {
    assert y == 0 || y == 1 || y == 2 || y == 3 || y == 4 || y == 5;
    assert x == 0 || x == 1 || x == 2 || x == 3 || x == 4 || x == 5;
  }

  /** A mask inverts exactly the dark cells of its tile, repeated over the whole symbol. */
  lemma MaskIsTiled(m: Mask, x: nat, y: nat)
    ensures Inverts(m, x, y) == Tiled(m, x, y)
  {
    hide Tile, Inverts, ByRemainders;
    InvertsByRemainders(m, x, y);
    MaskRepeats(m, x, y);
    var u, v := x % 6, y % TileHeight(m);
    match m
    case 0 => Tile0(u, v);
    case 1 => Tile1(u, v);
    case 2 => Tile2(u, v);
    case 3 => Tile3(u, v);
    case 4 => Tile4(u, v);
    case 5 => Tile5(u, v);
    case 6 => Tile6(u, v);
    case _ => Tile7(u, v);
  }

  // ----- Taking a mask off -----

  /** The grid with its free modules inverted wherever the tile of the mask is dark. */
  ghost function Unmasked(f: Grid, size: nat, m: Mask, g: Grid): (r: Grid)
    requires Square(f, size) && Square(g, size)
    ensures Square(r, size)
    ensures forall y, x :: 0 <= y < size && 0 <= x < size ==>
              r[y][x] == (g[y][x] != (Tiled(m, x, y) && !f[y][x]))
  {
    seq(size, y requires 0 <= y < size =>
      seq(size, x requires 0 <= x < size => g[y][x] != (Tiled(m, x, y) && !f[y][x])))
  }

  lemma UnmaskedIs(f: Grid, size: nat, m: Mask, g: Grid)
    requires Square(f, size) && Square(g, size)
    ensures Unmasked(f, size, m, g) == Masked(f, size, m, g)
  {
    hide Inverts, Tiled;
    forall y, x | 0 <= y < size && 0 <= x < size
      ensures Unmasked(f, size, m, g)[y][x] == Masked(f, size, m, g)[y][x]
    {
      MaskIsTiled(m, x, y);
    }
    SameGrid(Unmasked(f, size, m, g), Masked(f, size, m, g), size);
  }

  /** Taking a mask off by its tile gives back the grid that it was put on. */
  lemma UnmaskedMasked(f: Grid, size: nat, m: Mask, g: Grid)
    requires Square(f, size) && Square(g, size)
    ensures Unmasked(f, size, m, Masked(f, size, m, g)) == g
  {
    hide Inverts, Tiled;
    UnmaskedIs(f, size, m, Masked(f, size, m, g));
    MaskInvolution(f, size, m, g);
  }
}

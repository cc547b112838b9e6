/** Square grids of modules: light (false) and dark (true), indexed by row and then column. */
module QrGrid {
  type Grid = seq<seq<bool>>

  ghost predicate Square(g: Grid, size: nat) {
    |g| == size && forall y :: 0 <= y < size ==> |g[y]| == size
  }

  /** The grid held by a two-dimensional array. */
  ghost function GridOf(a: array2<bool>): (g: Grid)
    reads a
    ensures |g| == a.Length0
    ensures forall y :: 0 <= y < |g| ==> |g[y]| == a.Length1
    ensures forall y, x :: 0 <= y < |g| && 0 <= x < a.Length1 ==> g[y][x] == a[y, x]
  {
    seq(a.Length0, y requires 0 <= y < a.Length0 reads a =>
      seq(a.Length1, x requires 0 <= x < a.Length1 reads a => a[y, x]))
  }

  ghost function Column(g: Grid, x: nat): seq<bool>
    requires forall y :: 0 <= y < |g| ==> x < |g[y]|
  {
    seq(|g|, y requires 0 <= y < |g| => g[y][x])
  }

  lemma SameGrid(g: Grid, h: Grid, size: nat)
    requires Square(g, size) && Square(h, size)
    requires forall y, x :: 0 <= y < size && 0 <= x < size ==> g[y][x] == h[y][x]
    ensures g == h
  {
    forall y | 0 <= y < size
      ensures g[y] == h[y]
    {}
  }
}

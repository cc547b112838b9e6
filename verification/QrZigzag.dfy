/**
  The zigzag order in which codewords are placed (section 7.7.3 of ISO/IEC 18004:2015).

  Two columns at a time are scanned from the right, upwards and downwards in turn; the vertical
  timing pattern in column 6 is skipped.
 */
module QrZigzag {
  import opened QrGrid

  ghost predicate ValidSize(size: int) {
    size >= 21 && size % 2 == 1
  }

  /** The right column of pair p. */
  function RightColumn(size: int, p: int): int {
    var right := size - 1 - 2 * p;
    if right <= 6 then right - 1 else right
  }

  predicate Upward(right: int) {
    ((right + 1) / 2) % 2 == 0
  }

  /** The cell (x, y) of a step given by column pair, vertical counter and left or right. */
  function CellAt(size: int, p: int, vert: int, j: int): (int, int) {
    var right := RightColumn(size, p);
    (right - j, if Upward(right) then size - 1 - vert else vert)
  }

  function StepOf(size: int, p: int, vert: int, j: int): int {
    (p * size + vert) * 2 + j
  }

  /** The number of steps of a whole scan. */
  function Steps(size: int): int {
    size * (size - 1)
  }

  function Cell(size: int, t: int): (int, int)
    requires size > 0
  {
    CellAt(size, t / 2 / size, t / 2 % size, t % 2)
  }

  /** The step at which (x, y) is visited. */
  function Step(size: int, x: int, y: int): int {
    var fromRight := if x > 6 then size - 1 - x else size - 2 - x;
    var p, j := fromRight / 2, fromRight % 2;
    StepOf(size, p, if Upward(RightColumn(size, p)) then size - 1 - y else y, j)
  }

  lemma StepParts(size: int, p: int, vert: int, j: int)
    requires size > 0 && 0 <= vert < size && 0 <= j < 2
    ensures var t := StepOf(size, p, vert, j); t / 2 / size == p && t / 2 % size == vert && t % 2 == j
  {
    var u := p * size + vert;
    assert StepOf(size, p, vert, j) / 2 == u;
    Quotient(size, p, vert);
  }

  lemma Quotient(size: int, p: int, vert: int)
    requires size > 0 && 0 <= vert < size
    ensures (p * size + vert) / size == p && (p * size + vert) % size == vert
  {
    var u := p * size + vert;
    var q := u / size;
    assert u == q * size + u % size;
    if q < p {
      Below(size, q + 1, p);
    }
    if q > p {
      Below(size, p + 1, q);
    }
  }

  lemma Below(size: int, a: int, b: int)
    requires size > 0 && a <= b
    ensures a * size <= b * size
    ensures (a - 1) * size == a * size - size
  {}

  lemma StepRange(size: int, p: int, vert: int, j: int)
    requires ValidSize(size) && 0 <= p < (size - 1) / 2 && 0 <= vert < size && 0 <= j < 2
    ensures 0 <= StepOf(size, p, vert, j) < Steps(size)
  {
    Below(size, 0, p);
    Below(size, p + 1, (size - 1) / 2);
    HalfSteps(size, (size - 1) / 2);
  }

  lemma StepNext(size: int, p: int, vert: int, j: int)
    requires size > 0
    ensures StepOf(size, p, vert, j + 1) == StepOf(size, p, vert, j) + 1
    ensures StepOf(size, p, vert, 2) == StepOf(size, p, vert + 1, 0)
    ensures StepOf(size, p, size, 0) == StepOf(size, p + 1, 0, 0)
  {
    Below(size, p + 1, p + 1);
  }

  lemma HalfSteps(size: int, p: int)
    requires ValidSize(size) && p >= (size - 1) / 2
    ensures p * size * 2 >= Steps(size)
    ensures (size - 1) / 2 * size * 2 == Steps(size)
  {
    var h := (size - 1) / 2;
    Below(size, h, p);
    assert 2 * h == size - 1;
    assert h * size * 2 == size * (2 * h);
  }

  /** Every cell outside column 6 is visited, at step Step(x, y). */
  lemma CellOfStep(size: int, x: int, y: int)
    requires ValidSize(size) && 0 <= x < size && x != 6 && 0 <= y < size
    ensures 0 <= Step(size, x, y) < Steps(size)
    ensures Cell(size, Step(size, x, y)) == (x, y)
  {
    var fromRight := if x > 6 then size - 1 - x else size - 2 - x;
    var p, j := fromRight / 2, fromRight % 2;
    var vert := if Upward(RightColumn(size, p)) then size - 1 - y else y;
    StepParts(size, p, vert, j);
    StepRange(size, p, vert, j);
  }

  lemma Parity(n: int, k: int, b: bool)
    requires n == 2 * k + (if b then 0 else 1)
    ensures n % 2 == (if b then 0 else 1)
  {}

  /** The right columns are even on the right of column 6 and odd on its left. */
  lemma RightParity(size: int, p: int)
    requires ValidSize(size) && 0 <= p < (size - 1) / 2
    ensures var right := RightColumn(size, p);
      if right > 6 then right % 2 == 0 && right >= 8 else right % 2 == 1
    ensures RightColumn(size, p + 1) == (if RightColumn(size, p) == 8 then 5 else RightColumn(size, p) - 2)
  {
    var h := size / 2;
    assert size == 2 * h + 1;
    var right := size - 1 - 2 * p;
    Parity(right, h - p, true);
    if right <= 6 {
      Parity(right - 1, h - p - 1, false);
    }
  }

  /** The counters of a step. */
  lemma PairOf(size: int, t: int)
    requires ValidSize(size) && 0 <= t < Steps(size)
    ensures 0 <= t / 2 / size < (size - 1) / 2 && t == StepOf(size, t / 2 / size, t / 2 % size, t % 2)
  {
    var p := t / 2 / size;
    assert t / 2 == p * size + t / 2 % size;
    if p < 0 {
      Below(size, p, -1);
    }
    if p >= (size - 1) / 2 {
      HalfSteps(size, p);
    }
  }

  /** Every step visits a cell outside column 6, and that cell only at this step. */
  lemma StepOfCell(size: int, t: int)
    requires ValidSize(size) && 0 <= t < Steps(size)
    ensures var (x, y) := Cell(size, t);
      0 <= x < size && x != 6 && 0 <= y < size && Step(size, x, y) == t
  {
    hide StepOf, Steps, Upward;
    PairOf(size, t);
    CountersOfCell(size, t / 2 / size, t / 2 % size, t % 2);
  }

  lemma CountersOfCell(size: int, p: int, vert: int, j: int)
    requires ValidSize(size) && 0 <= p < (size - 1) / 2 && 0 <= vert < size && 0 <= j < 2
    ensures var (x, y) := CellAt(size, p, vert, j);
      0 <= x < size && x != 6 && 0 <= y < size && Step(size, x, y) == StepOf(size, p, vert, j)
  {
    hide StepOf, Upward;
    RightParity(size, p);
  }

  // ----- The scan as a walk -----

  /** Where the scan stands and whether it goes up. */
  datatype Place = Place(x: int, y: int, up: bool)

  /** From the right column to the left; from there one row on, or at the border into the next two columns and back. */
  function Next(size: int, at: Place): Place {
    var Place(x, y, up) := at;
    var inRight := if x > 6 then x % 2 == 0 else x % 2 == 1;
    if inRight then Place(x - 1, y, up)
    else if up && y > 0 then Place(x + 1, y - 1, up)
    else if !up && y < size - 1 then Place(x + 1, y + 1, up)
    else Place(if x == 7 then 5 else x - 1, y, !up)
  }

  /** The place of a walk that starts upwards in the bottom right corner. */
  function Walk(size: int, t: nat): Place {
    if t == 0 then Place(size - 1, size - 1, true) else Next(size, Walk(size, t - 1))
  }

  /** Column pair, vertical counter and left or right of a step, and of the one that follows. */
  datatype Counters = Counters(p: int, vert: int, j: int)

  function Following(size: int, c: Counters): Counters {
    if c.j == 0 then c.(j := 1) else if c.vert < size - 1 then Counters(c.p, c.vert + 1, 0) else Counters(c.p + 1, 0, 0)
  }

  ghost predicate CountersOf(size: int, t: int, c: Counters) {
    0 <= c.p < (size - 1) / 2 && 0 <= c.vert < size && 0 <= c.j < 2 && t == StepOf(size, c.p, c.vert, c.j)
  }

  /** Where the scan stands at some counters. */
  function PlaceAt(size: int, c: Counters): Place {
    var (x, y) := CellAt(size, c.p, c.vert, c.j);
    Place(x, y, c.p % 2 == 0)
  }

  lemma FollowingStep(size: int, t: int, c: Counters)
    requires ValidSize(size) && CountersOf(size, t, c) && t + 1 < Steps(size)
    ensures CountersOf(size, t + 1, Following(size, c))
  {
    var d := Following(size, c);
    StepNext(size, c.p, c.vert, c.j);
    if d.p == (size - 1) / 2 {
      HalfSteps(size, d.p);
    }
  }

  /** The scan goes up in every second pair of columns, the first one included. */
  lemma PairsAlternate(size: int, p: int)
    requires ValidSize(size) && size % 4 == 1 && 0 <= p
    ensures Upward(RightColumn(size, p)) == (p % 2 == 0)
  {
    var q := size / 4;
    assert size == 4 * q + 1;
    assert (RightColumn(size, p) + 1) / 2 == 2 * q - p;
    Parity(2 * q - p, q - (p + 1) / 2, p % 2 == 0);
  }

  /** Walking on leads to the next step of the scan. */
  lemma NextPlace(size: int, c: Counters)
    requires ValidSize(size) && size % 4 == 1 && 0 <= c.p < (size - 1) / 2 && 0 <= c.vert < size && 0 <= c.j < 2
    requires Following(size, c).p < (size - 1) / 2
    ensures Next(size, PlaceAt(size, c)) == PlaceAt(size, Following(size, c))
  {
    hide Upward;
    PairsAlternate(size, c.p);
    PairsAlternate(size, c.p + 1);
    RightParity(size, c.p);
  }

  lemma {:induction false} WalkCounts(size: int, t: nat) returns (c: Counters)
    requires ValidSize(size) && size % 4 == 1 && t < Steps(size)
    ensures CountersOf(size, t, c) && Walk(size, t) == PlaceAt(size, c)
  {
    if t == 0 {
      c := Counters(0, 0, 0);
      PairsAlternate(size, 0);
    } else {
      hide PlaceAt, Next, Steps, StepOf;
      var d := WalkCounts(size, t - 1);
      FollowingStep(size, t - 1, d);
      NextPlace(size, d);
      c := Following(size, d);
    }
  }

  /** The scan is the walk: step by step the same cells, the first one in the bottom right corner. */
  lemma ScanIsWalk(size: int, t: nat)
    requires ValidSize(size) && size % 4 == 1 && t < Steps(size)
    ensures Cell(size, t) == (Walk(size, t).x, Walk(size, t).y)
  {
    var c := WalkCounts(size, t);
    StepParts(size, c.p, c.vert, c.j);
  }

  // ----- Placing and reading bits -----

  /** Whether step t visits a module that is not a function module. */
  ghost predicate Free(f: Grid, size: int, t: int)
    requires ValidSize(size) && Square(f, size) && 0 <= t < Steps(size)
  {
    StepOfCell(size, t);
    var (x, y) := Cell(size, t);
    !f[y][x]
  }

  /** The number of free modules among the first t steps. */
  ghost function FreeBefore(f: Grid, size: int, t: int): nat
    requires ValidSize(size) && Square(f, size) && 0 <= t <= Steps(size)
    decreases t
  {
    if t == 0 then 0 else FreeBefore(f, size, t - 1) + (if Free(f, size, t - 1) then 1 else 0)
  }

  lemma NothingBefore(f: Grid, size: int)
    requires ValidSize(size) && Square(f, size) && 0 <= Steps(size)
    ensures FreeBefore(f, size, 0) == 0
  {}

  /** A module after the first t steps of placing bits, given what it was before. */
  ghost function Placed(f: Grid, size: int, bits: seq<bool>, t: int, x: int, y: int, was: bool): bool
    requires ValidSize(size) && Square(f, size) && 0 <= t <= Steps(size)
    requires 0 <= x < size && 0 <= y < size
  {
    if x == 6 || f[y][x] then was
    else
      CellOfStep(size, x, y);
      var s := Step(size, x, y);
      if s < t && FreeBefore(f, size, s) < |bits| then bits[FreeBefore(f, size, s)] else was
  }

  /** The number of free modules outside column 6. */
  ghost function FreeModules(f: Grid, size: int): nat
    requires ValidSize(size) && Square(f, size)
  {
    HalfSteps(size, size);
    FreeBefore(f, size, Steps(size))
  }

  /** The grid after all bits have been placed. */
  ghost predicate AllPlaced(f: Grid, size: int, bits: seq<bool>, before: Grid, after: Grid)
    requires ValidSize(size) && Square(f, size)
  {
    HalfSteps(size, size);
    Square(before, size) && Square(after, size)
    && forall x, y :: 0 <= x < size && 0 <= y < size ==>
         after[y][x] == Placed(f, size, bits, Steps(size), x, y, before[y][x])
  }

  /** What a reader of the symbol sees in the free modules of the first t steps. */
  ghost function ReadBits(g: Grid, f: Grid, size: int, t: int): (bits: seq<bool>)
    requires ValidSize(size) && Square(g, size) && Square(f, size) && 0 <= t <= Steps(size)
    ensures |bits| == FreeBefore(f, size, t)
    decreases t
  {
    if t == 0 then []
    else
      StepOfCell(size, t - 1);
      var (x, y) := Cell(size, t - 1);
      ReadBits(g, f, size, t - 1) + (if f[y][x] then [] else [g[y][x]])
  }

  /** All free modules in zigzag order. */
  ghost function ReadAllBits(g: Grid, f: Grid, size: int): (bits: seq<bool>)
    requires ValidSize(size) && Square(g, size) && Square(f, size)
    ensures |bits| == FreeModules(f, size)
  {
    HalfSteps(size, size);
    ReadBits(g, f, size, Steps(size))
  }

  /** Reading back in zigzag order gives the placed bits, as far as there are free modules. */
  lemma {:induction false} ReadPlaced(f: Grid, size: int, bits: seq<bool>, before: Grid, after: Grid, t: int)
    requires ValidSize(size) && Square(f, size) && 0 <= t <= Steps(size)
    requires AllPlaced(f, size, bits, before, after)
    ensures var read := ReadBits(after, f, size, t);
      forall k :: 0 <= k < |read| && k < |bits| ==> read[k] == bits[k]
    decreases t
  {
    hide Cell, Step, Steps;
    if t > 0 {
      ReadPlaced(f, size, bits, before, after, t - 1);
      StepOfCell(size, t - 1);
      var (x, y) := Cell(size, t - 1);
      assert after[y][x] == Placed(f, size, bits, Steps(size), x, y, before[y][x]);
    }
  }

  /** What was placed is read back in full when there is room for it. */
  lemma ReadAllPlaced(f: Grid, size: int, bits: seq<bool>, before: Grid, after: Grid)
    requires ValidSize(size) && Square(f, size) && Square(after, size)
    requires AllPlaced(f, size, bits, before, after) && |bits| <= FreeModules(f, size)
    ensures ReadAllBits(after, f, size)[..|bits|] == bits
  {
    hide Placed, AllPlaced;
    HalfSteps(size, size);
    ReadPlaced(f, size, bits, before, after, Steps(size));
  }

  /** Grids that agree on the free modules read alike. */
  lemma {:induction false} ReadAgrees(g: Grid, h: Grid, f: Grid, size: int, t: int)
    requires ValidSize(size) && Square(g, size) && Square(h, size) && Square(f, size) && 0 <= t <= Steps(size)
    requires forall x, y :: 0 <= x < size && 0 <= y < size && !f[y][x] ==> g[y][x] == h[y][x]
    ensures ReadBits(g, f, size, t) == ReadBits(h, f, size, t)
    decreases t
  {
    hide Cell, Step, Steps;
    if t > 0 {
      ReadAgrees(g, h, f, size, t - 1);
      StepOfCell(size, t - 1);
    }
  }

  lemma PlacedNone(f: Grid, size: int, bits: seq<bool>, x: int, y: int, was: bool)
    requires ValidSize(size) && Square(f, size) && 0 <= x < size && 0 <= y < size
    ensures Placed(f, size, bits, 0, x, y, was) == was
  {
    if x != 6 {
      CellOfStep(size, x, y);
    }
  }

  /** One step changes at most the module of that step. */
  lemma PlacedStep(f: Grid, size: int, bits: seq<bool>, t: int, x: int, y: int, was: bool)
    requires ValidSize(size) && Square(f, size) && 0 <= t < Steps(size) && 0 <= x < size && 0 <= y < size
    ensures Placed(f, size, bits, t + 1, x, y, was) ==
      if Cell(size, t) == (x, y) && !f[y][x] && FreeBefore(f, size, t) < |bits| then bits[FreeBefore(f, size, t)]
      else Placed(f, size, bits, t, x, y, was)
  {
    hide FreeBefore;
    StepOfCell(size, t);
    if x != 6 {
      CellOfStep(size, x, y);
    }
  }

  /** Before its own step, a module is as it was. */
  lemma NotYetPlaced(f: Grid, size: int, bits: seq<bool>, t: int, was: bool)
    requires ValidSize(size) && Square(f, size) && 0 <= t < Steps(size)
    ensures var (x, y) := Cell(size, t);
      0 <= x < size && 0 <= y < size && Placed(f, size, bits, t, x, y, was) == was
  {
    hide FreeBefore;
    StepOfCell(size, t);
  }
}

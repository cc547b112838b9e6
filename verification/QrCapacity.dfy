/**
  Counting: the modules that the function patterns leave free are exactly as many as the capacity
  formula says, for every version.
 */
module QrCapacity {
  import opened QrFormat
  import opened QrGrid
  import opened QrPatterns
  import opened QrSymbol
  import opened QrVersions
  import opened QrZigzag

  type Cells = set<(int, int)>

  // ----- Sizes of sets -----

  function Rect(x0: int, x1: int, y0: int, y1: int): Cells {
    set x, y | x0 <= x < x1 && y0 <= y < y1 :: (x, y)
  }

  lemma DisjointSize(a: Cells, b: Cells)
    requires a !! b
    ensures |a + b| == |a| + |b|
  {}

  lemma {:induction false} ColumnSize(x: int, y0: int, y1: int)
    requires y0 <= y1
    ensures |Rect(x, x + 1, y0, y1)| == y1 - y0
    decreases y1 - y0
  {
    if y0 == y1 {
      assert Rect(x, x + 1, y0, y1) == {};
    } else {
      ColumnSize(x, y0, y1 - 1);
      assert Rect(x, x + 1, y0, y1) == Rect(x, x + 1, y0, y1 - 1) + {(x, y1 - 1)};
    }
  }

  lemma {:induction false} RectSize(x0: int, x1: int, y0: int, y1: int)
    requires x0 <= x1 && y0 <= y1
    ensures |Rect(x0, x1, y0, y1)| == (x1 - x0) * (y1 - y0)
    decreases x1 - x0
  {
    if x0 == x1 {
      assert Rect(x0, x1, y0, y1) == {};
    } else {
      RectSize(x0, x1 - 1, y0, y1);
      ColumnSize(x1 - 1, y0, y1);
      var a, b := Rect(x0, x1 - 1, y0, y1), Rect(x1 - 1, x1, y0, y1);
      DisjointSize(a, b);
      assert Rect(x0, x1, y0, y1) == a + b;
      assert (x1 - x0) * (y1 - y0) == (x1 - 1 - x0) * (y1 - y0) + (y1 - y0);
    }
  }

  // ----- Timing, finders, format and version -----

  /** The corners with finder patterns and format bits. */
  function Corners(n: nat): Cells {
    Rect(0, 9, 0, 9) + Rect(n - 8, n, 0, 9) + Rect(0, 9, n - 8, n)
  }

  /** The timing patterns between the corners. */
  function Timing(n: nat): Cells {
    Rect(9, n - 8, 6, 7) + Rect(6, 7, 9, n - 8)
  }

  /** The two copies of the version bits. */
  function VersionBlocks(n: nat): Cells {
    Rect(n - 11, n - 8, 0, 6) + Rect(0, 6, n - 11, n - 8)
  }

  function VersionCells(version: Version): Cells {
    if version >= 7 then VersionBlocks(SizeOf(version)) else {}
  }

  function Base(version: Version): Cells {
    Corners(SizeOf(version)) + Timing(SizeOf(version)) + VersionCells(version)
  }

  lemma CornersSize(n: nat)
    requires n >= 21
    ensures |Corners(n)| == 225
  {
    RectSize(0, 9, 0, 9);
    RectSize(n - 8, n, 0, 9);
    RectSize(0, 9, n - 8, n);
    DisjointSize(Rect(0, 9, 0, 9), Rect(n - 8, n, 0, 9));
    DisjointSize(Rect(0, 9, 0, 9) + Rect(n - 8, n, 0, 9), Rect(0, 9, n - 8, n));
  }

  lemma TimingSize(n: nat)
    requires n >= 21
    ensures |Timing(n)| == 2 * (n - 17)
  {
    RectSize(9, n - 8, 6, 7);
    RectSize(6, 7, 9, n - 8);
    DisjointSize(Rect(9, n - 8, 6, 7), Rect(6, 7, 9, n - 8));
  }

  lemma BlocksSize(n: nat)
    requires n >= 45
    ensures |VersionBlocks(n)| == 36
  {
    RectSize(n - 11, n - 8, 0, 6);
    RectSize(0, 6, n - 11, n - 8);
    DisjointSize(Rect(n - 11, n - 8, 0, 6), Rect(0, 6, n - 11, n - 8));
  }

  lemma BlocksApart(n: nat)
    requires n >= 45
    ensures VersionBlocks(n) !! Corners(n) + Timing(n)
  {
    forall c | c in VersionBlocks(n)
      ensures c !in Corners(n) + Timing(n)
    {
    }
  }

  lemma BaseSize(version: Version)
    ensures |Base(version)| == 225 + 2 * (SizeOf(version) - 17) + (if version >= 7 then 36 else 0)
  {
    hide Corners, Timing, VersionBlocks, Rect;
    var n := SizeOf(version);
    CornersSize(n);
    TimingSize(n);
    TimingApart(n);
    DisjointSize(Corners(n), Timing(n));
    if version >= 7 {
      BlocksSize(n);
      BlocksApart(n);
    }
    DisjointSize(Corners(n) + Timing(n), VersionCells(version));
  }

  lemma TimingApart(n: nat)
    requires n >= 21
    ensures Corners(n) !! Timing(n)
  {
    forall c | c in Timing(n)
      ensures c !in Corners(n)
    {
    }
  }

  lemma BaseIs(version: Version, x: int, y: int)
    requires 0 <= x < SizeOf(version) && 0 <= y < SizeOf(version)
    ensures (x, y) in Base(version) <==>
      IsTiming(x, y) || IsFinder(SizeOf(version), x, y) || FormatIndex(SizeOf(version), x, y) >= 0 || IsVersion(version, x, y)
  {}

  // ----- Alignment -----

  /** The modules of an alignment pattern that are no timing modules. */
  ghost function Extra(version: Version, i: nat, j: nat): Cells
    requires i < NumAlign(version) && j < NumAlign(version)
  {
    if !HasAlignment(version, i, j) then {}
    else
      var x, y := AlignPosition(version, i), AlignPosition(version, j);
      set c | c in Rect(x - 2, x + 3, y - 2, y + 3) && !IsTiming(c.0, c.1)
  }

  function ExtraCount(numAlign: nat, i: nat, j: nat): nat {
    if IsCorner(numAlign, i, j) then 0 else if i == 0 || j == 0 then 20 else 25
  }

  lemma ExtraIs(version: Version, i: nat, j: nat, x: int, y: int)
    requires i < NumAlign(version) && j < NumAlign(version)
    ensures (x, y) in Extra(version, i, j) <==> InAlignment(version, i, j, x, y) && !IsTiming(x, y)
  {
    hide AlignPosition;
  }

  lemma ExtraSize(version: Version, i: nat, j: nat)
    requires i < NumAlign(version) && j < NumAlign(version)
    ensures |Extra(version, i, j)| == ExtraCount(NumAlign(version), i, j)
  {
    hide AlignPosition, Extra;
    if !HasAlignment(version, i, j) {
      NoExtra(version, i, j);
    } else if i == 0 {
      ExtraLeft(version, j);
    } else if j == 0 {
      ExtraTop(version, i);
    } else {
      ExtraInner(version, i, j);
    }
  }

  lemma NoExtra(version: Version, i: nat, j: nat)
    requires i < NumAlign(version) && j < NumAlign(version) && !HasAlignment(version, i, j)
    ensures Extra(version, i, j) == {}
  {}

  lemma ExtraLeft(version: Version, j: nat)
    requires j < NumAlign(version) && HasAlignment(version, 0, j)
    ensures |Extra(version, 0, j)| == 20
  {
    hide AlignPosition;
    var y := AlignPosition(version, j);
    PositionBounds(version, j);
    FirstPosition(version);
    HalfSquares(4, 6, y - 2, y + 3, 7, 9, y - 2, y + 3);
    assert Extra(version, 0, j) == Rect(4, 6, y - 2, y + 3) + Rect(7, 9, y - 2, y + 3);
  }

  lemma ExtraTop(version: Version, i: nat)
    requires i < NumAlign(version) && HasAlignment(version, i, 0)
    ensures |Extra(version, i, 0)| == 20
  {
    hide AlignPosition;
    var x := AlignPosition(version, i);
    PositionBounds(version, i);
    FirstPosition(version);
    HalfSquares(x - 2, x + 3, 4, 6, x - 2, x + 3, 7, 9);
    assert Extra(version, i, 0) == Rect(x - 2, x + 3, 4, 6) + Rect(x - 2, x + 3, 7, 9);
  }

  lemma ExtraInner(version: Version, i: nat, j: nat)
    requires 0 < i < NumAlign(version) && 0 < j < NumAlign(version) && HasAlignment(version, i, j)
    ensures |Extra(version, i, j)| == 25
  {
    hide AlignPosition;
    var x, y := AlignPosition(version, i), AlignPosition(version, j);
    PositionBounds(version, i);
    PositionBounds(version, j);
    RectSize(x - 2, x + 3, y - 2, y + 3);
    assert Extra(version, i, j) == Rect(x - 2, x + 3, y - 2, y + 3);
  }

  lemma HalfSquares(x0: int, x1: int, y0: int, y1: int, u0: int, u1: int, v0: int, v1: int)
    requires x0 <= x1 && y0 <= y1 && u0 <= u1 && v0 <= v1
    requires (x1 - x0) * (y1 - y0) == 10 && (u1 - u0) * (v1 - v0) == 10 && (x1 <= u0 || y1 <= v0)
    ensures |Rect(x0, x1, y0, y1) + Rect(u0, u1, v0, v1)| == 20
  {
    RectSize(x0, x1, y0, y1);
    RectSize(u0, u1, v0, v1);
    DisjointSize(Rect(x0, x1, y0, y1), Rect(u0, u1, v0, v1));
  }

  /** The modules of the first k patterns of row i. */
  ghost function RowExtras(version: Version, i: nat, k: nat): Cells
    requires i < NumAlign(version) && k <= NumAlign(version)
  {
    if k == 0 then {} else RowExtras(version, i, k - 1) + Extra(version, i, k - 1)
  }

  function RowCount(numAlign: nat, i: nat, k: nat): nat {
    if k == 0 then 0 else RowCount(numAlign, i, k - 1) + ExtraCount(numAlign, i, k - 1)
  }

  lemma {:induction false} RowIs(version: Version, i: nat, k: nat, x: int, y: int)
    requires i < NumAlign(version) && k <= NumAlign(version)
    ensures (x, y) in RowExtras(version, i, k) <==>
      !IsTiming(x, y) && exists j: nat :: j < k && InAlignment(version, i, j, x, y)
  {
    hide Extra, InAlignment, IsTiming;
    if k > 0 {
      RowIs(version, i, k - 1, x, y);
      ExtraIs(version, i, k - 1, x, y);
      if (x, y) in RowExtras(version, i, k - 1) {
        var j: nat :| j < k - 1 && InAlignment(version, i, j, x, y);
        assert j < k && InAlignment(version, i, j, x, y);
      }
    }
  }

  lemma {:induction false} RowSize(version: Version, i: nat, k: nat)
    requires i < NumAlign(version) && k <= NumAlign(version)
    ensures |RowExtras(version, i, k)| == RowCount(NumAlign(version), i, k)
  {
    hide Extra, InAlignment, IsTiming, ExtraCount;
    if k > 0 {
      RowSize(version, i, k - 1);
      ExtraSize(version, i, k - 1);
      var extra, row := Extra(version, i, k - 1), RowExtras(version, i, k - 1);
      forall c | c in extra
        ensures c !in row
      {
        ExtraIs(version, i, k - 1, c.0, c.1);
        RowIs(version, i, k - 1, c.0, c.1);
        if c in row {
          var j: nat :| j < k - 1 && InAlignment(version, i, j, c.0, c.1);
          AlignmentUnique(version, i, k - 1, i, j, c.0, c.1);
        }
      }
      DisjointSize(row, extra);
    }
  }

  /** The modules of the patterns in the first k rows. */
  ghost function Extras(version: Version, k: nat): Cells
    requires k <= NumAlign(version)
  {
    if k == 0 then {} else Extras(version, k - 1) + RowExtras(version, k - 1, NumAlign(version))
  }

  function ExtrasCount(numAlign: nat, k: nat): nat {
    if k == 0 then 0 else ExtrasCount(numAlign, k - 1) + RowCount(numAlign, k - 1, numAlign)
  }

  lemma {:induction false} ExtrasIs(version: Version, k: nat, x: int, y: int)
    requires k <= NumAlign(version)
    ensures (x, y) in Extras(version, k) <==>
      !IsTiming(x, y) && exists i: nat, j: nat :: i < k && InAlignment(version, i, j, x, y)
  {
    hide RowExtras, IsTiming, AlignPosition, Distance, IsCorner;
    if k > 0 {
      ExtrasIs(version, k - 1, x, y);
      RowIs(version, k - 1, NumAlign(version), x, y);
    }
  }

  lemma {:induction false} ExtrasSize(version: Version, k: nat)
    requires k <= NumAlign(version)
    ensures |Extras(version, k)| == ExtrasCount(NumAlign(version), k)
  {
    hide RowExtras, InAlignment, IsTiming, RowCount;
    if k > 0 {
      ExtrasSize(version, k - 1);
      RowSize(version, k - 1, NumAlign(version));
      var row, extras := RowExtras(version, k - 1, NumAlign(version)), Extras(version, k - 1);
      forall c | c in row
        ensures c !in extras
      {
        ExtrasIs(version, k - 1, c.0, c.1);
        RowIs(version, k - 1, NumAlign(version), c.0, c.1);
        if c in extras {
          var i: nat, j: nat :| i < k - 1 && InAlignment(version, i, j, c.0, c.1);
          var l: nat :| InAlignment(version, k - 1, l, c.0, c.1);
          AlignmentUnique(version, i, j, k - 1, l, c.0, c.1);
        }
      }
      DisjointSize(extras, row);
    }
  }

  lemma {:induction false} RowTotal(numAlign: nat, i: nat, k: nat)
    requires numAlign >= 2 && i < numAlign && k <= numAlign
    ensures RowCount(numAlign, i, k) ==
      if i == 0 then (if k == 0 then 0 else 20 * (if k == numAlign then k - 2 else k - 1))
      else if k == 0 then 0
      else (if i < numAlign - 1 then 20 else 0) + 25 * (k - 1)
  {
    if k > 0 {
      RowTotal(numAlign, i, k - 1);
    }
  }

  lemma {:induction false} ExtrasTotal(numAlign: nat, k: nat)
    requires numAlign >= 2 && 1 <= k <= numAlign
    ensures ExtrasCount(numAlign, k) ==
      20 * (numAlign - 2) + (k - 1) * (25 * (numAlign - 1)) + 20 * (if k == numAlign then k - 2 else k - 1)
  {
    hide RowCount;
    RowTotal(numAlign, k - 1, numAlign);
    if k > 1 {
      ExtrasTotal(numAlign, k - 1);
      assert (k - 1) * (25 * (numAlign - 1)) == (k - 2) * (25 * (numAlign - 1)) + 25 * (numAlign - 1);
    } else {
      assert ExtrasCount(numAlign, 0) == 0;
    }
  }

  // ----- All function modules -----

  ghost function ReservedCells(version: Version): Cells {
    set x, y | 0 <= x < SizeOf(version) && 0 <= y < SizeOf(version) && Reserved(version, x, y) :: (x, y)
  }

  /** Alignment patterns lie within the grid, and keep off all other patterns but timing. */
  lemma ExtraApart(version: Version, i: nat, j: nat, x: int, y: int)
    requires InAlignment(version, i, j, x, y) && !IsTiming(x, y)
    ensures 0 <= x < SizeOf(version) && 0 <= y < SizeOf(version) && (x, y) !in Base(version)
  {
    hide AlignPosition;
    PositionBounds(version, i);
    PositionBounds(version, j);
    FirstPosition(version);
  }

  lemma ReservedParts(version: Version)
    ensures ReservedCells(version) == Base(version) + Extras(version, NumAlign(version))
    ensures Base(version) !! Extras(version, NumAlign(version))
  {
    hide Base, Extras, ReservedCells;
    var all, base, extras := ReservedCells(version), Base(version), Extras(version, NumAlign(version));
    forall c: (int, int)
      ensures c in all <==> c in base || c in extras
      ensures c in extras ==> c !in base
    {
      CellParts(version, c.0, c.1);
    }
  }

  lemma CellParts(version: Version, x: int, y: int)
    ensures (x, y) in ReservedCells(version) <==> (x, y) in Base(version) || (x, y) in Extras(version, NumAlign(version))
    ensures (x, y) in Extras(version, NumAlign(version)) ==> (x, y) !in Base(version)
  {
    hide Base, Extras, IsFinder, IsVersion, InAlignment, FormatIndex;
    var n, a := SizeOf(version), NumAlign(version);
    ExtrasIs(version, a, x, y);
    AlignedInside(version, x, y);
    if (x, y) in Base(version) {
      BaseInside(version, x, y);
    }
    if 0 <= x < n && 0 <= y < n {
      BaseIs(version, x, y);
    }
  }

  lemma AlignedInside(version: Version, x: int, y: int)
    ensures IsAlignment(version, x, y) <==> exists i: nat, j: nat :: i < NumAlign(version) && InAlignment(version, i, j, x, y)
    ensures IsAlignment(version, x, y) && !IsTiming(x, y) ==>
      0 <= x < SizeOf(version) && 0 <= y < SizeOf(version) && (x, y) !in Base(version)
  {
    hide AlignPosition, Distance, Base, IsCorner;
    if IsAlignment(version, x, y) && !IsTiming(x, y) {
      var i: nat, j: nat :| InAlignment(version, i, j, x, y);
      ExtraApart(version, i, j, x, y);
    }
  }

  lemma BaseInside(version: Version, x: int, y: int)
    requires (x, y) in Base(version)
    ensures 0 <= x < SizeOf(version) && 0 <= y < SizeOf(version)
  {}

  lemma ReservedSize(version: Version)
    ensures |ReservedCells(version)| + NumRawDataModules(version) == SizeOf(version) * SizeOf(version)
  {
    hide Base, Extras, ReservedCells, ExtrasCount;
    var a := NumAlign(version);
    ReservedParts(version);
    DisjointSize(Base(version), Extras(version, a));
    BaseSize(version);
    ExtrasSize(version, a);
    if version >= 2 {
      ExtrasTotal(a, a);
    } else {
      NoExtras(version);
    }
  }

  lemma NoExtras(version: Version)
    requires version == 1
    ensures ExtrasCount(NumAlign(version), NumAlign(version)) == 0
  {}

  // ----- Free modules -----

  /** The free cells among the first t steps of the scan. */
  ghost function Visited(f: Grid, size: int, t: int): Cells
    requires ValidSize(size) && Square(f, size) && 0 <= t <= Steps(size)
    decreases t
  {
    if t == 0 then {}
    else Visited(f, size, t - 1) + (if Free(f, size, t - 1) then {Cell(size, t - 1)} else {})
  }

  lemma {:induction false} VisitedIs(f: Grid, size: int, t: int, x: int, y: int)
    requires ValidSize(size) && Square(f, size) && 0 <= t <= Steps(size)
    ensures (x, y) in Visited(f, size, t) <==>
      0 <= x < size && x != 6 && 0 <= y < size && !f[y][x] && Step(size, x, y) < t
    decreases t
  {
    hide Cell, Step, Steps;
    if 0 <= x < size && x != 6 && 0 <= y < size {
      CellOfStep(size, x, y);
    }
    if t > 0 {
      VisitedIs(f, size, t - 1, x, y);
      StepOfCell(size, t - 1);
    }
  }

  /** No step visits a cell again. */
  lemma VisitedNew(f: Grid, size: int, t: int)
    requires ValidSize(size) && Square(f, size) && 0 <= t < Steps(size)
    ensures Cell(size, t) !in Visited(f, size, t)
  {
    hide Cell, Step, Steps, Visited;
    StepOfCell(size, t);
    var (x, y) := Cell(size, t);
    VisitedIs(f, size, t, x, y);
  }

  lemma OneMore(cells: Cells, c: (int, int))
    requires c !in cells
    ensures |cells + {c}| == |cells| + 1 && cells + {} == cells
  {}

  lemma {:induction false} VisitedSize(f: Grid, size: int, t: int)
    requires ValidSize(size) && Square(f, size) && 0 <= t <= Steps(size)
    ensures |Visited(f, size, t)| == FreeBefore(f, size, t)
    decreases t
  {
    hide Cell, Steps, Free, Square;
    if t > 0 {
      VisitedSize(f, size, t - 1);
      VisitedNew(f, size, t - 1);
      OneMore(Visited(f, size, t - 1), Cell(size, t - 1));
    }
  }

  lemma GridSize(n: nat)
    ensures |Rect(0, n, 0, n)| == n * n
  {
    RectSize(0, n, 0, n);
  }

  ghost function VisitedOf(version: Version): Cells {
    HalfSteps(SizeOf(version), SizeOf(version));
    Visited(FunctionGrid(version), SizeOf(version), Steps(SizeOf(version)))
  }

  lemma VisitedCell(f: Grid, size: int, x: int, y: int)
    requires ValidSize(size) && Square(f, size)
    ensures 0 <= Steps(size)
    ensures (x, y) in Visited(f, size, Steps(size)) <==> 0 <= x < size && x != 6 && 0 <= y < size && !f[y][x]
  {
    hide Visited, Step, Steps, Cell;
    HalfSteps(size, size);
    VisitedIs(f, size, Steps(size), x, y);
    if 0 <= x < size && x != 6 && 0 <= y < size {
      CellOfStep(size, x, y);
    }
  }

  /** A cell of the grid is visited exactly when it is no function module. */
  lemma VisitedExactly(version: Version, x: int, y: int)
    ensures (x, y) in VisitedOf(version) <==> 0 <= x < SizeOf(version) && 0 <= y < SizeOf(version) && !Reserved(version, x, y)
  {
    hide Visited, Reserved, Steps;
    VisitedCell(FunctionGrid(version), SizeOf(version), x, y);
    ColumnSixReserved(version, y);
  }

  /** All free cells are visited: they are what the function modules leave of the grid. */
  lemma VisitedAll(version: Version)
    ensures
      var n := SizeOf(version);
      VisitedOf(version) + ReservedCells(version) == Rect(0, n, 0, n) && VisitedOf(version) !! ReservedCells(version)
  {
    hide VisitedOf, Reserved;
    var n := SizeOf(version);
    var visited, reserved := VisitedOf(version), ReservedCells(version);
    forall c: (int, int)
      ensures c in visited || c in reserved <==> 0 <= c.0 < n && 0 <= c.1 < n
      ensures c in visited ==> c !in reserved
    {
      VisitedExactly(version, c.0, c.1);
      assert c == (c.0, c.1);
    }
  }

  lemma ColumnSixReserved(version: Version, y: int)
    ensures Reserved(version, 6, y)
  {}

  lemma VisitedFree(f: Grid, size: int)
    requires ValidSize(size) && Square(f, size)
    ensures 0 <= Steps(size) && |Visited(f, size, Steps(size))| == FreeModules(f, size)
  {
    hide FreeBefore, Visited, Steps, Square;
    HalfSteps(size, size);
    VisitedSize(f, size, Steps(size));
  }

  lemma VisitedOfSize(version: Version)
    ensures |VisitedOf(version)| == FreeModules(FunctionGrid(version), SizeOf(version))
  {
    hide FreeModules, Visited, FunctionGrid, Steps, Square;
    VisitedFree(FunctionGrid(version), SizeOf(version));
  }

  /** The capacity formula counts the free modules exactly, for every version. */
  lemma CapacityExact(version: Version)
    ensures FreeModules(FunctionGrid(version), SizeOf(version)) == NumRawDataModules(version)
  {
    hide FreeModules, VisitedOf, ReservedCells, FunctionGrid, NumRawDataModules, Rect;
    VisitedAll(version);
    VisitedOfSize(version);
    DisjointSize(VisitedOf(version), ReservedCells(version));
    ReservedSize(version);
    GridSize(SizeOf(version));
  }
}

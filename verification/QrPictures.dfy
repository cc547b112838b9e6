/**
  What a reader sees of the function patterns, as pictures: finders, alignment patterns and their positions, timing, and
  the cells of the format and version words (section 6.3 and annexes C to E of ISO/IEC 18004:2015).
 */
module QrPictures {
  import opened QrFormat
  import opened QrGrid
  import opened QrPatterns
  import opened QrSymbol
  import opened QrVersions

  // ----- Positions of alignment patterns -----

  /** The distance of neighbouring alignment patterns but for the first two, by version (table E.1). */
  const SPACING: seq<nat> := [
    0, 0, 12, 16, 20, 24, 28, 16, 18, 20, 22, 24, 26, 28,
    20, 22, 24, 24, 26, 28, 28, 22, 24, 24, 26, 26, 28, 28,
    24, 24, 26, 26, 26, 28, 28, 24, 26, 26, 26, 28, 28]

  predicate Spaced(v: Version) {
    v >= 2 ==> AlignStep(v) == SPACING[v]
  }

  lemma SpacedTo5(v: Version)
    requires 1 <= v <= 5
    ensures Spaced(v)
  {
    assert v == 1 || v == 2 || v == 3 || v == 4 || v == 5;
  }

  lemma SpacedTo10(v: Version)
    requires 6 <= v <= 10
    ensures Spaced(v)
  {
    assert v == 6 || v == 7 || v == 8 || v == 9 || v == 10;
  }

  lemma SpacedTo15(v: Version)
    requires 11 <= v <= 15
    ensures Spaced(v)
  {
    assert v == 11 || v == 12 || v == 13 || v == 14 || v == 15;
  }

  lemma SpacedTo20(v: Version)
    requires 16 <= v <= 20
    ensures Spaced(v)
  {
    assert v == 16 || v == 17 || v == 18 || v == 19 || v == 20;
  }

  lemma SpacedTo25(v: Version)
    requires 21 <= v <= 25
    ensures Spaced(v)
  {
    assert v == 21 || v == 22 || v == 23 || v == 24 || v == 25;
  }

  lemma SpacedTo30(v: Version)
    requires 26 <= v <= 30
    ensures Spaced(v)
  {
    assert v == 26 || v == 27 || v == 28 || v == 29 || v == 30;
  }

  lemma SpacedTo35(v: Version)
    requires 31 <= v <= 35
    ensures Spaced(v)
  {
    assert v == 31 || v == 32 || v == 33 || v == 34 || v == 35;
  }

  lemma SpacedTo40(v: Version)
    requires 36 <= v <= 40
    ensures Spaced(v)
  {
    assert v == 36 || v == 37 || v == 38 || v == 39 || v == 40;
  }

  lemma SpacingInTable(v: Version)
    ensures Spaced(v)
  {
    hide Spaced;
    if v <= 5 {
      SpacedTo5(v);
    } else if v <= 10 {
      SpacedTo10(v);
    } else if v <= 15 {
      SpacedTo15(v);
    } else if v <= 20 {
      SpacedTo20(v);
    } else if v <= 25 {
      SpacedTo25(v);
    } else if v <= 30 {
      SpacedTo30(v);
    } else if v <= 35 {
      SpacedTo35(v);
    } else {
      SpacedTo40(v);
    }
  }

  /** The first position is 6, the last one 7 from the border, and in between they are as far apart as the table says. */
  lemma PositionsSpaced(v: Version)
    requires v >= 2
    ensures NumAlign(v) == v / 7 + 2 && AlignPosition(v, 0) == 6 && AlignPosition(v, NumAlign(v) - 1) == v * 4 + 10
    ensures forall i :: 1 <= i < NumAlign(v) - 1 ==> AlignPosition(v, i + 1) - AlignPosition(v, i) == SPACING[v]
  {
    hide AlignStep;
    SpacingInTable(v);
    forall i | 1 <= i < NumAlign(v) - 1
      ensures AlignPosition(v, i + 1) - AlignPosition(v, i) == SPACING[v]
    {
      OneLess(NumAlign(v) - 1 - i, AlignStep(v));
    }
  }

  lemma OneLess(k: int, s: int)
    ensures k * s == (k - 1) * s + s
  {}

  lemma PositionEven(v: Version, i: nat)
    requires i < NumAlign(v)
    ensures AlignPosition(v, i) % 2 == 0
  {
    hide AlignStep, NumAlign;
    if i > 0 {
      assert v >= 2 by { NoneInFirst(v); }
      EvenStep(v);
      EvenProduct(NumAlign(v) - 1 - i, AlignStep(v) / 2);
      Even(v * 2 + 5 - (NumAlign(v) - 1 - i) * (AlignStep(v) / 2));
    }
  }

  lemma NoneInFirst(v: Version)
    ensures v == 1 ==> NumAlign(v) == 0
  {}

  lemma Even(h: int)
    ensures 2 * h % 2 == 0
  {}

  lemma EvenStep(v: Version)
    requires v >= 2
    ensures AlignStep(v) == 2 * (AlignStep(v) / 2)
  {}

  lemma EvenProduct(k: int, h: int)
    ensures k * (2 * h) == 2 * (k * h)
  {}

  // ----- Pictures -----

  predicate Dark(picture: seq<string>, x: int, y: int)
    requires 0 <= y < |picture| && 0 <= x < |picture[y]|
  {
    picture[y][x] == '#'
  }

  /** A finder pattern with its light separator. */
  function FinderPicture(): (p: seq<string>)
    ensures |p| == 9 && forall y :: 0 <= y < 9 ==> |p[y]| == 9
  {
    [".........",
     ".#######.",
     ".#.....#.",
     ".#.###.#.",
     ".#.###.#.",
     ".#.###.#.",
     ".#.....#.",
     ".#######.",
     "........."]
  }

  function AlignmentPicture(): (p: seq<string>)
    ensures |p| == 5 && forall y :: 0 <= y < 5 ==> |p[y]| == 5
  {
    ["#####",
     "#...#",
     "#.#.#",
     "#...#",
     "#####"]
  }

  lemma FinderDrawn(dx: int, dy: int)
    requires -4 <= dx <= 4 && -4 <= dy <= 4
    ensures FinderModule(Distance(0, 0, dx, dy)) == Dark(FinderPicture(), dx + 4, dy + 4)
  {
    assert dy == -4 || dy == -3 || dy == -2 || dy == -1 || dy == 0 || dy == 1 || dy == 2 || dy == 3 || dy == 4;
    assert dx == -4 || dx == -3 || dx == -2 || dx == -1 || dx == 0 || dx == 1 || dx == 2 || dx == 3 || dx == 4;
  }

  lemma AlignmentDrawn(dx: int, dy: int)
    requires -2 <= dx <= 2 && -2 <= dy <= 2
    ensures (Distance(0, 0, dx, dy) != 1) == Dark(AlignmentPicture(), dx + 2, dy + 2)
  {
    assert dy == -2 || dy == -1 || dy == 0 || dy == 1 || dy == 2;
    assert dx == -2 || dx == -1 || dx == 0 || dx == 1 || dx == 2;
  }

  lemma Moved(cx: int, cy: int, dx: int, dy: int)
    ensures Distance(cx, cy, cx + dx, cy + dy) == Distance(0, 0, dx, dy)
  {}

  /** No alignment pattern reaches into a finder pattern. */
  lemma FinderClear(v: Version, x: int, y: int)
    requires IsFinder(SizeOf(v), x, y)
    ensures !IsAlignment(v, x, y)
  {
    hide AlignPosition;
    if IsAlignment(v, x, y) {
      var i: nat, j: nat :| InAlignment(v, i, j, x, y);
      PositionBounds(v, i);
      PositionBounds(v, j);
      FirstPosition(v);
      assert false;
    }
  }

  /** Nothing else is drawn over a finder pattern. */
  lemma FinderOnly(v: Version, x: int, y: int)
    requires IsFinder(SizeOf(v), x, y) && 0 <= x < SizeOf(v) && 0 <= y < SizeOf(v)
    ensures FormatIndex(SizeOf(v), x, y) < 0 && !IsVersion(v, x, y)
  {}

  function CornerX(v: Version, corner: nat): int {
    if corner == 1 then SizeOf(v) - 4 else 3
  }

  function CornerY(v: Version, corner: nat): int {
    if corner == 2 then SizeOf(v) - 4 else 3
  }

  lemma FinderAtCorner(v: Version, corner: nat, x: int, y: int)
    requires corner < 3 && Distance(CornerX(v, corner), CornerY(v, corner), x, y) <= 4
    ensures
      IsFinder(SizeOf(v), x, y)
      && FinderAt(SizeOf(v), x, y) == FinderModule(Distance(CornerX(v, corner), CornerY(v, corner), x, y))
  {
    hide FinderModule;
  }

  lemma PatternFinder(v: Version, ecl: Ecc, x: int, y: int)
    requires IsFinder(SizeOf(v), x, y) && FormatIndex(SizeOf(v), x, y) < 0 && !IsVersion(v, x, y) && !IsAlignment(v, x, y)
    ensures PatternModule(v, ecl, x, y) == FinderAt(SizeOf(v), x, y)
  {
    hide IsFinder, FormatIndex, IsVersion, IsAlignment, FinderAt;
  }

  /** All three finder patterns look like the picture, in every version. */
  lemma FindersShown(v: Version, ecl: Ecc, corner: nat, dx: int, dy: int)
    requires corner < 3 && -4 <= dx <= 4 && -4 <= dy <= 4
    requires 0 <= CornerX(v, corner) + dx < SizeOf(v) && 0 <= CornerY(v, corner) + dy < SizeOf(v)
    ensures PatternModule(v, ecl, CornerX(v, corner) + dx, CornerY(v, corner) + dy) == Dark(FinderPicture(), dx + 4, dy + 4)
  {
    hide FinderPicture, FinderModule, Dark, PatternModule, Distance, IsFinder, IsAlignment, IsVersion, FormatIndex;
    var cx, cy := CornerX(v, corner), CornerY(v, corner);
    FinderDrawn(dx, dy);
    Moved(cx, cy, dx, dy);
    WithinFour(dx, dy);
    FinderAtCorner(v, corner, cx + dx, cy + dy);
    FinderClear(v, cx + dx, cy + dy);
    FinderOnly(v, cx + dx, cy + dy);
    PatternFinder(v, ecl, cx + dx, cy + dy);
  }

  lemma WithinFour(dx: int, dy: int)
    requires -4 <= dx <= 4 && -4 <= dy <= 4
    ensures Distance(0, 0, dx, dy) <= 4
  {}

  /** Every alignment pattern looks like the picture, whatever it is drawn over. */
  lemma AlignmentShown(v: Version, ecl: Ecc, i: nat, j: nat, dx: int, dy: int)
    requires HasAlignment(v, i, j) && -2 <= dx <= 2 && -2 <= dy <= 2
    ensures
      PatternModule(v, ecl, AlignPosition(v, i) + dx, AlignPosition(v, j) + dy) == Dark(AlignmentPicture(), dx + 2, dy + 2)
  {
    hide AlignmentPicture, Dark, VersionModule, FormatModule, AlignPosition, AlignmentModule, IsFinder;
    var x, y := AlignPosition(v, i) + dx, AlignPosition(v, j) + dy;
    AlignmentDrawn(dx, dy);
    Moved(AlignPosition(v, i), AlignPosition(v, j), dx, dy);
    assert InAlignment(v, i, j, x, y) by { Near(dx, dy); }
    AlignmentModuleIs(v, i, j, x, y);
    PositionBounds(v, i);
    PositionBounds(v, j);
    FirstPosition(v);
  }

  lemma Near(dx: int, dy: int)
    requires -2 <= dx <= 2 && -2 <= dy <= 2
    ensures Distance(0, 0, dx, dy) <= 2
  {}

  // ----- Timing -----

  /** An alignment pattern in column 6 goes on alternating. */
  lemma AlignedColumn(v: Version, i: nat, j: nat, y: int)
    requires InAlignment(v, i, j, 6, y)
    ensures (Distance(AlignPosition(v, i), AlignPosition(v, j), 6, y) != 1) == (y % 2 == 0)
  {
    hide AlignPosition;
    PositionBounds(v, i);
    FirstPosition(v);
    PositionEven(v, j);
  }

  lemma AlignedTimingRow(v: Version, i: nat, j: nat, x: int)
    requires InAlignment(v, i, j, x, 6)
    ensures (Distance(AlignPosition(v, i), AlignPosition(v, j), x, 6) != 1) == (x % 2 == 0)
  {
    hide AlignPosition;
    PositionBounds(v, j);
    FirstPosition(v);
    PositionEven(v, i);
  }

  lemma BetweenFinders(v: Version, k: int)
    requires 8 <= k <= SizeOf(v) - 9
    ensures FormatIndex(SizeOf(v), 6, k) < 0 && !IsVersion(v, 6, k) && !IsFinder(SizeOf(v), 6, k)
    ensures FormatIndex(SizeOf(v), k, 6) < 0 && !IsVersion(v, k, 6) && !IsFinder(SizeOf(v), k, 6)
  {}

  /** A module in column 6 between the finders. */
  lemma TimingColumn(v: Version, ecl: Ecc, y: int)
    requires 8 <= y <= SizeOf(v) - 9
    ensures PatternModule(v, ecl, 6, y) == (y % 2 == 0)
  {
    hide AlignPosition, AlignmentModule, FormatModule, VersionModule, FormatIndex, IsVersion, IsFinder, Distance, IsCorner;
    BetweenFinders(v, y);
    if IsAlignment(v, 6, y) {
      var i: nat, j: nat :| InAlignment(v, i, j, 6, y);
      AlignmentModuleIs(v, i, j, 6, y);
      AlignedColumn(v, i, j, y);
    }
  }

  lemma TimingRow(v: Version, ecl: Ecc, x: int)
    requires 8 <= x <= SizeOf(v) - 9
    ensures PatternModule(v, ecl, x, 6) == (x % 2 == 0)
  {
    hide AlignPosition, AlignmentModule, FormatModule, VersionModule, FormatIndex, IsVersion, IsFinder, Distance, IsCorner;
    BetweenFinders(v, x);
    if IsAlignment(v, x, 6) {
      var i: nat, j: nat :| InAlignment(v, i, j, x, 6);
      AlignmentModuleIs(v, i, j, x, 6);
      AlignedTimingRow(v, i, j, x);
    }
  }

  /** From dark to dark the timing patterns alternate between the finders, through all alignment patterns on the way. */
  lemma TimingAlternates(v: Version, ecl: Ecc, k: int)
    requires 8 <= k < SizeOf(v) - 9
    ensures PatternModule(v, ecl, 6, 8) && PatternModule(v, ecl, 8, 6)
    ensures PatternModule(v, ecl, 6, k + 1) != PatternModule(v, ecl, 6, k)
    ensures PatternModule(v, ecl, k + 1, 6) != PatternModule(v, ecl, k, 6)
  {
    hide PatternModule;
    TimingColumn(v, ecl, 8);
    TimingColumn(v, ecl, k);
    TimingColumn(v, ecl, k + 1);
    TimingRow(v, ecl, 8);
    TimingRow(v, ecl, k);
    TimingRow(v, ecl, k + 1);
  }

  // ----- Format and version -----

  /** The cells (x, y) of bits 0 to 14 next to the upper left finder. */
  function FirstCopy(): (r: seq<(int, int)>)
    ensures |r| == 15
  {
    [(8, 0), (8, 1), (8, 2), (8, 3), (8, 4), (8, 5), (8, 7), (8, 8), (7, 8), (5, 8), (4, 8), (3, 8), (2, 8), (1, 8), (0, 8)]
  }

  /** The cells of the second copy, below the upper right finder and right of the lower left one. */
  function SecondCopy(n: int): (r: seq<(int, int)>)
    ensures |r| == 15
  {
    [(n - 1, 8), (n - 2, 8), (n - 3, 8), (n - 4, 8), (n - 5, 8), (n - 6, 8), (n - 7, 8), (n - 8, 8),
     (8, n - 7), (8, n - 6), (8, n - 5), (8, n - 4), (8, n - 3), (8, n - 2), (8, n - 1)]
  }

  lemma CopyCells(n: int, i: nat)
    requires n >= 21 && i < 15
    ensures var (x, y) := FirstCopy()[i]; 0 <= x < n && 0 <= y < n && FormatIndex(n, x, y) == i
    ensures var (x, y) := SecondCopy(n)[i]; 0 <= x < n && 0 <= y < n && FormatIndex(n, x, y) == 15 + i
  {
    assert i == 0 || i == 1 || i == 2 || i == 3 || i == 4 || i == 5 || i == 6 || i == 7
        || i == 8 || i == 9 || i == 10 || i == 11 || i == 12 || i == 13 || i == 14;
  }

  predicate ShowsAt(h: Grid, cell: (int, int), dark: bool) {
    0 <= cell.1 < |h| && 0 <= cell.0 < |h[cell.1]| && h[cell.1][cell.0] == dark
  }

  /** A finished symbol shows every bit of the format word twice, and one module that is always dark. */
  lemma FormatShown(f: Grid, size: nat, ecl: Ecc, m: Mask, g: Grid, i: nat)
    requires Square(f, size) && Square(g, size) && size >= 21 && i < 15
    ensures
      var h, bit := Forced(f, size, ecl, m, g), FormatBit(FormatBits(ecl, m), i);
      ShowsAt(h, FirstCopy()[i], bit) && ShowsAt(h, SecondCopy(size)[i], bit) && ShowsAt(h, (8, size - 8), true)
  {
    hide FormatBits, FormatBit, Masked, FirstCopy, SecondCopy;
    CopyCells(size, i);
    assert FormatIndex(size, 8, size - 8) == 30;
  }

  /** From version 7 on bit i is three columns left of the upper right finder, and mirrored above the lower left one. */
  lemma VersionShown(v: Version, ecl: Ecc, i: nat)
    requires v >= 7 && i < 18
    ensures
      var n := SizeOf(v);
      PatternModule(v, ecl, n - 11 + i % 3, i / 3) == VersionBit(VersionBits(v), i) == PatternModule(v, ecl, i / 3, n - 11 + i % 3)
  {
    hide VersionBits, VersionBit, VersionIndex, FormatModule;
    IndexOf(SizeOf(v), i);
  }
}

/**
  The module grid of a QR Code: placing codewords, masking, format bits, penalty score and the
  choice of the mask.
 */
module QrSymbol {
  import opened QrBits
  import opened QrByte
  import opened QrFormat
  import opened QrGrid
  import opened QrPenalty
  import opened QrZigzag
  import opened Wrappers
  import QrVersions

  datatype ArgumentError = InvalidArgument

  const LONG_MAX: nat := 0x7FFF_FFFF

  function Min(a: int, b: int): int {
    if a < b then a else b
  }

  // ----- Masks -----

  /** Whether mask m inverts the module at column x and row y (section 7.8.2). */
  function Inverts(m: Mask, x: nat, y: nat): bool {
    match m
    case 0 => (x + y) % 2 == 0
    case 1 => y % 2 == 0
    case 2 => x % 3 == 0
    case 3 => (x + y) % 3 == 0
    case 4 => (x / 3 + y / 2) % 2 == 0
    case 5 => x * y % 2 + x * y % 3 == 0
    case 6 => (x * y % 2 + x * y % 3) % 2 == 0
    case _ => ((x + y) % 2 + x * y % 3) % 2 == 0
  }

  ghost function Masked(f: Grid, size: nat, m: Mask, g: Grid): (r: Grid)
    requires Square(f, size) && Square(g, size)
    ensures Square(r, size)
    ensures forall y, x :: 0 <= y < size && 0 <= x < size ==>
              r[y][x] == (g[y][x] != (Inverts(m, x, y) && !f[y][x]))
  {
    seq(size, y requires 0 <= y < size =>
      seq(size, x requires 0 <= x < size => g[y][x] != (Inverts(m, x, y) && !f[y][x])))
  }

  ghost function WithFormat(size: nat, bits: bv16, g: Grid): (r: Grid)
    requires Square(g, size)
    ensures Square(r, size)
    ensures forall y, x :: 0 <= y < size && 0 <= x < size ==> r[y][x] == FormatDrawn(size, bits, 31, x, y, g[y][x])
  {
    seq(size, y requires 0 <= y < size =>
      seq(size, x requires 0 <= x < size => FormatDrawn(size, bits, 31, x, y, g[y][x])))
  }

  /** The symbol that results when mask m is forced. */
  ghost function Forced(f: Grid, size: nat, ecl: Ecc, m: Mask, g: Grid): (r: Grid)
    requires Square(f, size) && Square(g, size)
    ensures Square(r, size)
  {
    WithFormat(size, FormatBits(ecl, m), Masked(f, size, m, g))
  }

  /** Every cell that carries format bits is a function module. */
  ghost predicate FormatReserved(f: Grid, size: nat)
    requires Square(f, size)
  {
    forall x, y :: 0 <= x < size && 0 <= y < size && FormatIndex(size, x, y) >= 0 ==> f[y][x]
  }

  /** Equal outside the format cells. */
  ghost predicate AgreeOffFormat(size: nat, g: Grid, h: Grid)
    requires Square(g, size) && Square(h, size)
  {
    forall x, y :: 0 <= x < size && 0 <= y < size && FormatIndex(size, x, y) < 0 ==> g[y][x] == h[y][x]
  }

  /** A mask applied twice is no mask. */
  lemma MaskInvolution(f: Grid, size: nat, m: Mask, g: Grid)
    requires Square(f, size) && Square(g, size)
    ensures Masked(f, size, m, Masked(f, size, m, g)) == g
  {
    SameGrid(Masked(f, size, m, Masked(f, size, m, g)), g, size);
  }

  /** Forcing a mask depends only on the modules outside the format cells ... */
  lemma ForcedAgrees(f: Grid, size: nat, ecl: Ecc, m: Mask, g: Grid, h: Grid)
    requires Square(f, size) && Square(g, size) && Square(h, size)
    requires FormatReserved(f, size) && AgreeOffFormat(size, g, h)
    ensures Forced(f, size, ecl, m, g) == Forced(f, size, ecl, m, h)
  {
    hide FormatBits, FormatModule, Inverts;
    IndexBound(size);
    SameGrid(Forced(f, size, ecl, m, g), Forced(f, size, ecl, m, h), size);
  }

  /** ... and removing the mask again restores those. */
  lemma UnmaskForced(f: Grid, size: nat, ecl: Ecc, m: Mask, g: Grid)
    requires Square(f, size) && Square(g, size) && FormatReserved(f, size)
    ensures AgreeOffFormat(size, Masked(f, size, m, Forced(f, size, ecl, m, g)), g)
  {
    hide FormatBits, FormatModule, Inverts;
  }

  lemma IndexBound(size: nat)
    ensures forall x, y :: FormatIndex(size, x, y) <= 30
  {}

  // ----- The class -----

  class QrCode {
    const version: QrVersions.Version
    const size: nat
    const ecl: Ecc
    const modules: array2<bool>
    const isFunction: array2<bool>

    /** A blank symbol, all light, without function modules. */
    constructor (version: QrVersions.Version, ecl: Ecc)
      ensures Valid() && size == version * 4 + 17 && this.version == version && this.ecl == ecl
      ensures fresh(modules) && fresh(isFunction)
      ensures forall y, x :: 0 <= y < size && 0 <= x < size ==> !modules[y, x] && !isFunction[y, x]
    {
      var n := version * 4 + 17;
      this.version := version;
      size := n;
      this.ecl := ecl;
      modules := new bool[n, n]((_, _) => false);
      isFunction := new bool[n, n]((_, _) => false);
    }

    ghost predicate Valid() {
      ValidSize(size) && size <= 177 && size == version * 4 + 17 && modules != isFunction
      && modules.Length0 == size && modules.Length1 == size
      && isFunction.Length0 == size && isFunction.Length1 == size
    }

    ghost function Modules(): (g: Grid)
      requires Valid()
      reads modules
      ensures Square(g, size)
      ensures forall y, x :: 0 <= y < size && 0 <= x < size ==> g[y][x] == modules[y, x]
    {
      GridOf(modules)
    }

    ghost function Functions(): (g: Grid)
      requires Valid()
      reads isFunction
      ensures Square(g, size)
      ensures forall y, x :: 0 <= y < size && 0 <= x < size ==> g[y][x] == isFunction[y, x]
    {
      GridOf(isFunction)
    }

    method SetFunctionModule(x: nat, y: nat, isDark: bool)
      requires Valid() && x < size && y < size
      modifies modules, isFunction
      ensures forall v, u :: 0 <= v < size && 0 <= u < size ==>
        modules[v, u] == (if v == y && u == x then isDark else old(modules[v, u])) &&
        isFunction[v, u] == (if v == y && u == x then true else old(isFunction[v, u]))
    {
      modules[y, x] := isDark;
      isFunction[y, x] := true;
    }

    // ----- Format bits -----

    method DrawFormatBits(m: Mask)
      requires Valid()
      modifies modules, isFunction
      ensures Modules() == WithFormat(size, FormatBits(ecl, m), old(Modules()))
      ensures forall y, x :: 0 <= y < size && 0 <= x < size ==>
        isFunction[y, x] == (old(isFunction[y, x]) || FormatIndex(size, x, y) >= 0)
    {
      hide FormatBits, FormatModule, FormatBit;
      var bits := ComputeFormatBits(ecl, m);
      FirstCopy(bits);
      SecondCopy(bits);
      IndexBound(size);
      SameGrid(Modules(), WithFormat(size, bits, old(Modules())), size);
    }

    /** One more format cell. */
    method DrawFormatModule(ghost bits: bv16, ghost k: nat, x: nat, y: nat, isDark: bool)
      requires Valid() && k <= 30 && x < size && y < size
      requires FormatIndex(size, x, y) == k && isDark == FormatModule(bits, k)
      modifies modules, isFunction
      ensures FormatAdvance(bits, k, k + 1)
    {
      hide FormatModule;
      SetFunctionModule(x, y, isDark);
      OneCell(size, x, y, k);
    }

    /** From the first j format cells to the first k. */
    twostate predicate FormatAdvance(bits: bv16, j: nat, k: nat)
      requires Valid()
      reads modules, isFunction
    {
      forall y, x :: 0 <= y < size && 0 <= x < size ==>
        var i := FormatIndex(size, x, y);
        modules[y, x] == (if j <= i < k && i <= 30 then FormatModule(bits, i) else old(modules[y, x])) &&
        isFunction[y, x] == (old(isFunction[y, x]) || j <= i < k)
    }

    method FirstCopy(bits: bv16)
      requires Valid()
      modifies modules, isFunction
      ensures FormatAdvance(bits, 0, 15)
    {
      hide FormatModule;
      FormatModuleIs(bits);
      for i := 0 to 6
        invariant FormatAdvance(bits, 0, i)
      {
        DrawFormatModule(bits, i, 8, i, FormatBit(bits, i));
      }
      DrawFormatModule(bits, 6, 8, 7, FormatBit(bits, 6));
      DrawFormatModule(bits, 7, 8, 8, FormatBit(bits, 7));
      DrawFormatModule(bits, 8, 7, 8, FormatBit(bits, 8));
      for i := 9 to 15
        invariant FormatAdvance(bits, 0, i)
      {
        DrawFormatModule(bits, i, 14 - i, 8, FormatBit(bits, i));
      }
    }

    method SecondCopy(bits: bv16)
      requires Valid()
      modifies modules, isFunction
      ensures FormatAdvance(bits, 15, 31)
    {
      hide FormatModule;
      FormatModuleIs(bits);
      for i := 0 to 8
        invariant FormatAdvance(bits, 15, 15 + i)
      {
        DrawFormatModule(bits, 15 + i, size - 1 - i, 8, FormatBit(bits, i));
      }
      for i := 8 to 15
        invariant FormatAdvance(bits, 15, 15 + i)
      {
        DrawFormatModule(bits, 15 + i, 8, size - 15 + i, FormatBit(bits, i));
      }
      DrawFormatModule(bits, 30, 8, size - 8, true);
    }
  
    // ----- Penalty -----

    method GetPenaltyScore() returns (result: nat)
      requires Valid()
      ensures result == PenaltyScore(Modules(), size)
    {
      var lines := ScoreLines();
      var blocks := CountBlocks();
      var dark := CountDark();
      result := lines + blocks * PENALTY_N2;
      var total := size * size;
      OddSquare(size);
      DarkBound(Modules(), size);
      var k := BalanceSteps(dark, total);
      result := result + k * PENALTY_N4;
    }

    /** Runs and finder-like patterns, row by row and then column by column. */
    method ScoreLines() returns (result: nat)
      requires Valid()
      ensures result == RowsScore(Modules(), size, size) + ColumnsScore(Modules(), size, size)
    {
      hide LineScore;
      ghost var g := Modules();
      result := 0;
      for y := 0 to size
        invariant result == RowsScore(g, size, y)
      {
        var row := seq(size, x requires 0 <= x < size reads modules => modules[y, x]);
        assert row == g[y];
        var score := ScoreLine(row, size);
        result := result + score;
      }
      for x := 0 to size
        invariant result == RowsScore(g, size, size) + ColumnsScore(g, size, x)
      {
        var column := seq(size, y requires 0 <= y < size reads modules => modules[y, x]);
        assert column == Column(g, x);
        var score := ScoreLine(column, size);
        result := result + score;
      }
    }

    method CountBlocks() returns (count: nat)
      requires Valid()
      ensures count == |Blocks(Modules(), size, 0, size)|
    {
      hide Blocks;
      ghost var g := Modules();
      count := 0;
      BlocksNextRow(g, size, size - 1);
      for y := 0 to size - 1
        invariant count == |Blocks(g, size, 0, y)|
      {
        for x := 0 to size - 1
          invariant count == |Blocks(g, size, x, y)|
        {
          BlocksNext(g, size, x, y);
          var color := modules[y, x];
          if color == modules[y, x + 1] && color == modules[y + 1, x] && color == modules[y + 1, x + 1] {
            count := count + 1;
          }
        }
        BlocksNextRow(g, size, y);
      }
    }

    method CountDark() returns (count: nat)
      requires Valid()
      ensures count == |Dark(Modules(), size, 0, size)|
    {
      hide Dark;
      ghost var g := Modules();
      count := 0;
      DarkNextRow(g, size, 0);
      for y := 0 to size
        invariant count == |Dark(g, size, 0, y)|
      {
        for x := 0 to size
          invariant count == |Dark(g, size, x, y)|
        {
          DarkNext(g, size, x, y);
          if modules[y, x] {
            count := count + 1;
          }
        }
        DarkNextRow(g, size, y);
      }
    }

    // ----- Masking -----

    method ApplyMask(m: Mask)
      requires Valid()
      modifies modules
      ensures Modules() == Masked(Functions(), size, m, old(Modules()))
    {
      hide Inverts;
      for y := 0 to size
        invariant forall v, u :: 0 <= v < size && 0 <= u < size ==> 
          modules[v, u] == (old(modules[v, u]) != (v < y && Inverts(m, u, v) && !isFunction[v, u]))
      {
        for x := 0 to size
          invariant forall v, u :: 0 <= v < size && 0 <= u < size ==> 
            modules[v, u] == (old(modules[v, u]) != (Before(u, v, x, y) && Inverts(m, u, v) && !isFunction[v, u]))
        {
          modules[y, x] := modules[y, x] != (Inverts(m, x, y) && !isFunction[y, x]);
        }
      }
      SameGrid(Modules(), Masked(Functions(), size, m, old(Modules())), size);
    }

    // ----- Codewords -----

    /** From g on, the first t steps of the scan have placed i of the bits. */
    ghost predicate Placing(g: Grid, bits: seq<bool>, t: int, i: int)
      requires Valid() && Square(g, size) && 0 <= t <= Steps(size)
      reads modules, isFunction
    {
      i == Min(|bits|, FreeBefore(Functions(), size, t)) &&
      forall x, y :: 0 <= x < size && 0 <= y < size ==>
        modules[y, x] == Placed(Functions(), size, bits, t, x, y, g[y][x])
    }

    /**
      Rejects data that does not fill the symbol; otherwise places the bits of the codewords in zigzag order, and
      returns how many there was room for.
     */
    method DrawCodewords(data: seq<byte>) returns (r: Result<nat, ArgumentError>)
      requires Valid()
      modifies modules
      ensures r.Success? <==> |data| == QrVersions.NumRawDataModules(version) / 8
      ensures r.Failure? ==> Modules() == old(Modules())
      ensures r.Success? ==> AllPlaced(Functions(), size, BitsOf(data), old(Modules()), Modules())
      ensures r.Success? ==> r.value == Min(8 * |data|, FreeModules(Functions(), size))
    {
      hide BitsOf, AllPlaced, QrVersions.NumRawDataModules, FreeModules;
      if |data| != QrVersions.NumRawDataModules(version) / 8 {
        return Failure(InvalidArgument);
      }
      var i := PlaceCodewords(data);
      r := Success(i);
    }

    method PlaceCodewords(data: seq<byte>) returns (i: nat)
      requires Valid()
      modifies modules
      ensures AllPlaced(Functions(), size, BitsOf(data), old(Modules()), Modules())
      ensures i == Min(8 * |data|, FreeModules(Functions(), size))
    {
      hide BitsOf, FreeBefore, Placed, AllPlaced, Placing;
      ghost var g := Modules();
      i := 0;
      StartPlacing(g, BitsOf(data));
      var right: int := size - 1;
      ghost var p := 0;
      while right >= 1
        invariant 0 <= p <= (size - 1) / 2
        invariant right == (if size - 1 - 2 * p < 6 then size - 2 - 2 * p else size - 1 - 2 * p)
        invariant 0 <= StepOf(size, p, 0, 0) <= Steps(size) && Placing(g, BitsOf(data), StepOf(size, p, 0, 0), i)
        decreases right
      {
        if right == 6 {
          right := 5;
        }
        i := DrawColumns(data, i, right, g, p);
        p := p + 1;
        right := right - 2;
      }
      HalfSteps(size, p);
      BitCount(data);
      PlacedAll(g, BitsOf(data), i);
    }

    /** After the last step every module is as it should be. */
    ghost method PlacedAll(g: Grid, bits: seq<bool>, i: nat)
      requires Valid() && Square(g, size) && 0 <= Steps(size) && Placing(g, bits, Steps(size), i)
      ensures AllPlaced(Functions(), size, bits, g, Modules()) && i == Min(|bits|, FreeModules(Functions(), size))
    {
      hide FreeBefore, Placed;
    }

    ghost method StartPlacing(g: Grid, bits: seq<bool>)
      requires Valid() && g == Modules()
      ensures 0 <= Steps(size) && Placing(g, bits, 0, 0)
    {
      hide Placed, FreeBefore, Functions;
      HalfSteps(size, (size - 1) / 2);
      NothingBefore(Functions(), size);
      forall x, y | 0 <= x < size && 0 <= y < size
        ensures modules[y, x] == Placed(Functions(), size, bits, 0, x, y, g[y][x])
      {
        PlacedNone(Functions(), size, bits, x, y, g[y][x]);
      }
    }

    /** One pair of columns. */
    method DrawColumns(data: seq<byte>, from: nat, right: nat, ghost g: Grid, ghost p: int) returns (i: nat)
      requires Valid() && Square(g, size) && 0 <= p < (size - 1) / 2 && right == RightColumn(size, p)
      requires 0 <= StepOf(size, p, 0, 0) <= Steps(size) && Placing(g, BitsOf(data), StepOf(size, p, 0, 0), from)
      modifies modules
      ensures 0 <= StepOf(size, p + 1, 0, 0) <= Steps(size) && Placing(g, BitsOf(data), StepOf(size, p + 1, 0, 0), i)
    {
      hide BitsOf, Placing, StepOf, Steps, RightColumn;
      i := from;
      for vert := 0 to size
        invariant 0 <= StepOf(size, p, vert, 0) <= Steps(size) && Placing(g, BitsOf(data), StepOf(size, p, vert, 0), i)
      {
        for j := 0 to 2
          invariant 0 <= StepOf(size, p, vert, j) <= Steps(size) && Placing(g, BitsOf(data), StepOf(size, p, vert, j), i)
        {
          StepRange(size, p, vert, j);
          StepParts(size, p, vert, j);
          StepNext(size, p, vert, j);
          ColumnRange(size, p);
          var x := right - j;
          var y := if Upward(right) then size - 1 - vert else vert;
          i := DrawCodewordBit(data, i, x, y, g, StepOf(size, p, vert, j));
        }
        StepNext(size, p, vert, 0);
      }
      StepNext(size, p, 0, 0);
    }

    /** One step of the scan. */
    method DrawCodewordBit(data: seq<byte>, from: nat, x: nat, y: nat, ghost g: Grid, ghost t: int) returns (i: nat)
      requires Valid() && Square(g, size) && 0 <= t < Steps(size)
      requires x < size && y < size && Cell(size, t) == (x, y)
      requires Placing(g, BitsOf(data), t, from)
      modifies modules
      ensures Placing(g, BitsOf(data), t + 1, i)
    {
      hide Placed, Bit;
      i := from;
      ghost var f, bits := Functions(), BitsOf(data);
      NotYetPlaced(f, size, bits, t, g[y][x]);
      if !isFunction[y, x] && i < |data| * 8 {
        modules[y, x] := Bit(data[i / 8], 7 - i % 8);
        i := i + 1;
      }
      assert f == Functions();
      forall u, v | 0 <= u < size && 0 <= v < size
        ensures modules[v, u] == Placed(f, size, bits, t + 1, u, v, g[v][u])
      {
        PlacedStep(f, size, bits, t, u, v, g[v][u]);
      }
    }

    // ----- Choice of the mask -----

    /**
      Applies the given mask, or the best of the eight when msk is -1, and draws the format bits.
      The best mask is the one whose finished symbol has the least penalty, the first of equals.
     */
    method ChooseMask(msk: int) returns (mask: Mask)
      requires Valid() && -1 <= msk <= 7 && FormatReserved(Functions(), size)
      modifies modules, isFunction
      ensures Functions() == old(Functions())
      ensures Modules() == Forced(Functions(), size, ecl, mask, old(Modules()))
      ensures msk >= 0 ==> mask == msk
      ensures msk == -1 ==> BestMask(Functions(), size, ecl, old(Modules()), mask)
    {
      hide Forced, Masked, PenaltyScore, AgreeOffFormat, FormatReserved;
      ghost var f, g := Functions(), Modules();
      AgreeReflexive(size, g);
      var chosen := msk;
      if msk == -1 {
        var minPenalty: int := LONG_MAX;
        for i := 0 to 8
          invariant Functions() == f && AgreeOffFormat(size, Modules(), g)
          invariant i == 0 ==> chosen == -1 && minPenalty == LONG_MAX
          invariant i > 0 ==> 0 <= chosen < i && minPenalty == MaskPenalty(f, size, ecl, g, chosen)
          invariant forall m: Mask :: m < i ==>
            minPenalty <= MaskPenalty(f, size, ecl, g, m) && (m < chosen ==> minPenalty < MaskPenalty(f, size, ecl, g, m))
        {
          ApplyMaskAndFormat(i, g);
          var penalty := GetPenaltyScore();
          PenaltyBound(Modules(), size);
          if penalty < minPenalty {
            chosen := i;
            minPenalty := penalty;
          }
          ApplyMask(i);
          UnmaskForced(f, size, ecl, i, g);
        }
      }
      mask := chosen;
      ApplyMaskAndFormat(mask, g);
    }

    /** Forces mask m on a grid that agrees with g outside the format cells. */
    method ApplyMaskAndFormat(m: Mask, ghost g: Grid)
      requires Valid() && Square(g, size) && FormatReserved(Functions(), size)
      requires AgreeOffFormat(size, Modules(), g)
      modifies modules, isFunction
      ensures Functions() == old(Functions())
      ensures Modules() == Forced(Functions(), size, ecl, m, g)
    {
      hide FormatBits, FormatDrawn, Inverts, AgreeOffFormat;
      ghost var f, h := Functions(), Modules();
      ApplyMask(m);
      assert Functions() == f;
      DrawFormatBits(m);
      SameGrid(Functions(), f, size);
      ForcedAgrees(f, size, ecl, m, h, g);
    }
  }

  /** The penalty of the symbol that results when mask m is forced. */
  ghost function MaskPenalty(f: Grid, size: nat, ecl: Ecc, g: Grid, m: Mask): nat
    requires Square(f, size) && Square(g, size) && size % 2 == 1
  {
    PenaltyScore(Forced(f, size, ecl, m, g), size)
  }

  ghost predicate BestMask(f: Grid, size: nat, ecl: Ecc, g: Grid, mask: Mask)
    requires Square(f, size) && Square(g, size) && size % 2 == 1
  {
    forall m: Mask :: MaskPenalty(f, size, ecl, g, mask) <= MaskPenalty(f, size, ecl, g, m)
      && (m < mask ==> MaskPenalty(f, size, ecl, g, mask) < MaskPenalty(f, size, ecl, g, m))
  }

  lemma AgreeReflexive(size: nat, g: Grid)
    requires Square(g, size)
    ensures AgreeOffFormat(size, g, g)
  {}

  lemma ColumnRange(size: int, p: int)
    requires ValidSize(size) && 0 <= p < (size - 1) / 2
    ensures 1 <= RightColumn(size, p) < size
  {}

  lemma BitCount(data: seq<byte>)
    ensures |BitsOf(data)| == 8 * |data|
  {}

  lemma FormatModuleIs(bits: bv16)
    ensures forall k: nat :: k < 15 ==> FormatModule(bits, k) == FormatBit(bits, k) == FormatModule(bits, 15 + k)
    ensures FormatModule(bits, 30) == true
  {}

  /** No two format cells have the same number. */
  lemma OneCell(size: nat, x: nat, y: nat, k: nat)
    requires size >= 21 && FormatIndex(size, x, y) == k
    ensures forall u, v :: 0 <= u < size && 0 <= v < size && FormatIndex(size, u, v) == k ==> u == x && v == y
  {}
}

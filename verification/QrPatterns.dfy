/**
  The function patterns of a symbol: timing, finders, alignment, format and version.  They are drawn one
  over the other; together they reserve a fixed set of modules that depends on the version only.
 */
module QrPatterns {
  import opened QrFormat
  import opened QrGrid
  import opened QrSymbol
  import opened QrVersions

  // ----- Where the patterns are -----

  function Abs(x: int): nat {
    if x < 0 then -x else x
  }

  /** The Chebyshev distance. */
  function Distance(cx: int, cy: int, x: int, y: int): nat {
    if Abs(x - cx) < Abs(y - cy) then Abs(y - cy) else Abs(x - cx)
  }

  function NumAlign(version: Version): nat {
    if version == 1 then 0 else version / 7 + 2
  }

  /** The distance of neighbouring alignment patterns, but for the first two. */
  function AlignStep(version: Version): nat
    requires version >= 2
  {
    var numAlign := NumAlign(version);
    (version * 8 + numAlign * 3 + 5) / (numAlign * 4 - 4) * 2
  }

  function AlignPosition(version: Version, i: nat): int
    requires i < NumAlign(version)
  {
    if i == 0 then 6 else SizeOf(version) - 7 - (NumAlign(version) - 1 - i) * AlignStep(version)
  }

  /** The three corners with finder patterns. */
  predicate IsCorner(numAlign: nat, i: nat, j: nat) {
    (i == 0 && j == 0) || (i == 0 && j == numAlign - 1) || (i == numAlign - 1 && j == 0)
  }

  predicate HasAlignment(version: Version, i: nat, j: nat) {
    i < NumAlign(version) && j < NumAlign(version) && !IsCorner(NumAlign(version), i, j)
  }

  predicate InAlignment(version: Version, i: nat, j: nat, x: int, y: int) {
    HasAlignment(version, i, j) && Distance(AlignPosition(version, i), AlignPosition(version, j), x, y) <= 2
  }

  ghost predicate IsAlignment(version: Version, x: int, y: int) {
    exists i: nat, j: nat :: InAlignment(version, i, j, x, y)
  }

  predicate IsFinder(size: nat, x: int, y: int) {
    Distance(3, 3, x, y) <= 4 || Distance(size - 4, 3, x, y) <= 4 || Distance(3, size - 4, x, y) <= 4
  }

  predicate IsTiming(x: int, y: int) {
    x == 6 || y == 6
  }

  /** Bit i of the version is at VersionIndex i, in two copies. */
  function VersionIndex(size: nat, x: int, y: int): int {
    if 0 <= y < 6 && size - 11 <= x < size - 8 then 3 * y + (x - (size - 11))
    else if 0 <= x < 6 && size - 11 <= y < size - 8 then 3 * x + (y - (size - 11))
    else -1
  }

  predicate IsVersion(version: Version, x: int, y: int) {
    version >= 7 && VersionIndex(SizeOf(version), x, y) >= 0
  }

  /** The function modules of a version. */
  ghost predicate Reserved(version: Version, x: int, y: int) {
    IsTiming(x, y) || IsFinder(SizeOf(version), x, y) || IsAlignment(version, x, y)
    || FormatIndex(SizeOf(version), x, y) >= 0 || IsVersion(version, x, y)
  }

  // ----- Drawing -----

  method DrawTiming(q: QrCode)
    requires q.Valid()
    modifies q.modules, q.isFunction
    ensures forall y, x :: 0 <= y < q.size && 0 <= x < q.size ==>
      q.modules[y, x] == (if x == 6 then y % 2 == 0 else if y == 6 then x % 2 == 0 else old(q.modules[y, x])) &&
      q.isFunction[y, x] == (old(q.isFunction[y, x]) || IsTiming(x, y))
  {
    for i := 0 to q.size
      invariant forall y, x :: 0 <= y < q.size && 0 <= x < q.size ==>
        q.modules[y, x] ==
          (if x == 6 && y < i then y % 2 == 0 else if y == 6 && x < i then x % 2 == 0 else old(q.modules[y, x])) &&
        q.isFunction[y, x] == (old(q.isFunction[y, x]) || (x == 6 && y < i) || (y == 6 && x < i))
    {
      q.SetFunctionModule(6, i, i % 2 == 0);
      q.SetFunctionModule(i, 6, i % 2 == 0);
    }
  }

  /** The ring of a finder pattern that is light, and its separator. */
  predicate FinderModule(distance: nat) {
    distance != 2 && distance != 4
  }

  method DrawFinderPattern(q: QrCode, cx: int, cy: int)
    requires q.Valid()
    modifies q.modules, q.isFunction
    ensures forall y, x :: 0 <= y < q.size && 0 <= x < q.size ==>
      var d := Distance(cx, cy, x, y);
      q.modules[y, x] == (if d <= 4 then FinderModule(d) else old(q.modules[y, x])) &&
      q.isFunction[y, x] == (old(q.isFunction[y, x]) || d <= 4)
  {
    for dy := -4 to 5
      invariant forall y, x :: 0 <= y < q.size && 0 <= x < q.size ==>
        var d := Distance(cx, cy, x, y);
        q.modules[y, x] == (if d <= 4 && y - cy < dy then FinderModule(d) else old(q.modules[y, x])) &&
        q.isFunction[y, x] == (old(q.isFunction[y, x]) || (d <= 4 && y - cy < dy))
    {
      for dx := -4 to 5
        invariant forall y, x :: 0 <= y < q.size && 0 <= x < q.size ==>
          var d := Distance(cx, cy, x, y);
          var drawn := d <= 4 && (y - cy < dy || (y - cy == dy && x - cx < dx));
          q.modules[y, x] == (if drawn then FinderModule(d) else old(q.modules[y, x])) &&
          q.isFunction[y, x] == (old(q.isFunction[y, x]) || drawn)
      {
        var dist := if Abs(dx) < Abs(dy) then Abs(dy) else Abs(dx);
        var xx, yy := cx + dx, cy + dy;
        if 0 <= xx < q.size && 0 <= yy < q.size {
          q.SetFunctionModule(xx, yy, dist != 2 && dist != 4);
        }
      }
    }
  }

  /** What the finder pattern at a module shows. */
  predicate FinderAt(size: nat, x: int, y: int) {
    if Distance(3, size - 4, x, y) <= 4 then FinderModule(Distance(3, size - 4, x, y))
    else if Distance(size - 4, 3, x, y) <= 4 then FinderModule(Distance(size - 4, 3, x, y))
    else FinderModule(Distance(3, 3, x, y))
  }

  method DrawFinderPatterns(q: QrCode)
    requires q.Valid()
    modifies q.modules, q.isFunction
    ensures forall y, x :: 0 <= y < q.size && 0 <= x < q.size ==>
      q.modules[y, x] == (if IsFinder(q.size, x, y) then FinderAt(q.size, x, y) else old(q.modules[y, x])) &&
      q.isFunction[y, x] == (old(q.isFunction[y, x]) || IsFinder(q.size, x, y))
  {
    hide Distance, FinderModule;
    DrawFinderPattern(q, 3, 3);
    DrawFinderPattern(q, q.size - 4, 3);
    DrawFinderPattern(q, 3, q.size - 4);
  }

  method DrawAlignmentPattern(q: QrCode, cx: int, cy: int)
    requires q.Valid() && 2 <= cx < q.size - 2 && 2 <= cy < q.size - 2
    modifies q.modules, q.isFunction
    ensures forall y, x :: 0 <= y < q.size && 0 <= x < q.size ==>
      var d := Distance(cx, cy, x, y);
      q.modules[y, x] == (if d <= 2 then d != 1 else old(q.modules[y, x])) &&
      q.isFunction[y, x] == (old(q.isFunction[y, x]) || d <= 2)
  {
    for dy := -2 to 3
      invariant forall y, x :: 0 <= y < q.size && 0 <= x < q.size ==>
        var d := Distance(cx, cy, x, y);
        q.modules[y, x] == (if d <= 2 && y - cy < dy then d != 1 else old(q.modules[y, x])) &&
        q.isFunction[y, x] == (old(q.isFunction[y, x]) || (d <= 2 && y - cy < dy))
    {
      for dx := -2 to 3
        invariant forall y, x :: 0 <= y < q.size && 0 <= x < q.size ==>
          var d := Distance(cx, cy, x, y);
          var drawn := d <= 2 && (y - cy < dy || (y - cy == dy && x - cx < dx));
          q.modules[y, x] == (if drawn then d != 1 else old(q.modules[y, x])) &&
          q.isFunction[y, x] == (old(q.isFunction[y, x]) || drawn)
      {
        q.SetFunctionModule(cx + dx, cy + dy, (if Abs(dx) < Abs(dy) then Abs(dy) else Abs(dx)) != 1);
      }
    }
  }

  method GetAlignmentPatternPositions(version: Version) returns (result: seq<int>)
    ensures |result| == NumAlign(version)
    ensures forall i :: 0 <= i < |result| ==> result[i] == AlignPosition(version, i)
  {
    result := [];
    if version == 1 {
      return;
    }
    var numAlign := version / 7 + 2;
    var step := (version * 8 + numAlign * 3 + 5) / (numAlign * 4 - 4) * 2;
    var pos := SizeOf(version) - 7;
    for i := 0 to numAlign - 1
      invariant |result| == i && pos == SizeOf(version) - 7 - i * step
      invariant forall k :: 0 <= k < i ==> result[k] == AlignPosition(version, numAlign - i + k)
    {
      result := [pos] + result;
      pos := pos - step;
    }
    result := [6] + result;
  }

  // ----- Distances of alignment patterns -----

  lemma StepBounds(version: Version)
    requires version >= 7
    ensures AlignStep(version) >= 16 && SizeOf(version) - 7 - (NumAlign(version) - 2) * AlignStep(version) >= 16
  {
    var a := NumAlign(version);
    assert a == 3 || a == 4 || a == 5 || a == 6 || a == 7;
  }

  lemma Products(n: int, m: int, s: int)
    requires 0 <= n <= m && s >= 0
    ensures n * s <= m * s && (n < m ==> n * s + s <= m * s)
  {
    assert m * s == n * s + (m - n) * s;
    if n < m {
      assert (m - n) * s == s + (m - n - 1) * s;
    }
  }

  /** The last position, and how far the others stay from the borders. */
  lemma PositionBounds(version: Version, i: nat)
    requires i < NumAlign(version)
    ensures i > 0 ==> 16 <= AlignPosition(version, i) <= SizeOf(version) - 7
    ensures 0 < i < NumAlign(version) - 1 ==> AlignPosition(version, i) <= SizeOf(version) - 23
    ensures i == NumAlign(version) - 1 ==> AlignPosition(version, i) == SizeOf(version) - 7
  {
    hide AlignStep;
    if version >= 7 {
      StepBounds(version);
      var s, a := AlignStep(version), NumAlign(version);
      if i > 0 {
        Products(a - 1 - i, a - 2, s);
        if i < a - 1 {
          Products(1, a - 1 - i, s);
        }
      }
    }
  }

  lemma PositionSpacing(version: Version, i: nat, j: nat)
    requires i < j < NumAlign(version)
    ensures AlignPosition(version, i) + 10 <= AlignPosition(version, j)
  {
    hide AlignStep;
    PositionBounds(version, j);
    if i > 0 {
      StepBounds(version);
      var s, a := AlignStep(version), NumAlign(version);
      Products(a - 1 - j, a - 1 - i, s);
    }
  }

  /** No two alignment patterns touch. */
  lemma AlignmentUnique(version: Version, i: nat, j: nat, k: nat, l: nat, x: int, y: int)
    requires InAlignment(version, i, j, x, y) && InAlignment(version, k, l, x, y)
    ensures i == k && j == l
  {
    hide AlignPosition;
    if i != k {
      PositionSpacing(version, if i < k then i else k, if i < k then k else i);
    }
    if j != l {
      PositionSpacing(version, if j < l then j else l, if j < l then l else j);
    }
  }

  // ----- Alignment patterns -----

  /** The pattern comes before pattern (i, j) in the order of drawing. */
  predicate DrawnBefore(k: nat, l: nat, i: nat, j: nat) {
    k < i || (k == i && l < j)
  }

  ghost predicate AlignedBefore(version: Version, i: nat, j: nat, x: int, y: int) {
    exists k: nat, l: nat :: InAlignment(version, k, l, x, y) && DrawnBefore(k, l, i, j)
  }

  /** What the alignment pattern at a module shows. */
  ghost predicate AlignmentModule(version: Version, x: int, y: int) {
    exists i: nat, j: nat ::
      InAlignment(version, i, j, x, y) && Distance(AlignPosition(version, i), AlignPosition(version, j), x, y) != 1
  }

  lemma AlignmentModuleIs(version: Version, i: nat, j: nat, x: int, y: int)
    requires InAlignment(version, i, j, x, y)
    ensures AlignmentModule(version, x, y) <==> Distance(AlignPosition(version, i), AlignPosition(version, j), x, y) != 1
  {
    hide Distance, AlignPosition;
    if AlignmentModule(version, x, y) {
      var k: nat, l: nat :|
        InAlignment(version, k, l, x, y) && Distance(AlignPosition(version, k), AlignPosition(version, l), x, y) != 1;
      AlignmentUnique(version, i, j, k, l, x, y);
    }
  }

  lemma AlignedNext(version: Version, i: nat, j: nat, x: int, y: int)
    ensures AlignedBefore(version, i, j + 1, x, y) <==> AlignedBefore(version, i, j, x, y) || InAlignment(version, i, j, x, y)
  {
    hide InAlignment;
    if AlignedBefore(version, i, j, x, y) {
      var k: nat, l: nat :| InAlignment(version, k, l, x, y) && DrawnBefore(k, l, i, j);
      assert DrawnBefore(k, l, i, j + 1);
    }
    if InAlignment(version, i, j, x, y) {
      assert DrawnBefore(i, j, i, j + 1);
    }
    if AlignedBefore(version, i, j + 1, x, y) {
      var k: nat, l: nat :| InAlignment(version, k, l, x, y) && DrawnBefore(k, l, i, j + 1);
      assert DrawnBefore(k, l, i, j) || (k == i && l == j);
    }
  }

  lemma AlignedRow(version: Version, i: nat, x: int, y: int)
    ensures AlignedBefore(version, i + 1, 0, x, y) <==> AlignedBefore(version, i, NumAlign(version), x, y)
  {
    hide Distance, AlignPosition, IsCorner;
    if AlignedBefore(version, i, NumAlign(version), x, y) {
      var k: nat, l: nat :| InAlignment(version, k, l, x, y) && DrawnBefore(k, l, i, NumAlign(version));
      assert DrawnBefore(k, l, i + 1, 0);
    }
    if AlignedBefore(version, i + 1, 0, x, y) {
      var k: nat, l: nat :| InAlignment(version, k, l, x, y) && DrawnBefore(k, l, i + 1, 0);
      assert DrawnBefore(k, l, i, NumAlign(version));
    }
  }

  lemma AllAligned(version: Version, x: int, y: int)
    ensures AlignedBefore(version, NumAlign(version), 0, x, y) <==> IsAlignment(version, x, y)
    ensures !AlignedBefore(version, 0, 0, x, y)
  {
    hide Distance, AlignPosition, IsCorner;
    if IsAlignment(version, x, y) {
      var k: nat, l: nat :| InAlignment(version, k, l, x, y);
      assert DrawnBefore(k, l, NumAlign(version), 0);
    }
  }

  /** The grid after the alignment patterns before (i, j) have been drawn over g and f. */
  ghost predicate Aligned(q: QrCode, version: Version, g: Grid, f: Grid, i: nat, j: nat)
    requires q.Valid() && Square(g, q.size) && Square(f, q.size)
    reads q.modules, q.isFunction
  {
    forall y, x :: 0 <= y < q.size && 0 <= x < q.size ==>
      q.modules[y, x] == (if AlignedBefore(version, i, j, x, y) then AlignmentModule(version, x, y) else g[y][x]) &&
      q.isFunction[y, x] == (f[y][x] || AlignedBefore(version, i, j, x, y))
  }

  method DrawAlignmentPatterns(q: QrCode, version: Version)
    requires q.Valid() && q.size == SizeOf(version)
    modifies q.modules, q.isFunction
    ensures forall y, x :: 0 <= y < q.size && 0 <= x < q.size ==>
      q.modules[y, x] == (if IsAlignment(version, x, y) then AlignmentModule(version, x, y) else old(q.modules[y, x])) &&
      q.isFunction[y, x] == (old(q.isFunction[y, x]) || IsAlignment(version, x, y))
  {
    hide AlignPosition, IsAlignment, AlignmentModule, AlignedBefore, Aligned;
    ghost var g, f := q.Modules(), q.Functions();
    var alignPatPos := GetAlignmentPatternPositions(version);
    var numAlign := |alignPatPos|;
    NoneAligned(q, version, g, f);
    for i := 0 to numAlign
      invariant Aligned(q, version, g, f, i, 0)
    {
      for j := 0 to numAlign
        invariant Aligned(q, version, g, f, i, j)
      {
        DrawOneAlignment(q, version, alignPatPos, i, j, g, f);
      }
      NextRow(q, version, g, f, i);
    }
    AllDrawn(q, version, g, f);
  }

  lemma NoneAligned(q: QrCode, version: Version, g: Grid, f: Grid)
    requires q.Valid() && g == q.Modules() && f == q.Functions()
    ensures Aligned(q, version, g, f, 0, 0)
  {
    hide AlignedBefore, AlignmentModule, IsAlignment;
    forall x, y {
      AllAligned(version, x, y);
    }
  }

  lemma NextRow(q: QrCode, version: Version, g: Grid, f: Grid, i: nat)
    requires q.Valid() && Square(g, q.size) && Square(f, q.size) && Aligned(q, version, g, f, i, NumAlign(version))
    ensures Aligned(q, version, g, f, i + 1, 0)
  {
    hide AlignedBefore, AlignmentModule;
    forall x, y {
      AlignedRow(version, i, x, y);
    }
  }

  lemma AllDrawn(q: QrCode, version: Version, g: Grid, f: Grid)
    requires q.Valid() && Square(g, q.size) && Square(f, q.size) && Aligned(q, version, g, f, NumAlign(version), 0)
    ensures forall y, x :: 0 <= y < q.size && 0 <= x < q.size ==>
      q.modules[y, x] == (if IsAlignment(version, x, y) then AlignmentModule(version, x, y) else g[y][x]) &&
      q.isFunction[y, x] == (f[y][x] || IsAlignment(version, x, y))
  {
    hide AlignedBefore, AlignmentModule, IsAlignment;
    forall x, y {
      AllAligned(version, x, y);
    }
  }

  /** Draws the pattern at two of the positions, unless a finder is there. */
  method DrawOneAlignment(q: QrCode, version: Version, alignPatPos: seq<int>, i: nat, j: nat, ghost g: Grid, ghost f: Grid)
    requires q.Valid() && q.size == SizeOf(version) && Square(g, q.size) && Square(f, q.size)
    requires |alignPatPos| == NumAlign(version) && i < |alignPatPos| && j < |alignPatPos|
    requires forall k :: 0 <= k < |alignPatPos| ==> alignPatPos[k] == AlignPosition(version, k)
    requires Aligned(q, version, g, f, i, j)
    modifies q.modules, q.isFunction
    ensures Aligned(q, version, g, f, i, j + 1)
  {
    hide AlignPosition, AlignmentModule, AlignedBefore, Distance;
    var numAlign := |alignPatPos|;
    if !((i == 0 && j == 0) || (i == 0 && j == numAlign - 1) || (i == numAlign - 1 && j == 0)) {
      PositionBounds(version, i);
      PositionBounds(version, j);
      FirstPosition(version);
      DrawAlignmentPattern(q, alignPatPos[i], alignPatPos[j]);
    }
    forall x, y {
      AlignedNext(version, i, j, x, y);
    }
    forall x, y | InAlignment(version, i, j, x, y)
      ensures AlignmentModule(version, x, y) <==> Distance(alignPatPos[i], alignPatPos[j], x, y) != 1
    {
      AlignmentModuleIs(version, i, j, x, y);
    }
  }

  lemma FirstPosition(version: Version)
    requires NumAlign(version) > 0
    ensures AlignPosition(version, 0) == 6
  {}

  // ----- Version bits -----

  function VersionStep(rem: bv18): bv18 {
    (rem << 1) ^ ((rem >> 11) * 0x1F25)
  }

  /** The remainder register of the (18, 6) code after n steps. */
  function VersionRemainder(data: bv18, n: nat): bv18 {
    if n == 0 then data else VersionStep(VersionRemainder(data, n - 1))
  }

  function VersionWord(data: bv18, rem: bv18): bv18 {
    (data << 12) | rem
  }

  function VersionBits(version: Version): bv18 {
    var data := version as bv18;
    VersionWord(data, VersionRemainder(data, 12))
  }

  predicate VersionBit(bits: bv18, i: nat)
    requires i < 18
  {
    (bits >> i) & 1 != 0
  }

  lemma VersionStepSmall(rem: bv18)
    requires rem < 0x1000
    ensures VersionStep(rem) < 0x1000
  {
    assert rem >> 11 == 0 || rem >> 11 == 1;
  }

  lemma {:induction false} VersionRemainderSmall(data: bv18, n: nat)
    requires data < 64
    ensures VersionRemainder(data, n) < 0x1000
  {
    hide VersionStep;
    if n > 0 {
      VersionRemainderSmall(data, n - 1);
      VersionStepSmall(VersionRemainder(data, n - 1));
    }
  }

  lemma HighVersionBits(data: bv18, rem: bv18)
    requires data < 64 && rem < 0x1000
    ensures VersionWord(data, rem) >> 12 == data
  {}

  /** The six data bits of the drawn word are the version. */
  lemma VersionRoundTrip(version: Version)
    ensures VersionBits(version) >> 12 == version as bv18
  {
    hide VersionRemainder;
    VersionRemainderSmall(version as bv18, 12);
    HighVersionBits(version as bv18, VersionRemainder(version as bv18, 12));
  }

  /** What a version module shows. */
  predicate VersionModule(size: nat, bits: bv18, x: int, y: int) {
    var k := VersionIndex(size, x, y);
    0 <= k < 18 && VersionBit(bits, k)
  }

  method DrawVersion(q: QrCode, version: Version)
    requires q.Valid() && q.size == SizeOf(version)
    modifies q.modules, q.isFunction
    ensures forall y, x :: 0 <= y < q.size && 0 <= x < q.size ==>
      q.isFunction[y, x] == (old(q.isFunction[y, x]) || IsVersion(version, x, y))
    ensures forall y, x :: 0 <= y < q.size && 0 <= x < q.size ==>
      q.modules[y, x] ==
        if IsVersion(version, x, y) then VersionModule(q.size, VersionBits(version), x, y) else old(q.modules[y, x])
  {
    hide VersionBits, VersionModule, VersionIndex;
    if version < 7 {
      return;
    }
    var bits := ComputeVersionBits(version);
    ghost var g, f := q.Modules(), q.Functions();
    IndexRange(q.size);
    for i := 0 to 18
      invariant VersionDrawn(q, bits, i, g, f)
    {
      DrawVersionBit(q, bits, i, g, f);
    }
  }

  method ComputeVersionBits(version: Version) returns (bits: bv18)
    ensures bits == VersionBits(version)
  {
    hide VersionStep, VersionWord;
    var data := version as bv18;
    var rem := data;
    for i := 0 to 12
      invariant rem == VersionRemainder(data, i)
    {
      rem := VersionStep(rem);
    }
    bits := VersionWord(data, rem);
  }

  lemma IndexRange(size: nat)
    ensures forall x, y :: -1 <= VersionIndex(size, x, y) < 18
  {}

  /** The grid after the first i version bits have been drawn over g and f. */
  ghost predicate VersionDrawn(q: QrCode, bits: bv18, i: nat, g: Grid, f: Grid)
    requires q.Valid() && Square(g, q.size) && Square(f, q.size)
    reads q.modules, q.isFunction
  {
    forall y, x :: 0 <= y < q.size && 0 <= x < q.size ==>
      var k := VersionIndex(q.size, x, y);
      q.modules[y, x] == (if 0 <= k < i then VersionModule(q.size, bits, x, y) else g[y][x]) &&
      q.isFunction[y, x] == (f[y][x] || 0 <= k < i)
  }

  /** Both copies of one bit. */
  method DrawVersionBit(q: QrCode, bits: bv18, i: nat, ghost g: Grid, ghost f: Grid)
    requires q.Valid() && q.size >= 45 && i < 18 && Square(g, q.size) && Square(f, q.size)
    requires VersionDrawn(q, bits, i, g, f)
    modifies q.modules, q.isFunction
    ensures VersionDrawn(q, bits, i + 1, g, f)
  {
    hide VersionBit;
    var bit := VersionBit(bits, i);
    var a, b := q.size - 11 + i % 3, i / 3;
    q.SetFunctionModule(a, b, bit);
    q.SetFunctionModule(b, a, bit);
    IndexOf(q.size, i);
    OnlyIndex(q.size, i);
  }

  lemma IndexOf(size: nat, i: nat)
    requires size >= 45 && i < 18
    ensures VersionIndex(size, size - 11 + i % 3, i / 3) == i && VersionIndex(size, i / 3, size - 11 + i % 3) == i
  {}

  lemma OnlyIndex(size: nat, i: nat)
    requires size >= 45 && i < 18
    ensures forall x, y :: 0 <= x < size && 0 <= y < size && VersionIndex(size, x, y) == i ==>
      (x == size - 11 + i % 3 && y == i / 3) || (y == size - 11 + i % 3 && x == i / 3)
  {}

  // ----- All patterns -----

  /** What a function module shows before any data is drawn; format bits are those of mask 0. */
  ghost predicate PatternModule(version: Version, ecl: Ecc, x: int, y: int) {
    var size := SizeOf(version);
    IndexBound(size);
    if IsVersion(version, x, y) then VersionModule(size, VersionBits(version), x, y)
    else if FormatIndex(size, x, y) >= 0 then FormatModule(FormatBits(ecl, 0), FormatIndex(size, x, y))
    else if IsAlignment(version, x, y) then AlignmentModule(version, x, y)
    else if IsFinder(size, x, y) then FinderAt(size, x, y)
    else if x == 6 then y % 2 == 0
    else y == 6 && x % 2 == 0
  }

  /** The function modules of a version as a grid. */
  ghost function FunctionGrid(version: Version): (f: Grid)
    ensures Square(f, SizeOf(version))
    ensures forall y, x :: 0 <= y < SizeOf(version) && 0 <= x < SizeOf(version) ==> f[y][x] == Reserved(version, x, y)
  {
    seq(SizeOf(version), y => seq(SizeOf(version), x => Reserved(version, x, y)))
  }

  /** The function patterns and the modules they reserve. */
  method DrawFunctionPatterns(q: QrCode, version: Version)
    requires q.Valid() && q.size == SizeOf(version)
    requires forall y, x :: 0 <= y < q.size && 0 <= x < q.size ==> !q.modules[y, x] && !q.isFunction[y, x]
    modifies q.modules, q.isFunction
    ensures q.Functions() == FunctionGrid(version)
    ensures forall y, x :: 0 <= y < q.size && 0 <= x < q.size ==> q.modules[y, x] == PatternModule(version, q.ecl, x, y)
  {
    hide IsFinder, FinderAt, IsAlignment, AlignmentModule, FormatBits, FormatModule, VersionBits, VersionModule, VersionIndex;
    DrawTiming(q);
    DrawFinderPatterns(q);
    DrawAlignmentPatterns(q, version);
    q.DrawFormatBits(0);
    DrawVersion(q, version);
    SameGrid(q.Functions(), FunctionGrid(version), q.size);
  }
}

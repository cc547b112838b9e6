/**
  What a damaged symbol still says: while its format is legible, and in every block at most half as many codewords have
  a wrong module as there are check bytes, no other contents could have led to it.
 */
module QrCorrection {
  import opened QrBits
  import opened QrByte
  import opened QrDistance
  import opened QrFormat
  import opened QrGrid
  import opened QrInterleave
  import opened QrPatterns
  import opened QrPipeline
  import opened QrReader
  import opened QrStream
  import opened QrSymbol
  import opened QrTiles
  import opened QrVersions
  import opened QrZigzag
  import opened Wrappers
  import QrCapacity
  import QrReedSolomon

  // ----- Codewords and their modules -----

  /** The codewords that a grid shows under its mask. */
  ghost function CodewordsOf(g: Grid, version: Version): (r: seq<byte>)
    requires Square(g, SizeOf(version))
    ensures |r| == NumRawDataModules(version) / 8
  {
    QrCapacity.CapacityExact(version);
    RawBounds(version);
    ReadCodewords(g, FunctionGrid(version), SizeOf(version), NumRawDataModules(version) / 8)
  }

  /** The bit read at a free module is the number of free modules before it. */
  lemma {:induction false} BitOfModule(g: Grid, f: Grid, size: int, t: int, x: int, y: int)
    requires ValidSize(size) && Square(g, size) && Square(f, size) && 0 <= t <= Steps(size)
    requires 0 <= x < size && x != 6 && 0 <= y < size && !f[y][x] && Step(size, x, y) < t
    ensures 0 <= Step(size, x, y)
    ensures
      var i := FreeBefore(f, size, Step(size, x, y));
      i < |ReadBits(g, f, size, t)| && ReadBits(g, f, size, t)[i] == g[y][x]
    decreases t
  {
    hide Cell, Step, Steps;
    CellOfStep(size, x, y);
    StepOfCell(size, t - 1);
    if Step(size, x, y) < t - 1 {
      BitOfModule(g, f, size, t - 1, x, y);
    }
  }

  /** Every bit that is read is that of some free module. */
  lemma {:induction false} ModuleOfBit(f: Grid, size: int, t: int, i: nat) returns (x: int, y: int)
    requires ValidSize(size) && Square(f, size) && 0 <= t <= Steps(size) && i < FreeBefore(f, size, t)
    ensures 0 <= x < size && x != 6 && 0 <= y < size && !f[y][x] && 0 <= Step(size, x, y) < t
    ensures FreeBefore(f, size, Step(size, x, y)) == i
    decreases t
  {
    hide Cell, Step, Steps;
    StepOfCell(size, t - 1);
    if i < FreeBefore(f, size, t - 1) {
      x, y := ModuleOfBit(f, size, t - 1, i);
    } else {
      var (u, v) := Cell(size, t - 1);
      x, y := u, v;
    }
  }

  /** The codeword that a free module belongs to. */
  ghost function CodewordAt(f: Grid, size: int, x: int, y: int): nat
    requires ValidSize(size) && Square(f, size) && 0 <= x < size && x != 6 && 0 <= y < size
  {
    CellOfStep(size, x, y);
    FreeBefore(f, size, Step(size, x, y)) / 8
  }

  /** All modules of codeword k are the same in both grids. */
  ghost predicate SameModules(g: Grid, h: Grid, f: Grid, size: int, k: nat)
    requires ValidSize(size) && Square(g, size) && Square(h, size) && Square(f, size)
  {
    forall x, y :: 0 <= x < size && x != 6 && 0 <= y < size && !f[y][x] && CodewordAt(f, size, x, y) == k ==> g[y][x] == h[y][x]
  }

  lemma SameBits(g: Grid, h: Grid, f: Grid, size: int, k: nat)
    requires ValidSize(size) && Square(g, size) && Square(h, size) && Square(f, size) && 8 * k + 8 <= FreeModules(f, size)
    ensures
      ReadAllBits(g, f, size)[8 * k..8 * k + 8] == ReadAllBits(h, f, size)[8 * k..8 * k + 8] <==> SameModules(g, h, f, size, k)
  {
    hide Steps, Step, FreeBefore, ReadBits;
    HalfSteps(size, size);
    var a, b := ReadAllBits(g, f, size), ReadAllBits(h, f, size);
    if SameModules(g, h, f, size, k) {
      forall i | 8 * k <= i < 8 * k + 8
        ensures a[i] == b[i]
      {
        var x, y := ModuleOfBit(f, size, Steps(size), i);
        BitOfModule(g, f, size, Steps(size), x, y);
        BitOfModule(h, f, size, Steps(size), x, y);
        assert CodewordAt(f, size, x, y) == k;
      }
    }
    if a[8 * k..8 * k + 8] == b[8 * k..8 * k + 8] {
      forall x, y | 0 <= x < size && x != 6 && 0 <= y < size && !f[y][x] && CodewordAt(f, size, x, y) == k
        ensures g[y][x] == h[y][x]
      {
        CellOfStep(size, x, y);
        BitOfModule(g, f, size, Steps(size), x, y);
        BitOfModule(h, f, size, Steps(size), x, y);
        var i := FreeBefore(f, size, Step(size, x, y));
        assert a[8 * k..8 * k + 8][i - 8 * k] == a[i] && b[8 * k..8 * k + 8][i - 8 * k] == b[i];
      }
    }
  }

  lemma SameByte(a: seq<bool>, b: seq<bool>)
    requires |a| == |b| == 8
    ensures Byte(a) == Byte(b) <==> a == b
  {
    hide Byte, Bit;
    if Byte(a) == Byte(b) {
      forall k | 0 <= k < 8
        ensures a[k] == b[k]
      {
        BitsOfByte(a, k);
        BitsOfByte(b, k);
      }
    }
  }

  /** A mask turns equal modules into equal modules. */
  lemma SameMasked(g: Grid, h: Grid, f: Grid, size: int, m: Mask, k: nat)
    requires ValidSize(size) && Square(g, size) && Square(h, size) && Square(f, size)
    ensures SameModules(Unmasked(f, size, m, g), Unmasked(f, size, m, h), f, size, k) <==> SameModules(g, h, f, size, k)
  {
    hide CodewordAt, Tiled;
    var a, b := Unmasked(f, size, m, g), Unmasked(f, size, m, h);
    forall x, y | 0 <= x < size && 0 <= y < size
      ensures a[y][x] == b[y][x] <==> g[y][x] == h[y][x]
    {
    }
  }

  lemma CodewordRead(g: Grid, f: Grid, size: int, n: nat, k: nat)
    requires ValidSize(size) && Square(g, size) && Square(f, size) && 8 * n <= FreeModules(f, size) && k < n
    ensures
      ReadCodewords(g, f, size, n)[k]
      == Byte(ReadAllBits(Unmasked(f, size, ReadMask(g, size), g), f, size)[8 * k..8 * k + 8])
  {
    hide Byte, ReadAllBits, Unmasked, FreeModules;
    var bits := ReadAllBits(Unmasked(f, size, ReadMask(g, size), g), f, size);
    assert bits[..8 * n][8 * k..8 * k + 8] == bits[8 * k..8 * k + 8];
  }

  /** Under one mask a codeword is read right exactly when all of its modules are right. */
  lemma CodewordRight(g: Grid, h: Grid, version: Version, k: nat)
    requires Square(g, SizeOf(version)) && Square(h, SizeOf(version)) && k < NumRawDataModules(version) / 8
    requires ReadMask(g, SizeOf(version)) == ReadMask(h, SizeOf(version))
    ensures CodewordsOf(g, version)[k] == CodewordsOf(h, version)[k] <==> SameModules(g, h, FunctionGrid(version), SizeOf(version), k)
  {
    hide FunctionGrid, NumRawDataModules, ReadCodewords, ReadMask, Unmasked, ReadAllBits, Byte, SameModules, FreeModules;
    var f, size, n := FunctionGrid(version), SizeOf(version), NumRawDataModules(version) / 8;
    var m := ReadMask(g, size);
    QrCapacity.CapacityExact(version);
    RawBounds(version);
    CodewordRead(g, f, size, n, k);
    CodewordRead(h, f, size, n, k);
    var a, b := Unmasked(f, size, m, g), Unmasked(f, size, m, h);
    SameByte(ReadAllBits(a, f, size)[8 * k..8 * k + 8], ReadAllBits(b, f, size)[8 * k..8 * k + 8]);
    SameBits(a, b, f, size, k);
    SameMasked(g, h, f, size, m, k);
  }

  // ----- Damage -----

  /** The format is legible, and in every block at most half as many codewords are wrong as there are check bytes. */
  ghost predicate Legible(final: Grid, got: Grid, version: Version) {
    var size := SizeOf(version);
    Square(final, size) && Square(got, size)
    && ReadLevel(got, size) == ReadLevel(final, size) && ReadMask(got, size) == ReadMask(final, size)
    && var l := LayoutOf(version, ReadLevel(got, size));
       LayoutRaw(version, ReadLevel(got, size));
       WithinReach(l, CodewordsOf(final, version), CodewordsOf(got, version))
  }

  /** What a finished symbol sends: the codewords of its data. */
  lemma SymbolSends(contents: seq<Content>, e: Encoded, final: Grid, mask: Mask, raw: seq<byte>) returns (divisor: seq<byte>)
    requires SymbolOf(contents, e, final, mask, raw)
    ensures var l := LayoutOf(e.version, e.ecl);
      |divisor| == l.eccLen && [1] + divisor == QrReedSolomon.Generator(l.eccLen)
      && Encodes(l, e.codewords, divisor, CodewordsOf(final, e.version))
    ensures ReadLevel(final, SizeOf(e.version)) == e.ecl && |e.codewords| == NumDataCodewords(e.version, e.ecl)
  {
    hide Carries, LayoutOf, Encodes, AllPlaced, Forced, FormatReserved, BestMask, ReadMask, ReadLevel, ReadCodewords,
      FreeModules, NumRawDataModules, NumDataCodewords, Segments, FunctionGrid, PatternGrid, BitsOf;
    var version, size := e.version, SizeOf(e.version);
    var f, blank := FunctionGrid(version), PatternGrid(version, e.ecl);
    var g, d :| Layers(e, size, f, blank, final, mask, raw, g, d);
    divisor := d;
    QrCapacity.CapacityExact(version);
    FormatIsReserved(version);
    FormatReadBack(f, size, e.ecl, mask, g);
    LayoutRaw(version, e.ecl);
    RawLength(e, d, raw);
    CodewordsReadBack(f, size, e.ecl, mask, blank, g, raw);
    CarriesCount(Segments(contents), e);
  }

  lemma SameDivisor(d: seq<byte>, e: seq<byte>)
    requires [1] + d == [1] + e
    ensures d == e
  {
    assert d == ([1] + d)[1..] && e == ([1] + e)[1..];
  }

  /** Two symbols of a version that a damaged grid could both come from have the same contents. */
  lemma ContentsDetermined(contents: seq<Content>, e: Encoded, final: Grid, mask: Mask, raw: seq<byte>,
                           others: seq<Content>, e': Encoded, final': Grid, mask': Mask, raw': seq<byte>, got: Grid)
    requires SymbolOf(contents, e, final, mask, raw) && SymbolOf(others, e', final', mask', raw') && e.version == e'.version
    requires Legible(final, got, e.version) && Legible(final', got, e.version)
    ensures contents == others
  {
    hide SymbolOf, LayoutOf, Encodes, CodewordsOf, ReadLevel, ReadMask, WithinReach, NumDataCodewords, NumRawDataModules,
      QrReedSolomon.Generator;
    var version := e.version;
    var d := SymbolSends(contents, e, final, mask, raw);
    var d' := SymbolSends(others, e', final', mask', raw');
    assert e.ecl == e'.ecl == ReadLevel(got, SizeOf(version));
    LayoutRaw(version, e.ecl);
    SameDivisor(d, d');
    SymbolDetermined(version, e.ecl, e.codewords, e'.codewords, d, CodewordsOf(final, version), CodewordsOf(final', version),
                     CodewordsOf(got, version));
    SymbolReads(contents, e, final, mask, raw);
    SymbolReads(others, e', final', mask', raw');
  }

  lemma SymbolReads(contents: seq<Content>, e: Encoded, final: Grid, mask: Mask, raw: seq<byte>)
    requires SymbolOf(contents, e, final, mask, raw)
    ensures ReadStream(BitsOf(e.codewords), e.version) == Some(contents)
  {
    hide Carries, IsSymbol, Segments;
    CodewordsRoundTrip(contents, e);
  }

  /** A damaged symbol has one possible contents: whatever else was encoded cannot have led to it. */
  lemma DamagedDetermined(version: Version, contents: seq<Content>, final: Grid, mask: Mask,
                          others: seq<Content>, final': Grid, mask': Mask, got: Grid)
    requires Emitted(contents, version, final, mask) && Emitted(others, version, final', mask')
    requires Legible(final, got, version) && Legible(final', got, version)
    ensures contents == others
  {
    hide SymbolOf, Legible;
    var e: Encoded, raw :| e.version == version && SymbolOf(contents, e, final, mask, raw);
    var e': Encoded, raw' :| e'.version == version && SymbolOf(others, e', final', mask', raw');
    ContentsDetermined(contents, e, final, mask, raw, others, e', final', mask', raw', got);
  }
}

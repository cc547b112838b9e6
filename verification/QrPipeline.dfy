/**
  From contents to the finished symbol and back: what a reader of the final modules recovers.
 */
module QrPipeline {
  import opened QrBits
  import opened QrByte
  import opened QrFormat
  import opened QrGrid
  import opened QrInterleave
  import opened QrPatterns
  import opened QrReader
  import opened QrSegments
  import opened QrStream
  import opened QrSymbol
  import opened QrTiles
  import opened QrVersions
  import opened QrZigzag
  import opened Wrappers
  import QrCapacity
  import QrReedSolomon

  // ----- Reading the format -----

  /** The mask, from bits 10 to 12 of the first copy of the format bits. */
  ghost function ReadMask(g: Grid, size: nat): Mask
    requires Square(g, size) && size >= 21
  {
    (if g[8][4] then 0 else 1) + (if g[8][3] then 2 else 0) + (if g[8][2] then 0 else 4)
  }

  /** The level, from bits 13 and 14. */
  ghost function ReadLevel(g: Grid, size: nat): Ecc
    requires Square(g, size) && size >= 21
  {
    if g[8][0] then (if g[8][1] then LOW else MEDIUM) else (if g[8][1] then QUARTILE else HIGH)
  }

  lemma FormatFields(ecl: Ecc, m: Mask)
    ensures var b := FormatBits(ecl, m);
      FormatBit(b, 10) == (m % 2 == 0) && FormatBit(b, 11) == (m / 2 % 2 == 1) && FormatBit(b, 12) == (m / 4 == 0)
      && FormatBit(b, 13) == (EccBits(ecl) % 2 == 1) && FormatBit(b, 14) == (EccBits(ecl) / 2 == 0)
  {
    hide FormatBits, FormatData;
    FormatRoundTrip(ecl, m);
    var d := FormatData(ecl, m);
    HighBits(FormatBits(ecl, m), d);
    LowBits(d, m, EccBits(ecl));
  }

  lemma HighBits(b: bv16, d: bv16)
    requires (b ^ 0x5412) >> 10 == d
    ensures FormatBit(b, 10) == (d & 1 == 0) && FormatBit(b, 11) == (d & 2 != 0) && FormatBit(b, 12) == (d & 4 == 0)
    ensures FormatBit(b, 13) == (d & 8 != 0) && FormatBit(b, 14) == (d & 16 == 0)
  {}

  lemma LowBits(d: bv16, m: Mask, e: nat)
    requires e < 4 && d & 7 == m as bv16 && d >> 3 == e as bv16
    ensures (d & 1 == 0) == (m % 2 == 0) && (d & 2 != 0) == (m / 2 % 2 == 1) && (d & 4 == 0) == (m / 4 == 0)
    ensures (d & 8 != 0) == (e % 2 == 1) && (d & 16 == 0) == (e / 2 == 0)
  {
    assert m == 0 || m == 1 || m == 2 || m == 3 || m == 4 || m == 5 || m == 6 || m == 7;
    assert e == 0 || e == 1 || e == 2 || e == 3;
  }

  /** A forced symbol tells its mask and level. */
  lemma FormatReadBack(f: Grid, size: nat, ecl: Ecc, m: Mask, g: Grid)
    requires Square(f, size) && Square(g, size) && size >= 21
    ensures var h := Forced(f, size, ecl, m, g); ReadMask(h, size) == m && ReadLevel(h, size) == ecl
  {
    hide FormatBits, Masked, FormatBit;
    FormatFields(ecl, m);
    assert FormatIndex(size, 4, 8) == 10 && FormatIndex(size, 3, 8) == 11 && FormatIndex(size, 2, 8) == 12;
    assert FormatIndex(size, 1, 8) == 13 && FormatIndex(size, 0, 8) == 14;
  }

  // ----- Reading the codewords -----

  /** The first n bytes in zigzag order once the mask is taken off by its tile. */
  ghost function ReadCodewords(g: Grid, f: Grid, size: nat, n: nat): seq<byte>
    requires ValidSize(size) && Square(g, size) && Square(f, size) && 8 * n <= FreeModules(f, size)
  {
    FirstBytes(ReadAllBits(Unmasked(f, size, ReadMask(g, size), g), f, size), n)
  }

  lemma CodewordsReadBack(f: Grid, size: nat, ecl: Ecc, m: Mask, blank: Grid, g: Grid, codewords: seq<byte>)
    requires ValidSize(size) && Square(f, size) && Square(g, size) && FormatReserved(f, size)
    requires AllPlaced(f, size, BitsOf(codewords), blank, g) && 8 * |codewords| <= FreeModules(f, size)
    ensures ReadCodewords(Forced(f, size, ecl, m, g), f, size, |codewords|) == codewords
  {
    hide FreeModules, Bytes, AllPlaced, Forced, ReadMask, ReadBits, Steps, Masked, Unmasked;
    var h := Forced(f, size, ecl, m, g);
    FormatReadBack(f, size, ecl, m, g);
    UnmaskForced(f, size, ecl, m, g);
    var plain := Unmasked(f, size, m, h);
    UnmaskedIs(f, size, m, h);
    HalfSteps(size, size);
    ReadAgrees(plain, g, f, size, Steps(size));
    BitCount(codewords);
    ReadAllPlaced(f, size, BitsOf(codewords), blank, g);
    BytesOfBits(codewords);
  }

  // ----- The whole symbol -----

  /** Check bytes, placement and mask, on a symbol whose function patterns are drawn. */
  method BuildSymbol(q: QrCode, e: Encoded) returns (mask: Mask, ghost raw: seq<byte>)
    requires q.Valid() && q.size == SizeOf(e.version) && q.ecl == e.ecl && -1 <= e.mask <= 7
    requires FormatReserved(q.Functions(), q.size)
    requires |e.codewords| == NumDataCodewords(e.version, e.ecl)
    modifies q.modules, q.isFunction
    ensures q.Functions() == old(q.Functions())
    ensures IsSymbol(e, q.size, old(q.Functions()), old(q.Modules()), q.Modules(), mask, raw)
    ensures e.mask >= 0 ==> mask == e.mask
  {
    hide NumDataCodewords, NumRawDataModules, LayoutOf, Encodes, AllPlaced, Forced, FormatReserved, BestMask, BitsOf, FreeModules,
      QrReedSolomon.Generator;
    var l := LayoutOf(e.version, e.ecl);
    ghost var f, blank := q.Functions(), q.Modules();
    var interleaved, divisor := AddEccAndInterleave(l, e.codewords);
    raw := interleaved.value;
    LayoutRaw(e.version, e.ecl);
    RawLength(e, divisor, raw);
    var placed := q.DrawCodewords(interleaved.value);
    ghost var g := q.Modules();
    mask := q.ChooseMask(e.mask);
    assert Layers(e, q.size, f, blank, q.Modules(), mask, raw, g, divisor);
  }

  lemma LayoutRaw(version: Version, ecl: Ecc)
    ensures LayoutOf(version, ecl).rawCodewords == NumRawDataModules(version) / 8
  {}

  /** The stages of a symbol: its raw codewords, the grid g that carries them, and the mask. */
  ghost predicate Layers(e: Encoded, size: nat, f: Grid, blank: Grid, final: Grid, mask: Mask, raw: seq<byte>,
                         g: Grid, divisor: seq<byte>)
    requires ValidSize(size) && Square(f, size) && Square(blank, size)
  {
    var l := LayoutOf(e.version, e.ecl);
    |divisor| == l.eccLen && [1] + divisor == QrReedSolomon.Generator(l.eccLen)
    && Encodes(l, e.codewords, divisor, raw)
    && Square(g, size) && AllPlaced(f, size, BitsOf(raw), blank, g)
    && final == Forced(f, size, e.ecl, mask, g)
    && (e.mask == -1 ==> BestMask(f, size, e.ecl, g, mask))
  }

  ghost predicate IsSymbol(e: Encoded, size: nat, f: Grid, blank: Grid, final: Grid, mask: Mask, raw: seq<byte>)
    requires ValidSize(size) && Square(f, size) && Square(blank, size)
  {
    exists g, divisor :: Layers(e, size, f, blank, final, mask, raw, g, divisor)
  }

  /** A reader that knows only the version and the function modules. */
  ghost function ReadSymbol(final: Grid, f: Grid, version: Version): Option<seq<Content>>
    requires Square(final, SizeOf(version)) && Square(f, SizeOf(version))
    requires EnoughModules(f, version)
  {
    var size := SizeOf(version);
    var l := LayoutOf(version, ReadLevel(final, size));
    ReadStream(BitsOf(ReadAll(l, ReadCodewords(final, f, size, l.rawCodewords), l.numBlocks)), version)
  }

  /** The free modules suffice for the raw codewords of the version. */
  ghost predicate EnoughModules(f: Grid, version: Version)
    requires Square(f, SizeOf(version))
  {
    NumRawDataModules(version) <= FreeModules(f, SizeOf(version))
  }

  /** The symbol of any contents reads back as those contents. */
  lemma SymbolRoundTrip(contents: seq<Content>, e: Encoded, f: Grid, blank: Grid, final: Grid, mask: Mask, raw: seq<byte>)
    requires forall i :: 0 <= i < |contents| ==> contents[i].Valid()
    requires Carries(Segments(contents), e)
    requires var size := SizeOf(e.version);
      Square(f, size) && Square(blank, size) && FormatReserved(f, size) && EnoughModules(f, e.version)
      && IsSymbol(e, size, f, blank, final, mask, raw) && Square(final, size)
    ensures ReadSymbol(final, f, e.version) == Some(contents)
  {
    hide Carries, LayoutOf, Encodes, AllPlaced, Forced, FormatReserved, ReadMask, ReadLevel,
      ReadAllBits, ReadCodewords, FreeModules, NumRawDataModules, NumDataCodewords, ReadStream, ReadAll, BitsOf, Segments;
    var size := SizeOf(e.version);
    var g, divisor :| Layers(e, size, f, blank, final, mask, raw, g, divisor);
    var l := LayoutOf(e.version, e.ecl);
    FormatReadBack(f, size, e.ecl, mask, g);
    RawLength(e, divisor, raw);
    CodewordsReadBack(f, size, e.ecl, mask, blank, g, raw);
    RecoveredCodewords(Segments(contents), e, divisor, raw);
    CodewordsRoundTrip(contents, e);
  }

  lemma RawLength(e: Encoded, divisor: seq<byte>, raw: seq<byte>)
    requires var l := LayoutOf(e.version, e.ecl); |divisor| == l.eccLen && Encodes(l, e.codewords, divisor, raw)
    ensures |raw| == LayoutOf(e.version, e.ecl).rawCodewords && 8 * |raw| <= NumRawDataModules(e.version)
  {}

  lemma RecoveredCodewords(segs: seq<QrSegment>, e: Encoded, divisor: seq<byte>, raw: seq<byte>)
    requires Carries(segs, e)
    requires var l := LayoutOf(e.version, e.ecl); |divisor| == l.eccLen && Encodes(l, e.codewords, divisor, raw)
    ensures var l := LayoutOf(e.version, e.ecl);
      |raw| == l.rawCodewords && ReadAll(l, raw, l.numBlocks) == e.codewords
  {
    hide LayoutOf, Encodes, ReadAll, NumDataCodewords, Filled, Stream;
    var l := LayoutOf(e.version, e.ecl);
    DataRecovered(l, e.codewords, divisor, raw, l.numBlocks);
    StartLast(l);
    assert |e.codewords| == NumDataCodewords(e.version, e.ecl);
  }

  // ----- From contents to contents -----

  /** The function patterns as a grid. */
  ghost function PatternGrid(version: Version, ecl: Ecc): (g: Grid)
    ensures Square(g, SizeOf(version))
    ensures forall y, x :: 0 <= y < SizeOf(version) && 0 <= x < SizeOf(version) ==> g[y][x] == PatternModule(version, ecl, x, y)
  {
    seq(SizeOf(version), y => seq(SizeOf(version), x => PatternModule(version, ecl, x, y)))
  }

  lemma FormatIsReserved(version: Version)
    ensures FormatReserved(FunctionGrid(version), SizeOf(version))
  {
    hide FormatIndex, IsFinder, IsAlignment, IsVersion;
  }

  /** The constructor: function patterns, check bytes, placement, mask. */
  method MakeSymbol(e: Encoded) returns (q: QrCode, mask: Mask, ghost raw: seq<byte>)
    requires -1 <= e.mask <= 7 && |e.codewords| == NumDataCodewords(e.version, e.ecl)
    ensures fresh(q) && fresh(q.modules) && q.Valid() && q.size == SizeOf(e.version) && q.ecl == e.ecl
    ensures IsSymbol(e, q.size, FunctionGrid(e.version), PatternGrid(e.version, e.ecl), q.Modules(), mask, raw)
    ensures e.mask >= 0 ==> mask == e.mask
  {
    hide NumDataCodewords, FunctionGrid, PatternGrid, FormatReserved, IsSymbol, PatternModule;
    q := new QrCode(e.version, e.ecl);
    DrawFunctionPatterns(q, e.version);
    SameGrid(q.Modules(), PatternGrid(e.version, e.ecl), q.size);
    FormatIsReserved(e.version);
    mask, raw := BuildSymbol(q, e);
  }

  /** Function modules that carry no format bits are those of the patterns, whatever the data and the mask. */
  lemma PatternsKept(e: Encoded, final: Grid, mask: Mask, raw: seq<byte>, x: int, y: int)
    requires IsSymbol(e, SizeOf(e.version), FunctionGrid(e.version), PatternGrid(e.version, e.ecl), final, mask, raw)
    requires 0 <= x < SizeOf(e.version) && 0 <= y < SizeOf(e.version)
    requires Reserved(e.version, x, y) && FormatIndex(SizeOf(e.version), x, y) < 0
    ensures Square(final, SizeOf(e.version)) && final[y][x] == PatternModule(e.version, e.ecl, x, y)
  {
    hide Reserved, PatternModule, LayoutOf, Encodes, BestMask, FormatIndex, FormatBits, Inverts;
    var f, blank := FunctionGrid(e.version), PatternGrid(e.version, e.ecl);
    var g, divisor :| Layers(e, SizeOf(e.version), f, blank, final, mask, raw, g, divisor);
  }

  /** Every symbol of a version, read with nothing but that version, yields its contents. */
  lemma EncodedReads(contents: seq<Content>, e: Encoded, final: Grid, mask: Mask, raw: seq<byte>)
    requires forall i :: 0 <= i < |contents| ==> contents[i].Valid()
    requires Carries(Segments(contents), e)
    requires IsSymbol(e, SizeOf(e.version), FunctionGrid(e.version), PatternGrid(e.version, e.ecl), final, mask, raw)
    requires Square(final, SizeOf(e.version))
    ensures EnoughModules(FunctionGrid(e.version), e.version)
    ensures ReadSymbol(final, FunctionGrid(e.version), e.version) == Some(contents)
  {
    hide Carries, IsSymbol, FunctionGrid, PatternGrid, FormatReserved, FreeModules, NumRawDataModules, ReadSymbol, Segments;
    QrCapacity.CapacityExact(e.version);
    FormatIsReserved(e.version);
    SymbolRoundTrip(contents, e, FunctionGrid(e.version), PatternGrid(e.version, e.ecl), final, mask, raw);
  }

  /** What a reader who knows the version sees. */
  ghost function Read(final: Grid, version: Version): Option<seq<Content>>
    requires Square(final, SizeOf(version))
  {
    QrCapacity.CapacityExact(version);
    ReadSymbol(final, FunctionGrid(version), version)
  }

  /** The finished symbol of some contents. */
  ghost predicate SymbolOf(contents: seq<Content>, e: Encoded, final: Grid, mask: Mask, raw: seq<byte>) {
    (forall i :: 0 <= i < |contents| ==> contents[i].Valid())
    && Carries(Segments(contents), e) && Square(final, SizeOf(e.version))
    && IsSymbol(e, SizeOf(e.version), FunctionGrid(e.version), PatternGrid(e.version, e.ecl), final, mask, raw)
  }

  /** A grid is the finished symbol of the contents. */
  ghost predicate Emitted(contents: seq<Content>, version: Version, final: Grid, mask: Mask) {
    exists e: Encoded, raw :: e.version == version && SymbolOf(contents, e, final, mask, raw)
  }

  /** Function modules without format bits are as drawn. */
  ghost predicate ShowsPatterns(final: Grid, version: Version, ecl: Ecc)
    requires Square(final, SizeOf(version))
  {
    forall x, y :: 0 <= x < SizeOf(version) && 0 <= y < SizeOf(version)
      && Reserved(version, x, y) && FormatIndex(SizeOf(version), x, y) < 0
      ==> final[y][x] == PatternModule(version, ecl, x, y)
  }

  /** The mask is the one asked for, or the first of least penalty among the eight symbols on the same codewords. */
  ghost predicate MaskChosen(final: Grid, version: Version, ecl: Ecc, mask: int, chosen: Mask) {
    exists g :: ChosenFor(final, version, ecl, mask, chosen, g)
  }

  ghost predicate ChosenFor(final: Grid, version: Version, ecl: Ecc, mask: int, chosen: Mask, g: Grid) {
    var f, size := FunctionGrid(version), SizeOf(version);
    Square(g, size) && final == Forced(f, size, ecl, chosen, g)
    && (if mask == -1 then BestMask(f, size, ecl, g, chosen) else chosen == mask)
  }

  /** What a finished symbol shows besides its contents. */
  lemma SymbolShows(e: Encoded, final: Grid, mask: Mask, raw: seq<byte>)
    requires IsSymbol(e, SizeOf(e.version), FunctionGrid(e.version), PatternGrid(e.version, e.ecl), final, mask, raw)
    requires Square(final, SizeOf(e.version)) && (e.mask >= 0 ==> mask == e.mask) && e.mask >= -1
    ensures ShowsPatterns(final, e.version, e.ecl) && MaskChosen(final, e.version, e.ecl, e.mask, mask)
    ensures ReadLevel(final, SizeOf(e.version)) == e.ecl && ReadMask(final, SizeOf(e.version)) == mask
  {
    hide Reserved, PatternModule, LayoutOf, Encodes, BestMask, FormatIndex, FormatBits, Inverts, Forced, AllPlaced,
      FunctionGrid, PatternGrid, ReadLevel, ReadMask;
    var f, blank, size := FunctionGrid(e.version), PatternGrid(e.version, e.ecl), SizeOf(e.version);
    var g, divisor :| Layers(e, size, f, blank, final, mask, raw, g, divisor);
    FormatReadBack(f, size, e.ecl, mask, g);
    assert ChosenFor(final, e.version, e.ecl, e.mask, mask, g);
    forall x, y | 0 <= x < size && 0 <= y < size && Reserved(e.version, x, y) && FormatIndex(size, x, y) < 0
      ensures final[y][x] == PatternModule(e.version, e.ecl, x, y)
    {
      PatternsKept(e, final, mask, raw, x, y);
    }
  }

  /**
    From contents to a finished symbol: of the least version, at the level asked for or the highest that fits, with
    the function patterns intact and the best mask; it reads back as the contents, its level and its mask.
   */
  method EncodeContents(contents: seq<Content>, ecl: Ecc, minVersion: int, maxVersion: int, mask: int, boostEcl: bool)
    returns (r: Result<QrCode, EncodeError>, version: Version, chosen: Mask)
    requires forall i :: 0 <= i < |contents| ==> contents[i].Valid()
    ensures r == Failure(InvalidValue) <==> !(1 <= minVersion <= maxVersion <= 40 && -1 <= mask <= 7)
    ensures r == Failure(DataTooLong) ==>
      forall v: Version :: minVersion <= v <= maxVersion ==> !FitsVersion(Segments(contents), v, ecl)
    ensures r.Success? ==>
      minVersion <= version <= maxVersion && FitsVersion(Segments(contents), version, ecl)
      && forall w: Version :: minVersion <= w < version ==> !FitsVersion(Segments(contents), w, ecl)
    ensures r.Success? ==> r.value.Valid() && r.value.size == SizeOf(version) && Read(r.value.Modules(), version) == Some(contents)
    ensures r.Success? ==>
      if boostEcl then Boosted(Segments(contents), version, ecl, r.value.ecl) else r.value.ecl == ecl
    ensures r.Success? ==>
      ShowsPatterns(r.value.Modules(), version, r.value.ecl)
      && MaskChosen(r.value.Modules(), version, r.value.ecl, mask, chosen)
    ensures r.Success? ==>
      ReadLevel(r.value.Modules(), r.value.size) == r.value.ecl && ReadMask(r.value.Modules(), r.value.size) == chosen
    ensures r.Success? ==> Emitted(contents, version, r.value.Modules(), chosen)
  {
    hide Carries, IsSymbol, FunctionGrid, PatternGrid, ReadSymbol, Segments, FitsVersion, Boosted, NumDataCodewords,
      ShowsPatterns, MaskChosen, ReadLevel, ReadMask;
    version, chosen := 1, 0;
    var encoded := EncodeSegments(Segments(contents), ecl, minVersion, maxVersion, mask, boostEcl);
    if encoded.Failure? {
      return Failure(encoded.error), version, chosen;
    }
    var e := encoded.value;
    version := e.version;
    CarriesCount(Segments(contents), e);
    var q;
    ghost var raw;
    q, chosen, raw := MakeSymbol(e);
    EncodedReads(contents, e, q.Modules(), chosen, raw);
    SymbolShows(e, q.Modules(), chosen, raw);
    assert SymbolOf(contents, e, q.Modules(), chosen, raw);
    r := Success(q);
  }

  lemma CarriesCount(segs: seq<QrSegment>, e: Encoded)
    requires Carries(segs, e)
    ensures |e.codewords| == NumDataCodewords(e.version, e.ecl)
  {
    hide NumDataCodewords, TotalBits, Stream, Filled;
  }
}

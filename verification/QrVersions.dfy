/** The version tables of ISO/IEC 18004:2015: sizes, capacities and block layouts. */
module QrVersions {
  import opened QrFormat
  import opened QrInterleave

  type Version = v: nat | 1 <= v <= 40 witness 1

  function SizeOf(version: Version): (size: nat)
    ensures 21 <= size <= 177 && size % 2 == 1
  {
    version * 4 + 17
  }

  // Index 0 stands for no version.

  const ECC_CODEWORDS_LOW: seq<nat> := [0,
    7, 10, 15, 20, 26, 18, 20, 24, 30, 18, 20, 24, 26, 30,
    22, 24, 28, 30, 28, 28, 28, 28, 30, 30, 26, 28, 30,
    30, 30, 30, 30, 30, 30, 30, 30, 30, 30, 30, 30, 30]

  const ECC_CODEWORDS_MEDIUM: seq<nat> := [0,
    10, 16, 26, 18, 24, 16, 18, 22, 22, 26, 30, 22, 22, 24,
    24, 28, 28, 26, 26, 26, 26, 28, 28, 28, 28, 28, 28,
    28, 28, 28, 28, 28, 28, 28, 28, 28, 28, 28, 28, 28]

  const ECC_CODEWORDS_QUARTILE: seq<nat> := [0,
    13, 22, 18, 26, 18, 24, 18, 22, 20, 24, 28, 26, 24, 20,
    30, 24, 28, 28, 26, 30, 28, 30, 30, 30, 30, 28, 30,
    30, 30, 30, 30, 30, 30, 30, 30, 30, 30, 30, 30, 30]

  const ECC_CODEWORDS_HIGH: seq<nat> := [0,
    17, 28, 22, 16, 22, 28, 26, 26, 24, 28, 24, 28, 22, 24,
    24, 30, 28, 28, 26, 28, 30, 24, 30, 30, 30, 30, 30,
    30, 30, 30, 30, 30, 30, 30, 30, 30, 30, 30, 30, 30]

  const BLOCKS_LOW: seq<nat> := [0,
    1, 1, 1, 1, 1, 2, 2, 2, 2, 4, 4, 4, 4, 4,
    6, 6, 6, 6, 7, 8, 8, 9, 9, 10, 12, 12, 12,
    13, 14, 15, 16, 17, 18, 19, 19, 20, 21, 22, 24, 25]

  const BLOCKS_MEDIUM: seq<nat> := [0,
    1, 1, 1, 2, 2, 4, 4, 4, 5, 5, 5, 8, 9, 9,
    10, 10, 11, 13, 14, 16, 17, 17, 18, 20, 21, 23, 25,
    26, 28, 29, 31, 33, 35, 37, 38, 40, 43, 45, 47, 49]

  const BLOCKS_QUARTILE: seq<nat> := [0,
    1, 1, 2, 2, 4, 4, 6, 6, 8, 8, 8, 10, 12, 16,
    12, 17, 16, 18, 21, 20, 23, 23, 25, 27, 29, 34, 34,
    35, 38, 40, 43, 45, 48, 51, 53, 56, 59, 62, 65, 68]

  const BLOCKS_HIGH: seq<nat> := [0,
    1, 1, 2, 4, 4, 4, 5, 6, 8, 8, 11, 11, 16, 16,
    18, 16, 19, 21, 25, 25, 25, 34, 30, 32, 35, 37, 40,
    42, 45, 48, 51, 54, 57, 60, 63, 66, 70, 74, 77, 81]

  function EccCodewordsPerBlock(ecl: Ecc, version: Version): nat {
    match ecl
    case LOW => ECC_CODEWORDS_LOW[version]
    case MEDIUM => ECC_CODEWORDS_MEDIUM[version]
    case QUARTILE => ECC_CODEWORDS_QUARTILE[version]
    case HIGH => ECC_CODEWORDS_HIGH[version]
  }

  function NumErrorCorrectionBlocks(ecl: Ecc, version: Version): nat {
    match ecl
    case LOW => BLOCKS_LOW[version]
    case MEDIUM => BLOCKS_MEDIUM[version]
    case QUARTILE => BLOCKS_QUARTILE[version]
    case HIGH => BLOCKS_HIGH[version]
  }

  /** The number of modules that are free for data and check bits, remainder bits included. */
  function NumRawDataModules(version: Version): int {
    var result := (16 * version + 128) * version + 64;
    if version < 2 then result
    else
      var numAlign := version / 7 + 2;
      result - ((25 * numAlign - 10) * numAlign - 55) - (if version >= 7 then 36 else 0)
  }

  function NumDataCodewords(version: Version, ecl: Ecc): int {
    NumRawDataModules(version) / 8 - EccCodewordsPerBlock(ecl, version) * NumErrorCorrectionBlocks(ecl, version)
  }

  /** The layout of the blocks is usable: there is room for the check bytes, and no block is longer than 255 bytes. */
  predicate Usable(version: Version, e: nat, n: nat) {
    n > 0 && 1 <= e <= 30 && e * n <= NumRawDataModules(version) / 8 < 255 * n
  }

  /** Of a hundred codewords, at least and at most so many can be wrong: half as many as there are check bytes. */
  predicate Tolerates(version: Version, e: nat, n: nat, least: nat, most: nat) {
    Usable(version, e, n) && least * (NumRawDataModules(version) / 8) <= 100 * (e / 2) * n <= most * (NumRawDataModules(version) / 8)
  }

  lemma RawBounds(v: Version)
    ensures 208 <= NumRawDataModules(v) <= 29648
  {
    assert v == 1 || v == 2 || v == 3 || v == 4 || v == 5 || v == 6 || v == 7 || v == 8 || v == 9 || v == 10
        || v == 11 || v == 12 || v == 13 || v == 14 || v == 15 || v == 16 || v == 17 || v == 18 || v == 19 || v == 20
        || v == 21 || v == 22 || v == 23 || v == 24 || v == 25 || v == 26 || v == 27 || v == 28 || v == 29 || v == 30
        || v == 31 || v == 32 || v == 33 || v == 34 || v == 35 || v == 36 || v == 37 || v == 38 || v == 39 || v == 40;
  }

  lemma UsableLow(v: Version)
    ensures Tolerates(v, ECC_CODEWORDS_LOW[v], BLOCKS_LOW[v], 9, 12)
  {
    hide Tolerates;
    if v <= 20 {
      if v <= 5 { UsableLowTo5(v); } else if v <= 10 { UsableLowTo10(v); } else if v <= 15 { UsableLowTo15(v); } else { UsableLowTo20(v); }
    } else {
      if v <= 25 { UsableLowTo25(v); } else if v <= 30 { UsableLowTo30(v); } else if v <= 35 { UsableLowTo35(v); } else { UsableLowTo40(v); }
    }
  }

  lemma UsableLowTo5(v: Version)
    requires 1 <= v <= 5
    ensures Tolerates(v, ECC_CODEWORDS_LOW[v], BLOCKS_LOW[v], 9, 12)
  {
    assert v == 1 || v == 2 || v == 3 || v == 4 || v == 5;
  }

  lemma UsableLowTo10(v: Version)
    requires 6 <= v <= 10
    ensures Tolerates(v, ECC_CODEWORDS_LOW[v], BLOCKS_LOW[v], 9, 12)
  {
    assert v == 6 || v == 7 || v == 8 || v == 9 || v == 10;
  }

  lemma UsableLowTo15(v: Version)
    requires 11 <= v <= 15
    ensures Tolerates(v, ECC_CODEWORDS_LOW[v], BLOCKS_LOW[v], 9, 12)
  {
    assert v == 11 || v == 12 || v == 13 || v == 14 || v == 15;
  }

  lemma UsableLowTo20(v: Version)
    requires 16 <= v <= 20
    ensures Tolerates(v, ECC_CODEWORDS_LOW[v], BLOCKS_LOW[v], 9, 12)
  {
    assert v == 16 || v == 17 || v == 18 || v == 19 || v == 20;
  }

  lemma UsableLowTo25(v: Version)
    requires 21 <= v <= 25
    ensures Tolerates(v, ECC_CODEWORDS_LOW[v], BLOCKS_LOW[v], 9, 12)
  {
    assert v == 21 || v == 22 || v == 23 || v == 24 || v == 25;
  }

  lemma UsableLowTo30(v: Version)
    requires 26 <= v <= 30
    ensures Tolerates(v, ECC_CODEWORDS_LOW[v], BLOCKS_LOW[v], 9, 12)
  {
    assert v == 26 || v == 27 || v == 28 || v == 29 || v == 30;
  }

  lemma UsableLowTo35(v: Version)
    requires 31 <= v <= 35
    ensures Tolerates(v, ECC_CODEWORDS_LOW[v], BLOCKS_LOW[v], 9, 12)
  {
    assert v == 31 || v == 32 || v == 33 || v == 34 || v == 35;
  }

  lemma UsableLowTo40(v: Version)
    requires 36 <= v <= 40
    ensures Tolerates(v, ECC_CODEWORDS_LOW[v], BLOCKS_LOW[v], 9, 12)
  {
    assert v == 36 || v == 37 || v == 38 || v == 39 || v == 40;
  }

  lemma UsableMedium(v: Version)
    ensures Tolerates(v, ECC_CODEWORDS_MEDIUM[v], BLOCKS_MEDIUM[v], 17, 20)
  {
    hide Tolerates;
    if v <= 20 {
      if v <= 5 { UsableMediumTo5(v); } else if v <= 10 { UsableMediumTo10(v); } else if v <= 15 { UsableMediumTo15(v); } else { UsableMediumTo20(v); }
    } else {
      if v <= 25 { UsableMediumTo25(v); } else if v <= 30 { UsableMediumTo30(v); } else if v <= 35 { UsableMediumTo35(v); } else { UsableMediumTo40(v); }
    }
  }

  lemma UsableMediumTo5(v: Version)
    requires 1 <= v <= 5
    ensures Tolerates(v, ECC_CODEWORDS_MEDIUM[v], BLOCKS_MEDIUM[v], 17, 20)
  {
    assert v == 1 || v == 2 || v == 3 || v == 4 || v == 5;
  }

  lemma UsableMediumTo10(v: Version)
    requires 6 <= v <= 10
    ensures Tolerates(v, ECC_CODEWORDS_MEDIUM[v], BLOCKS_MEDIUM[v], 17, 20)
  {
    assert v == 6 || v == 7 || v == 8 || v == 9 || v == 10;
  }

  lemma UsableMediumTo15(v: Version)
    requires 11 <= v <= 15
    ensures Tolerates(v, ECC_CODEWORDS_MEDIUM[v], BLOCKS_MEDIUM[v], 17, 20)
  {
    assert v == 11 || v == 12 || v == 13 || v == 14 || v == 15;
  }

  lemma UsableMediumTo20(v: Version)
    requires 16 <= v <= 20
    ensures Tolerates(v, ECC_CODEWORDS_MEDIUM[v], BLOCKS_MEDIUM[v], 17, 20)
  {
    assert v == 16 || v == 17 || v == 18 || v == 19 || v == 20;
  }

  lemma UsableMediumTo25(v: Version)
    requires 21 <= v <= 25
    ensures Tolerates(v, ECC_CODEWORDS_MEDIUM[v], BLOCKS_MEDIUM[v], 17, 20)
  {
    assert v == 21 || v == 22 || v == 23 || v == 24 || v == 25;
  }

  lemma UsableMediumTo30(v: Version)
    requires 26 <= v <= 30
    ensures Tolerates(v, ECC_CODEWORDS_MEDIUM[v], BLOCKS_MEDIUM[v], 17, 20)
  {
    assert v == 26 || v == 27 || v == 28 || v == 29 || v == 30;
  }

  lemma UsableMediumTo35(v: Version)
    requires 31 <= v <= 35
    ensures Tolerates(v, ECC_CODEWORDS_MEDIUM[v], BLOCKS_MEDIUM[v], 17, 20)
  {
    assert v == 31 || v == 32 || v == 33 || v == 34 || v == 35;
  }

  lemma UsableMediumTo40(v: Version)
    requires 36 <= v <= 40
    ensures Tolerates(v, ECC_CODEWORDS_MEDIUM[v], BLOCKS_MEDIUM[v], 17, 20)
  {
    assert v == 36 || v == 37 || v == 38 || v == 39 || v == 40;
  }

  /** Version 1 falls short of the 25 of all others. */
  function LeastQuartile(v: Version): nat {
    if v == 1 then 23 else 25
  }

  lemma UsableQuartile(v: Version)
    ensures Tolerates(v, ECC_CODEWORDS_QUARTILE[v], BLOCKS_QUARTILE[v], LeastQuartile(v), 28)
  {
    hide Tolerates;
    if v <= 20 {
      if v <= 5 { UsableQuartileTo5(v); } else if v <= 10 { UsableQuartileTo10(v); } else if v <= 15 { UsableQuartileTo15(v); } else { UsableQuartileTo20(v); }
    } else {
      if v <= 25 { UsableQuartileTo25(v); } else if v <= 30 { UsableQuartileTo30(v); } else if v <= 35 { UsableQuartileTo35(v); } else { UsableQuartileTo40(v); }
    }
  }

  lemma UsableQuartileTo5(v: Version)
    requires 1 <= v <= 5
    ensures Tolerates(v, ECC_CODEWORDS_QUARTILE[v], BLOCKS_QUARTILE[v], LeastQuartile(v), 28)
  {
    assert v == 1 || v == 2 || v == 3 || v == 4 || v == 5;
  }

  lemma UsableQuartileTo10(v: Version)
    requires 6 <= v <= 10
    ensures Tolerates(v, ECC_CODEWORDS_QUARTILE[v], BLOCKS_QUARTILE[v], LeastQuartile(v), 28)
  {
    assert v == 6 || v == 7 || v == 8 || v == 9 || v == 10;
  }

  lemma UsableQuartileTo15(v: Version)
    requires 11 <= v <= 15
    ensures Tolerates(v, ECC_CODEWORDS_QUARTILE[v], BLOCKS_QUARTILE[v], LeastQuartile(v), 28)
  {
    assert v == 11 || v == 12 || v == 13 || v == 14 || v == 15;
  }

  lemma UsableQuartileTo20(v: Version)
    requires 16 <= v <= 20
    ensures Tolerates(v, ECC_CODEWORDS_QUARTILE[v], BLOCKS_QUARTILE[v], LeastQuartile(v), 28)
  {
    assert v == 16 || v == 17 || v == 18 || v == 19 || v == 20;
  }

  lemma UsableQuartileTo25(v: Version)
    requires 21 <= v <= 25
    ensures Tolerates(v, ECC_CODEWORDS_QUARTILE[v], BLOCKS_QUARTILE[v], LeastQuartile(v), 28)
  {
    assert v == 21 || v == 22 || v == 23 || v == 24 || v == 25;
  }

  lemma UsableQuartileTo30(v: Version)
    requires 26 <= v <= 30
    ensures Tolerates(v, ECC_CODEWORDS_QUARTILE[v], BLOCKS_QUARTILE[v], LeastQuartile(v), 28)
  {
    assert v == 26 || v == 27 || v == 28 || v == 29 || v == 30;
  }

  lemma UsableQuartileTo35(v: Version)
    requires 31 <= v <= 35
    ensures Tolerates(v, ECC_CODEWORDS_QUARTILE[v], BLOCKS_QUARTILE[v], LeastQuartile(v), 28)
  {
    assert v == 31 || v == 32 || v == 33 || v == 34 || v == 35;
  }

  lemma UsableQuartileTo40(v: Version)
    requires 36 <= v <= 40
    ensures Tolerates(v, ECC_CODEWORDS_QUARTILE[v], BLOCKS_QUARTILE[v], LeastQuartile(v), 28)
  {
    assert v == 36 || v == 37 || v == 38 || v == 39 || v == 40;
  }

  lemma UsableHigh(v: Version)
    ensures Tolerates(v, ECC_CODEWORDS_HIGH[v], BLOCKS_HIGH[v], 30, 34)
  {
    hide Tolerates;
    if v <= 20 {
      if v <= 5 { UsableHighTo5(v); } else if v <= 10 { UsableHighTo10(v); } else if v <= 15 { UsableHighTo15(v); } else { UsableHighTo20(v); }
    } else {
      if v <= 25 { UsableHighTo25(v); } else if v <= 30 { UsableHighTo30(v); } else if v <= 35 { UsableHighTo35(v); } else { UsableHighTo40(v); }
    }
  }

  lemma UsableHighTo5(v: Version)
    requires 1 <= v <= 5
    ensures Tolerates(v, ECC_CODEWORDS_HIGH[v], BLOCKS_HIGH[v], 30, 34)
  {
    assert v == 1 || v == 2 || v == 3 || v == 4 || v == 5;
  }

  lemma UsableHighTo10(v: Version)
    requires 6 <= v <= 10
    ensures Tolerates(v, ECC_CODEWORDS_HIGH[v], BLOCKS_HIGH[v], 30, 34)
  {
    assert v == 6 || v == 7 || v == 8 || v == 9 || v == 10;
  }

  lemma UsableHighTo15(v: Version)
    requires 11 <= v <= 15
    ensures Tolerates(v, ECC_CODEWORDS_HIGH[v], BLOCKS_HIGH[v], 30, 34)
  {
    assert v == 11 || v == 12 || v == 13 || v == 14 || v == 15;
  }

  lemma UsableHighTo20(v: Version)
    requires 16 <= v <= 20
    ensures Tolerates(v, ECC_CODEWORDS_HIGH[v], BLOCKS_HIGH[v], 30, 34)
  {
    assert v == 16 || v == 17 || v == 18 || v == 19 || v == 20;
  }

  lemma UsableHighTo25(v: Version)
    requires 21 <= v <= 25
    ensures Tolerates(v, ECC_CODEWORDS_HIGH[v], BLOCKS_HIGH[v], 30, 34)
  {
    assert v == 21 || v == 22 || v == 23 || v == 24 || v == 25;
  }

  lemma UsableHighTo30(v: Version)
    requires 26 <= v <= 30
    ensures Tolerates(v, ECC_CODEWORDS_HIGH[v], BLOCKS_HIGH[v], 30, 34)
  {
    assert v == 26 || v == 27 || v == 28 || v == 29 || v == 30;
  }

  lemma UsableHighTo35(v: Version)
    requires 31 <= v <= 35
    ensures Tolerates(v, ECC_CODEWORDS_HIGH[v], BLOCKS_HIGH[v], 30, 34)
  {
    assert v == 31 || v == 32 || v == 33 || v == 34 || v == 35;
  }

  lemma UsableHighTo40(v: Version)
    requires 36 <= v <= 40
    ensures Tolerates(v, ECC_CODEWORDS_HIGH[v], BLOCKS_HIGH[v], 30, 34)
  {
    assert v == 36 || v == 37 || v == 38 || v == 39 || v == 40;
  }

  lemma RoomPerBlock(raw: nat, e: nat, n: nat)
    requires n > 0 && e * n <= raw
    ensures raw / n >= e
  {
    var q := raw / n;
    assert raw == q * n + raw % n;
    if q < e {
      Times(q + 1, e, n);
    }
  }

  /** The block layout of a version and level. */
  function LayoutOf(version: Version, ecl: Ecc): (l: Layout)
    ensures l.Valid() && l.DataCodewords() == NumDataCodewords(version, ecl) && l.eccLen <= 30
    ensures 26 <= l.rawCodewords <= 3706 && l.rawCodewords < 255 * l.numBlocks
  {
    RawBounds(version);
    UsableLayout(version, ecl);
    RoomPerBlock(NumRawDataModules(version) / 8, EccCodewordsPerBlock(ecl, version), NumErrorCorrectionBlocks(ecl, version));
    Layout(NumErrorCorrectionBlocks(ecl, version), EccCodewordsPerBlock(ecl, version), NumRawDataModules(version) / 8)
  }

  lemma UsableLayout(version: Version, ecl: Ecc)
    ensures Usable(version, EccCodewordsPerBlock(ecl, version), NumErrorCorrectionBlocks(ecl, version))
  {
    hide Usable;
    match ecl
    case LOW => UsableLow(version);
    case MEDIUM => UsableMedium(version);
    case QUARTILE => UsableQuartile(version);
    case HIGH => UsableHigh(version);
  }

  /**
    How many wrong codewords a level can correct, in percent of all: about 7, 15, 25 and 30 are promised. Level Q of
    version 1 has 23 only, all others have what is promised.
   */
  lemma ToleratedShare(version: Version, ecl: Ecc)
    ensures
      var promised := match ecl case LOW => 7 case MEDIUM => 15 case QUARTILE => 25 case HIGH => 30;
      var all := NumRawDataModules(version) / 8;
      var wrong := EccCodewordsPerBlock(ecl, version) / 2 * NumErrorCorrectionBlocks(ecl, version);
      (promised * all <= 100 * wrong <==> !(ecl == QUARTILE && version == 1)) && 100 * wrong <= (promised + 5) * all
      && (ecl == QUARTILE && version == 1 ==> wrong == 6 && all == 26)
  {
    hide Usable;
    var n, e := NumErrorCorrectionBlocks(ecl, version), EccCodewordsPerBlock(ecl, version);
    Hundredfold(e / 2, n);
    RawBounds(version);
    match ecl
    case LOW => UsableLow(version);
    case MEDIUM => UsableMedium(version);
    case QUARTILE => UsableQuartile(version);
    case HIGH => UsableHigh(version);
  }

  lemma Hundredfold(a: nat, n: nat)
    ensures 100 * a * n == 100 * (a * n)
  {}
}

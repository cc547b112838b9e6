/**
  Splitting data into blocks, appending check bytes and interleaving (section 7.6 of
  ISO/IEC 18004:2015).

  The parameters stand for the entries of the version tables: any number of blocks, any number of
  check bytes and any number of raw codewords for which a short block holds its check bytes.
 */
module QrInterleave {
  import opened QrByte
  import opened QrGalois
  import opened QrReedSolomon
  import opened Wrappers

  datatype Layout = Layout(numBlocks: nat, eccLen: nat, rawCodewords: nat) {
    ghost predicate Valid() {
      numBlocks > 0 && 1 <= eccLen <= 255 && rawCodewords / numBlocks >= eccLen
    }

    /** The length of a short block. */
    function ShortLen(): (n: nat)
      requires numBlocks > 0
    {
      rawCodewords / numBlocks
    }

    function NumShort(): (n: nat)
      requires numBlocks > 0
      ensures 1 <= n <= numBlocks
    {
      numBlocks - rawCodewords % numBlocks
    }

    /** The number of data bytes in a short block; the index of the padding byte. */
    function Pad(): (n: nat)
      requires Valid()
    {
      ShortLen() - eccLen
    }

    /** The number of data bytes in block j. */
    function DataLen(j: nat): nat
      requires Valid()
    {
      Pad() + (if j < NumShort() then 0 else 1)
    }

    /** Where the data of block j starts. */
    function Start(j: nat): nat
      requires Valid()
    {
      if j == 0 then 0 else Start(j - 1) + DataLen(j - 1)
    }

    /** The data of block j lies within the first n bytes. */
    predicate Fits(j: nat, n: nat)
      requires Valid()
    {
      Start(j + 1) <= n
    }

    /** The number of data codewords of the symbol. */
    function DataCodewords(): int {
      rawCodewords - eccLen * numBlocks
    }

    /** The number of bytes before row i when no padding is skipped. */
    function RowStart(i: nat): int {
      i * numBlocks
    }

    /** Byte i of block j is not the padding byte of a short block. */
    predicate Present(i: nat, j: nat)
      requires Valid()
    {
      i != Pad() || j >= NumShort()
    }

    /** The number of bytes written before byte i of block j. */
    function Position(i: nat, j: nat): int
      requires Valid()
    {
      RowStart(i) + j -
      (if i < Pad() then 0 else if i == Pad() && j < NumShort() then j else NumShort())
    }
  }

  lemma {:induction false} StartIs(l: Layout, j: nat)
    requires l.Valid()
    ensures l.Start(j) == j * l.Pad() + (if j <= l.NumShort() then 0 else j - l.NumShort())
  {
    if j > 0 {
      StartIs(l, j - 1);
      assert j * l.Pad() == (j - 1) * l.Pad() + l.Pad();
    }
  }

  /** The blocks use up the data. */
  lemma StartLast(l: Layout)
    requires l.Valid()
    ensures l.Start(l.numBlocks) == l.DataCodewords()
  {
    StartIs(l, l.numBlocks);
    assert l.numBlocks * l.Pad() == l.numBlocks * l.ShortLen() - l.numBlocks * l.eccLen;
    assert l.rawCodewords == l.numBlocks * l.ShortLen() + l.rawCodewords % l.numBlocks;
    assert l.eccLen * l.numBlocks == l.numBlocks * l.eccLen;
  }

  lemma {:induction false} StartMonotone(l: Layout, i: nat, j: nat)
    requires l.Valid() && i <= j
    ensures l.Start(i) <= l.Start(j)
    decreases j
  {
    if i < j {
      StartMonotone(l, i, j - 1);
    }
  }

  // ----- Blocks -----

  function BlockData(l: Layout, data: Poly, j: nat): (d: Poly)
    requires l.Valid() && l.Fits(j, |data|)
    ensures |d| == l.DataLen(j)
  {
    data[l.Start(j)..l.Start(j + 1)]
  }

  /** The data of block j, a padding byte if it is short, and its check bytes. */
  function Block(l: Layout, data: Poly, divisor: Poly, j: nat): (b: Poly)
    requires l.Valid() && l.Fits(j, |data|) && |divisor| == l.eccLen
    ensures |b| == l.ShortLen() + 1
  {
    var d := BlockData(l, data, j);
    d + (if j < l.NumShort() then [0] else []) + Remainder(d, divisor)
  }

  /** The symbol's codewords for the data: byte i of block j stands at Position(i, j). */
  ghost predicate Encodes(l: Layout, data: Poly, divisor: Poly, result: Poly)
    requires l.Valid() && |divisor| == l.eccLen
  {
    |result| == l.rawCodewords
    && (forall j :: 0 <= j < l.numBlocks ==> l.Fits(j, |data|))
    && (forall i, j :: 0 <= i <= l.ShortLen() && 0 <= j < l.numBlocks && l.Present(i, j) ==>
          0 <= l.Position(i, j) < |result| && result[l.Position(i, j)] == Block(l, data, divisor, j)[i])
  }

  // ----- Positions -----

  lemma Times(a: int, b: int, n: int)
    requires a <= b && 0 <= n
    ensures a * n <= b * n
    ensures (a + 1) * n == a * n + n
  {}

  lemma RowFacts(l: Layout, i: nat, k: nat)
    requires l.Valid()
    ensures l.RowStart(0) == 0 && l.RowStart(1) == l.numBlocks
    ensures l.RowStart(i + 1) == l.RowStart(i) + l.numBlocks
    ensures i <= k ==> l.RowStart(i) <= l.RowStart(k)
    ensures l.rawCodewords == l.RowStart(l.ShortLen()) + l.numBlocks - l.NumShort()
  {
    Times(i, i, l.numBlocks);
    if i <= k {
      Times(i, k, l.numBlocks);
    }
    assert l.rawCodewords == l.ShortLen() * l.numBlocks + l.rawCodewords % l.numBlocks;
  }

  /** Row by row the positions run through all raw codewords. */
  lemma Rows(l: Layout, i: nat)
    requires l.Valid()
    ensures l.Position(0, 0) == 0
    ensures l.Position(l.ShortLen() + 1, 0) == l.rawCodewords
    ensures l.Position(i, l.numBlocks) == l.Position(i + 1, 0)
  {
    hide l.RowStart;
    RowFacts(l, i, i);
    RowFacts(l, l.ShortLen(), 0);
  }

  lemma PositionRange(l: Layout, i: nat, j: nat)
    requires l.Valid() && i <= l.ShortLen() && j < l.numBlocks && l.Present(i, j)
    ensures 0 <= l.Position(i, j) < l.rawCodewords
  {
    hide l.RowStart;
    RowFacts(l, 0, i);
    RowFacts(l, i, l.ShortLen());
    RowFacts(l, i + 1, l.ShortLen());
    RowFacts(l, 1, i);
  }

  /** The byte (i, j) at position k of the interleaved sequence. */
  function ByteAt(l: Layout, k: nat): (nat, nat)
    requires l.Valid()
  {
    var n, m := l.numBlocks, l.RowStart(l.Pad());
    if k < m then (k / n, k % n)
    else if k < m + n - l.NumShort() then (l.Pad(), l.NumShort() + (k - m))
    else ((k + l.NumShort()) / n, (k + l.NumShort()) % n)
  }

  /** Every position of the output holds a byte that is not padding ... */
  lemma PositionOnto(l: Layout, k: nat)
    requires l.Valid() && k < l.rawCodewords
    ensures var (i, j) := ByteAt(l, k);
      i <= l.ShortLen() && j < l.numBlocks && l.Present(i, j) && l.Position(i, j) == k
  {
    hide l.RowStart;
    var n, m, s := l.numBlocks, l.RowStart(l.Pad()), l.NumShort();
    RowFacts(l, l.Pad(), l.ShortLen());
    if k < m {
      DivisionFacts(l, k);
      RowFacts(l, l.Pad(), k / n);
    } else if k >= m + n - s {
      var q := (k + s) / n;
      DivisionFacts(l, k + s);
      RowFacts(l, q, l.Pad());
      RowFacts(l, l.ShortLen() + 1, q);
      RowFacts(l, l.ShortLen(), 0);
    }
  }

  lemma DivisionFacts(l: Layout, k: nat)
    requires l.Valid()
    ensures k == l.RowStart(k / l.numBlocks) + k % l.numBlocks
  {}

  /** ... and only one. */
  lemma PositionInjective(l: Layout, i: nat, j: nat)
    requires l.Valid() && i <= l.ShortLen() && j < l.numBlocks && l.Present(i, j)
    ensures 0 <= l.Position(i, j) && ByteAt(l, l.Position(i, j)) == (i, j)
  {
    hide l.RowStart;
    PositionRange(l, i, j);
    RowFacts(l, i, l.Pad());
    RowFacts(l, i + 1, l.Pad());
    RowFacts(l, l.Pad(), i);
    RowFacts(l, l.Pad() + 1, i);
    QuotientIs(l, i, j);
  }

  lemma QuotientIs(l: Layout, i: nat, j: nat)
    requires l.Valid() && j < l.numBlocks
    ensures (l.RowStart(i) + j) / l.numBlocks == i && (l.RowStart(i) + j) % l.numBlocks == j
  {
    var k := l.RowStart(i) + j;
    var q := k / l.numBlocks;
    assert k == q * l.numBlocks + k % l.numBlocks;
    if q < i {
      Times(q + 1, i, l.numBlocks);
    }
    if q > i {
      Times(i + 1, q, l.numBlocks);
    }
  }

  // ----- The program -----

  datatype LengthError = InvalidArgument

  method AddEccAndInterleave(l: Layout, data: Poly) returns (r: Result<Poly, LengthError>, ghost divisor: Poly)
    requires l.Valid()
    ensures [1] + divisor == Generator(l.eccLen)
    ensures r.Failure? <==> |data| != l.DataCodewords()
    ensures r.Success? ==> Encodes(l, data, divisor, r.value)
  {
    hide l.Start, Block, Generator;
    var rs := ComputeDivisor(l.eccLen);
    divisor := rs.value;
    GeneratorLength(l.eccLen, divisor);
    if |data| != l.DataCodewords() {
      return Failure(InvalidArgument), divisor;
    }
    var blocks := SplitBlocks(l, data, rs.value);
    var result := Interleave(l, blocks);
    r := Success(result);
  }

  method SplitBlocks(l: Layout, data: Poly, divisor: Poly) returns (blocks: seq<Poly>)
    requires l.Valid() && |divisor| == l.eccLen && |data| == l.DataCodewords()
    ensures |blocks| == l.numBlocks
    ensures forall j :: 0 <= j < |blocks| ==> l.Fits(j, |data|) && blocks[j] == Block(l, data, divisor, j)
  {
    hide l.Start, Block, Remainder;
    StartLast(l);
    blocks := [];
    var k := 0;
    BlockAt(l, data, divisor, 0);
    for i := 0 to l.numBlocks
      invariant k == l.Start(i)
      invariant |blocks| == i
      invariant forall j :: 0 <= j < i ==> l.Fits(j, |data|) && blocks[j] == Block(l, data, divisor, j)
    {
      StartMonotone(l, i + 1, l.numBlocks);
      BlockAt(l, data, divisor, i);
      var dat := data[k..k + l.ShortLen() - l.eccLen + (if i < l.NumShort() then 0 else 1)];
      k := k + |dat|;
      var ecc := ComputeRemainder(dat, divisor);
      if i < l.NumShort() {
        dat := dat + [0];
      }
      dat := dat + ecc;
      blocks := blocks + [dat];
    }
  }

  lemma GeneratorLength(n: nat, divisor: Poly)
    requires [1] + divisor == Generator(n)
    ensures |divisor| == n
  {
    assert |Generator(n)| == n + 1;
  }

  lemma BlockAt(l: Layout, data: Poly, divisor: Poly, j: nat)
    requires l.Valid() && |divisor| == l.eccLen
    ensures l.Start(0) == 0 && l.Start(j + 1) == l.Start(j) + l.DataLen(j)
    ensures l.Fits(j, |data|) ==>
      var d := data[l.Start(j)..l.Start(j + 1)];
      Block(l, data, divisor, j) == d + (if j < l.NumShort() then [0] else []) + Remainder(d, divisor)
  {
    hide Remainder;
  }

  /** Takes a byte from every block in turn, skipping the padding. */
  method Interleave(l: Layout, blocks: seq<Poly>) returns (result: Poly)
    requires l.Valid() && |blocks| == l.numBlocks
    requires forall j :: 0 <= j < |blocks| ==> |blocks[j]| == l.ShortLen() + 1
    ensures |result| == l.rawCodewords
    ensures forall i, j :: 0 <= i <= l.ShortLen() && 0 <= j < l.numBlocks && l.Present(i, j) ==>
          0 <= l.Position(i, j) < |result| && result[l.Position(i, j)] == blocks[j][i]
  {
    hide l.RowStart;
    result := [];
    Rows(l, 0);
    for i := 0 to l.ShortLen() + 1
      invariant |result| == l.Position(i, 0)
      invariant Taken(l, blocks, result, i, 0)
    {
      for j := 0 to |blocks|
        invariant |result| == l.Position(i, j)
        invariant Taken(l, blocks, result, i, j)
      {
        if i != l.ShortLen() - l.eccLen || j >= l.NumShort() {
          result := result + [blocks[j][i]];
        }
      }
      Rows(l, i);
    }
  }

  /** Byte (i, j) is taken before byte (row, block). */
  predicate Earlier(i: nat, j: nat, row: nat, block: nat) {
    i < row || (i == row && j < block)
  }

  /** The bytes before byte (row, block) stand where they belong. */
  ghost predicate Taken(l: Layout, blocks: seq<Poly>, result: Poly, row: nat, block: nat)
    requires l.Valid() && |blocks| == l.numBlocks
    requires forall j :: 0 <= j < |blocks| ==> |blocks[j]| == l.ShortLen() + 1
  {
    forall i, j :: 0 <= i <= l.ShortLen() && 0 <= j < l.numBlocks && l.Present(i, j) && Earlier(i, j, row, block) ==>
      0 <= l.Position(i, j) < |result| && result[l.Position(i, j)] == blocks[j][i]
  }

  // ----- The receiver -----

  function ReadData(l: Layout, received: Poly, j: nat): (d: Poly)
    requires l.Valid() && |received| == l.rawCodewords && j < l.numBlocks
    ensures |d| == l.DataLen(j)
  {
    seq(l.DataLen(j), i requires 0 <= i < l.DataLen(j) => PositionRange(l, i, j); received[l.Position(i, j)])
  }

  function ReadEcc(l: Layout, received: Poly, j: nat): Poly
    requires l.Valid() && |received| == l.rawCodewords && j < l.numBlocks
  {
    seq(l.eccLen, i requires 0 <= i < l.eccLen =>
      PositionRange(l, l.Pad() + 1 + i, j); received[l.Position(l.Pad() + 1 + i, j)])
  }

  /** The data of the first n blocks. */
  function ReadAll(l: Layout, received: Poly, n: nat): Poly
    requires l.Valid() && |received| == l.rawCodewords && n <= l.numBlocks
  {
    if n == 0 then [] else ReadAll(l, received, n - 1) + ReadData(l, received, n - 1)
  }

  /** De-interleaving recovers the data and the check bytes of every block. */
  lemma BlockRecovered(l: Layout, data: Poly, divisor: Poly, received: Poly, j: nat)
    requires l.Valid() && |divisor| == l.eccLen && j < l.numBlocks
    requires Encodes(l, data, divisor, received)
    ensures ReadData(l, received, j) == BlockData(l, data, j)
    ensures ReadEcc(l, received, j) == Remainder(BlockData(l, data, j), divisor)
  {
    hide Remainder, l.Position, l.Start, Block;
    BlockAt(l, data, divisor, j);
    var b := Block(l, data, divisor, j);
    var d := BlockData(l, data, j);
    assert forall i :: 0 <= i <= l.ShortLen() && l.Present(i, j) ==> received[l.Position(i, j)] == b[i];
    forall i | 0 <= i < l.DataLen(j)
      ensures ReadData(l, received, j)[i] == d[i]
    {
      assert l.Present(i, j);
    }
    forall i | 0 <= i < l.eccLen
      ensures ReadEcc(l, received, j)[i] == Remainder(d, divisor)[i]
    {
      assert l.Present(l.Pad() + 1 + i, j);
    }
  }

  /** Each recovered block is a codeword: it vanishes at 2^0, ..., 2^(eccLen-1). */
  lemma BlockValid(l: Layout, data: Poly, divisor: Poly, received: Poly, j: nat, i: nat)
    requires l.Valid() && [1] + divisor == Generator(l.eccLen) && |divisor| == l.eccLen
    requires j < l.numBlocks && i < l.eccLen
    requires Encodes(l, data, divisor, received)
    ensures Eval(ReadData(l, received, j) + ReadEcc(l, received, j), Root(i)) == 0
  {
    hide *;
    BlockRecovered(l, data, divisor, received, j);
    EncodesStart(l, data, divisor, received, j);
    ValidCodeword(BlockData(l, data, j), l.eccLen, divisor, i);
  }

  lemma EncodesStart(l: Layout, data: Poly, divisor: Poly, received: Poly, j: nat)
    requires l.Valid() && |divisor| == l.eccLen && j < l.numBlocks && Encodes(l, data, divisor, received)
    ensures |received| == l.rawCodewords && l.Fits(j, |data|) && l.Start(j + 1) <= |data|
  {}

  /** Interleaving is lossless. */
  lemma {:induction false} DataRecovered(l: Layout, data: Poly, divisor: Poly, received: Poly, n: nat)
    requires l.Valid() && |divisor| == l.eccLen && n <= l.numBlocks
    requires Encodes(l, data, divisor, received)
    ensures |received| == l.rawCodewords && l.Start(n) <= |data| && ReadAll(l, received, n) == data[..l.Start(n)]
  {
    hide Encodes, Block, ReadData;
    EncodesStart(l, data, divisor, received, 0);
    if n > 0 {
      EncodesStart(l, data, divisor, received, n - 1);
      DataRecovered(l, data, divisor, received, n - 1);
      BlockRecovered(l, data, divisor, received, n - 1);
    }
  }

  // ----- The order of interleaving -----

  /** First the first bytes of all blocks, then the second ones, and so on; data comes before check bytes. */
  lemma ColumnOrder(l: Layout, i: nat, j: nat, k: nat, m: nat)
    requires l.Valid() && i <= l.ShortLen() && k <= l.ShortLen() && j < l.numBlocks && m < l.numBlocks
    requires l.Present(i, j) && l.Present(k, m)
    ensures i < k || (i == k && j < m) <==> l.Position(i, j) < l.Position(k, m)
  {
    hide l.RowStart;
    if i < k {
      RowsApart(l, i, k);
    } else if k < i {
      RowsApart(l, k, i);
    }
  }

  lemma RowsApart(l: Layout, i: nat, k: nat)
    requires l.Valid() && i < k
    ensures l.RowStart(k) >= l.RowStart(i) + l.numBlocks && (k > i + 1 ==> l.RowStart(k) >= l.RowStart(i) + 2 * l.numBlocks)
  {
    hide l.RowStart;
    RowFacts(l, i, k);
    RowFacts(l, i + 1, k);
    RowFacts(l, i + 2, k);
  }

  /** The shorter blocks come first, and none is shorter by more than one byte. */
  lemma BlocksBalanced(l: Layout, i: nat, j: nat)
    requires l.Valid() && i < j < l.numBlocks
    ensures l.DataLen(i) <= l.DataLen(j) <= l.DataLen(i) + 1
  {}
}

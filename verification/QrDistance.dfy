/**
  How many errors a Reed-Solomon code word withstands: two words for different data differ in more places than there
  are check bytes, so that up to half as many wrong bytes leave only one word within reach.
 */
module QrDistance {
  import opened QrByte
  import opened QrFormat
  import opened QrGalois
  import opened QrInterleave
  import opened QrReedSolomon
  import opened QrVersions

  // ----- No zero divisors -----

  /** The product written out, bit by bit. */
  function Unrolled(x: byte, y: byte): byte {
    var h7 := Pick(y >> 7, x);
    var h6 := Add(Double(h7), Pick(y >> 6, x));
    var h5 := Add(Double(h6), Pick(y >> 5, x));
    var h4 := Add(Double(h5), Pick(y >> 4, x));
    var h3 := Add(Double(h4), Pick(y >> 3, x));
    var h2 := Add(Double(h3), Pick(y >> 2, x));
    var h1 := Add(Double(h2), Pick(y >> 1, x));
    Add(Double(h1), Pick(y, x))
  }

  lemma HornerUnrolls(x: byte, y: byte, n: nat)
    ensures Horner(x, y, n + 1) == Add(Double(Horner(x, y >> 1, n)), Pick(y, x))
  {}

  lemma ShiftsAdd(y: byte)
    ensures (y >> 1) >> 1 == y >> 2 && (y >> 2) >> 1 == y >> 3 && (y >> 3) >> 1 == y >> 4
    ensures (y >> 4) >> 1 == y >> 5 && (y >> 5) >> 1 == y >> 6 && (y >> 6) >> 1 == y >> 7
  {}

  lemma MulUnrolls(x: byte, y: byte)
    ensures Mul(x, y) == Unrolled(x, y)
  {
    hide Horner, Add, Double, Pick;
    ShiftsAdd(y);
    FirstBit(x, y >> 7);
    HornerUnrolls(x, y >> 6, 1);
    HornerUnrolls(x, y >> 5, 2);
    HornerUnrolls(x, y >> 4, 3);
    HornerUnrolls(x, y >> 3, 4);
    HornerUnrolls(x, y >> 2, 5);
    HornerUnrolls(x, y >> 1, 6);
    HornerUnrolls(x, y, 7);
  }

  lemma FirstBit(x: byte, y: byte)
    ensures Horner(x, y, 1) == Pick(y, x)
  {
    assert Horner(x, y >> 1, 0) == 0;
    assert Add(Double(0), Pick(y, x)) == Pick(y, x);
  }

  lemma UnrolledHigh(x: byte, y: byte)
    requires y >= 128 && x >= 128
    ensures Unrolled(x, y) != 0
  {}

  lemma UnrolledMiddle(x: byte, y: byte)
    requires Unrolled(x, y) == 0 && y >= 128 && x < 128
    ensures x == 0
  {}

  lemma UnrolledLow(x: byte, y: byte)
    requires Unrolled(x, y) == 0 && y < 128 && x >= 128
    ensures y == 0
  {}

  lemma UnrolledLowest(x: byte, y: byte)
    requires Unrolled(x, y) == 0 && y < 128 && x < 128
    ensures x == 0 || y == 0
  {}

  /** The modulus is irreducible, so a product is zero only when a factor is. */
  lemma NoZeroDivisors(x: byte, y: byte)
    ensures Mul(x, y) == 0 <==> x == 0 || y == 0
  {
    hide Mul, Unrolled;
    MulUnrolls(x, y);
    if Mul(x, y) == 0 {
      if y >= 128 {
        if x >= 128 {
          UnrolledHigh(x, y);
        } else {
          UnrolledMiddle(x, y);
        }
      } else if x >= 128 {
        UnrolledLow(x, y);
      } else {
        UnrolledLowest(x, y);
      }
    }
    MulOne(x);
    MulOne(y);
  }

  // ----- The order of 2 -----

  lemma {:induction false} RootAdd(a: nat, b: nat)
    ensures Root(a + b) == Mul(Root(a), Root(b))
    decreases b
  {
    hide Mul;
    if b == 0 {
      MulOne(Root(a));
    } else {
      RootAdd(a, b - 1);
      MulAssociates(Root(a), Root(b - 1), 2);
    }
  }

  lemma {:induction false} RootNonzero(a: nat)
    ensures Root(a) != 0
  {
    hide Mul;
    if a > 0 {
      RootNonzero(a - 1);
      NoZeroDivisors(Root(a - 1), 2);
    }
  }

  /** Exponents count modulo a period. */
  lemma {:induction false} RootPeriods(q: nat, d: nat, r: nat)
    requires Root(d) == 1
    ensures Root(q * d + r) == Root(r)
    decreases q
  {
    hide Mul;
    if q > 0 {
      RootPeriods(q - 1, d, r);
      assert q * d + r == (q - 1) * d + r + d;
      RootAdd((q - 1) * d + r, d);
      MulOne(Root(r));
    }
  }

  lemma RootRest(n: nat, d: nat)
    requires d > 0 && Root(d) == 1
    ensures Root(n % d) == Root(n)
  {
    hide Root;
    RootPeriods(n / d, d, n % d);
    assert n == n / d * d + n % d;
  }

  /** Twice an exponent, and one more. */
  lemma RootTwice(n: nat, r: byte)
    requires Root(n) == r
    ensures Root(2 * n) == Unrolled(r, r) && Root(2 * n + 1) == Double(Unrolled(r, r))
  {
    hide Mul, Unrolled;
    RootAdd(n, n);
    MulUnrolls(r, r);
    MulOne(Root(2 * n));
  }

  lemma SomeRoots()
    ensures Root(255) == 1 && Root(85) != 1 && Root(51) != 1 && Root(15) != 1
  {
    hide Mul;
    assert Root(1) == 2 by { MulOne(2); }
    RootTwice(1, 2);
    RootTwice(3, 8);
    RootTwice(7, 128);
    RootTwice(15, 0x26);
    RootTwice(31, 0xC0);
    RootTwice(63, 0xA1);
    RootTwice(127, 0xCC);
    RootTwice(2, 4);
    RootTwice(5, 32);
    RootTwice(10, 0x74);
    RootTwice(21, 0x75);
    RootTwice(42, 0xB5);
    RootTwice(6, 64);
    RootTwice(12, 0xCD);
    RootTwice(25, 3);
  }

  /** The powers of 2 repeat after 255 steps and not before. */
  lemma {:induction false} RootOrder(d: nat)
    requires 0 < d < 255
    ensures Root(d) != 1
    decreases d
  {
    if Root(d) == 1 {
      var r := 255 % d;
      SomeRoots();
      RootRest(255, d);
      if r > 0 {
        RootOrder(r);
      } else {
        assert Root(0) == 1;
        DivisorsOf255(d);
        RootRest(85, d);
        RootRest(51, d);
        RootRest(15, d);
      }
    }
  }

  lemma DivisorsOf255(d: nat)
    requires 0 < d < 255 && 255 % d == 0
    ensures 85 % d == 0 || 51 % d == 0 || 15 % d == 0
  {
    var m := 255 / d;
    assert m * d == 255;
    if d > 15 {
      assert m <= 15;
      assert m == 1 || m == 2 || m == 3 || m == 4 || m == 5 || m == 6 || m == 7 || m == 8 || m == 9 || m == 10
        || m == 11 || m == 12 || m == 13 || m == 14 || m == 15;
      assert d == 85 || d == 51 || d == 17;
    } else {
      assert d == 1 || d == 2 || d == 3 || d == 4 || d == 5 || d == 6 || d == 7 || d == 8 || d == 9 || d == 10
        || d == 11 || d == 12 || d == 13 || d == 14 || d == 15;
    }
  }

  lemma RootsDiffer(e: nat, f: nat)
    requires e < 255 && f < 255 && e != f
    ensures Add(Root(e), Root(f)) != 0
  {
    hide Mul;
    if e < f {
      LaterRoot(e, f);
    } else {
      LaterRoot(f, e);
    }
  }

  lemma LaterRoot(e: nat, f: nat)
    requires e < f < 255
    ensures Root(e) != Root(f)
  {
    hide Mul;
    RootOrder(f - e);
    RootAdd(e, f - e);
    if Root(e) == Root(f) {
      var x, y := Root(e), Root(f - e);
      MulDistributes(1, y, x);
      MulOne(x);
      AddLaws(x, x, 0);
      ByteApart(1, y);
      RootNonzero(e);
      NoZeroDivisors(x, Add(1, y));
    }
  }

  // ----- Weights -----

  /** The number of coefficients that are not zero. */
  function Weight(p: Poly): nat {
    if p == [] then 0 else Weight(p[..|p| - 1]) + (if p[|p| - 1] == 0 then 0 else 1)
  }

  /** The coefficient of exponent e times 2^e + c, where exponents begin at s. */
  function Twist(p: Poly, s: nat, c: byte): (r: Poly)
    ensures |r| == |p|
  {
    if p == [] then [] else Twist(p[..|p| - 1], s + 1, c) + [Mul(p[|p| - 1], Add(Root(s), c))]
  }

  lemma {:induction false} EvalTwist(p: Poly, s: nat, c: byte, a: byte)
    ensures Eval(Twist(p, s, c), a) == Add(Mul(Root(s), Eval(p, Mul(a, 2))), Mul(c, Eval(p, a)))
    decreases |p|
  {
    hide Mul, Add;
    if p == [] {
      MulOne(Root(s));
      MulOne(c);
      AddLaws(0, 0, 0);
    } else {
      var front, last := p[..|p| - 1], p[|p| - 1];
      EvalTwist(front, s + 1, c, a);
      assert Twist(p, s, c)[..|p| - 1] == Twist(front, s + 1, c);
      TwistStep(Eval(front, Mul(a, 2)), Eval(front, a), last, Root(s), c, a);
    }
  }

  lemma TwistStep(u: byte, v: byte, last: byte, r: byte, c: byte, a: byte)
    ensures
      Add(Mul(Add(Mul(Mul(r, 2), u), Mul(c, v)), a), Mul(last, Add(r, c)))
      == Add(Mul(r, Add(Mul(u, Mul(a, 2)), last)), Mul(c, Add(Mul(v, a), last)))
  {
    hide Mul, Add;
    var x, y := Mul(Mul(Mul(r, 2), u), a), Mul(Mul(c, v), a);
    MulDistributes(Mul(Mul(r, 2), u), Mul(c, v), a);
    MulDistributes(r, c, last);
    MulDistributes(Mul(u, Mul(a, 2)), last, r);
    MulDistributes(Mul(v, a), last, c);
    MulAssociates(c, v, a);
    assert Mul(r, Mul(u, Mul(a, 2))) == x by { Regroup(r, u, a); }
    MulCommutes(last, r);
    MulCommutes(last, c);
    AddExchange(x, y, Mul(last, r), Mul(last, c));
  }

  lemma Regroup(r: byte, u: byte, a: byte)
    ensures Mul(r, Mul(u, Mul(a, 2))) == Mul(Mul(Mul(r, 2), u), a)
  {
    hide Mul;
    MulCommutes(a, 2);
    MulAssociates(u, 2, a);
    MulCommutes(u, 2);
    MulAssociates(r, Mul(2, u), a);
    MulAssociates(r, 2, u);
  }

  /** The coefficient of an exponent. */
  function Coefficient(p: Poly, e: nat): byte {
    if e < |p| then p[|p| - 1 - e] else 0
  }

  lemma FrontCoefficient(p: Poly, e: nat)
    requires p != []
    ensures Coefficient(p, e) == if e == 0 then p[|p| - 1] else Coefficient(p[..|p| - 1], e - 1)
  {}

  lemma TwistLast(p: Poly, s: nat, e: nat)
    requires p != [] && s < 255 && e < 255
    ensures
      var q, last := Twist(p, s, Root(e)), p[|p| - 1];
      q[..|p| - 1] == Twist(p[..|p| - 1], s + 1, Root(e)) && (q[|p| - 1] == 0 <==> s == e || last == 0)
  {
    hide Mul, Add, Root;
    var last := p[|p| - 1];
    NoZeroDivisors(last, Add(Root(s), Root(e)));
    if s == e {
      AddLaws(Root(s), 0, 0);
    } else {
      RootsDiffer(s, e);
    }
  }

  /** Twisting by 2^e removes the coefficient of exponent e and no other. */
  lemma {:induction false} TwistWeight(p: Poly, s: nat, e: nat)
    requires s + |p| <= 255 && e < 255
    ensures
      Weight(p) == Weight(Twist(p, s, Root(e))) + (if s <= e && Coefficient(p, e - s) != 0 then 1 else 0)
    decreases |p|
  {
    hide Mul, Add, Root, Twist, Coefficient;
    if p == [] {
      NothingTwisted(s, e);
    } else {
      TwistWeight(p[..|p| - 1], s + 1, e);
      TwistLast(p, s, e);
      if s <= e {
        FrontCoefficient(p, e - s);
      }
    }
  }

  lemma NothingTwisted(s: nat, e: nat)
    ensures Twist([], s, Root(e)) == [] && (s <= e ==> Coefficient([], e - s) == 0)
  {}

  lemma {:induction false} NoWeight(p: Poly, a: byte)
    requires Weight(p) == 0
    ensures Eval(p, a) == 0
  {
    hide Mul, Add;
    if p != [] {
      NoWeight(p[..|p| - 1], a);
      MulOne(a);
      AddLaws(0, 0, 0);
    }
  }

  /** A single coefficient shows at 1. */
  lemma {:induction false} OneWeight(p: Poly)
    requires Weight(p) == 1
    ensures Eval(p, 1) != 0
  {
    hide Mul, Add;
    var front, last := p[..|p| - 1], p[|p| - 1];
    MulOne(Eval(front, 1));
    if last == 0 {
      OneWeight(front);
      AddLaws(Eval(front, 1), 0, 0);
    } else {
      NoWeight(front, 1);
      AddLaws(last, 0, 0);
    }
  }

  lemma {:induction false} SomeCoefficient(p: Poly) returns (k: nat)
    requires Weight(p) > 0
    ensures k < |p| && p[k] != 0
  {
    k := |p| - 1;
    if p[k] == 0 {
      k := SomeCoefficient(p[..k]);
    }
  }

  ghost predicate VanishesBelow(p: Poly, d: nat) {
    forall j :: 0 <= j < d ==> Eval(p, Root(j)) == 0
  }

  /** No polynomial of length up to 255 with d coefficients or fewer vanishes at 2^0, ..., 2^(d-1), but zero. */
  lemma {:induction false} TooManyRoots(p: Poly, d: nat)
    requires |p| <= 255 && VanishesBelow(p, d) && Weight(p) <= d
    ensures Weight(p) == 0
    decreases d
  {
    hide Mul, Add, Eval, Weight, Twist;
    if Weight(p) > 0 {
      var k := SomeCoefficient(p);
      var e := |p| - 1 - k;
      var q := Twist(p, 0, Root(e));
      TwistWeight(p, 0, e);
      forall j | 0 <= j < d - 1
        ensures Eval(q, Root(j)) == 0
      {
        EvalTwist(p, 0, Root(e), Root(j));
        assert Root(j + 1) == Mul(Root(j), 2);
        MulOne(Root(0));
        MulOne(Root(e));
        AddLaws(0, 0, 0);
      }
      TooManyRoots(q, d - 1);
      assert Eval(p, Root(0)) == 0;
      OneWeight(p);
    }
  }

  // ----- Distances -----

  /** The number of places in which two words differ. */
  function Distance(x: Poly, y: Poly): nat
    requires |x| == |y|
  {
    Weight(Sum(x, y))
  }

  lemma {:induction false} DistanceZero(x: Poly, y: Poly)
    requires |x| == |y|
    ensures Distance(x, y) == 0 <==> x == y
  {
    if x != [] {
      var k := |x| - 1;
      DistanceZero(x[..k], y[..k]);
      assert Sum(x, y)[..k] == Sum(x[..k], y[..k]);
      assert x == x[..k] + [x[k]] && y == y[..k] + [y[k]];
      ByteApart(x[k], y[k]);
    }
  }

  lemma ByteApart(a: byte, b: byte)
    ensures Add(a, b) == 0 <==> a == b
  {}

  lemma {:induction false} Triangle(x: Poly, y: Poly, z: Poly)
    requires |x| == |y| == |z|
    ensures Distance(x, z) <= Distance(x, y) + Distance(y, z)
  {
    if x != [] {
      var k := |x| - 1;
      Triangle(x[..k], y[..k], z[..k]);
      assert Sum(x, y)[..k] == Sum(x[..k], y[..k]);
      assert Sum(y, z)[..k] == Sum(y[..k], z[..k]);
      assert Sum(x, z)[..k] == Sum(x[..k], z[..k]);
      ByteApart(x[k], y[k]);
      ByteApart(y[k], z[k]);
      ByteApart(x[k], z[k]);
    }
  }

  lemma DistanceCommutes(x: Poly, y: Poly)
    requires |x| == |y|
    ensures Distance(x, y) == Distance(y, x)
  {
    assert Sum(x, y) == Sum(y, x);
  }

  /** Data followed by its check bytes. */
  function Word(data: Poly, divisor: Poly): (w: Poly)
    requires divisor != []
    ensures |w| == |data| + |divisor|
  {
    data + Remainder(data, divisor)
  }

  /** Words for different data differ in more places than there are check bytes. */
  lemma WordsApart(data: Poly, other: Poly, divisor: Poly)
    requires divisor != [] && [1] + divisor == Generator(|divisor|)
    requires |data| == |other| && |data| + |divisor| <= 255 && data != other
    ensures Distance(Word(data, divisor), Word(other, divisor)) > |divisor|
  {
    hide Mul, Add, Eval, Weight, Remainder;
    var x, y, d := Word(data, divisor), Word(other, divisor), |divisor|;
    assert x[..|data|] == data && y[..|data|] == other;
    if Distance(x, y) <= d {
      forall j | 0 <= j < d
        ensures Eval(Sum(x, y), Root(j)) == 0
      {
        ValidCodeword(data, d, divisor, j);
        ValidCodeword(other, d, divisor, j);
        EvalSum(x, y, Root(j));
        AddLaws(0, 0, 0);
      }
      TooManyRoots(Sum(x, y), d);
      DistanceZero(x, y);
    }
  }

  /** A received word with at most half as many wrong bytes as check bytes still determines the data. */
  lemma DataDetermined(data: Poly, other: Poly, divisor: Poly, received: Poly)
    requires divisor != [] && [1] + divisor == Generator(|divisor|)
    requires |data| == |other| && |received| == |data| + |divisor| <= 255
    requires 2 * Distance(Word(data, divisor), received) <= |divisor| && 2 * Distance(Word(other, divisor), received) <= |divisor|
    ensures data == other
  {
    hide Distance, Remainder;
    if data != other {
      WordsApart(data, other, divisor);
      DistanceCommutes(Word(other, divisor), received);
      Triangle(Word(data, divisor), received, Word(other, divisor));
    }
  }

  // ----- Whole symbols -----

  /** Block j of the codewords of a symbol. */
  function ReadBlock(l: Layout, received: Poly, j: nat): (b: Poly)
    requires l.Valid() && |received| == l.rawCodewords && j < l.numBlocks
    ensures |b| == l.DataLen(j) + l.eccLen
  {
    ReadData(l, received, j) + ReadEcc(l, received, j)
  }

  /** In every block at most half as many bytes are wrong as there are check bytes. */
  ghost predicate WithinReach(l: Layout, sent: Poly, received: Poly)
    requires l.Valid() && |sent| == |received| == l.rawCodewords
  {
    forall j :: 0 <= j < l.numBlocks ==> 2 * Distance(ReadBlock(l, sent, j), ReadBlock(l, received, j)) <= l.eccLen
  }

  /** No block of any version is longer than the field allows. */
  lemma BlockLength(version: Version, ecl: Ecc, j: nat)
    requires j < LayoutOf(version, ecl).numBlocks
    ensures var l := LayoutOf(version, ecl); l.DataLen(j) + l.eccLen <= 255
  {
    hide LayoutOf;
    var l := LayoutOf(version, ecl);
    assert l.ShortLen() < 255 by { ShortQuotient(l.rawCodewords, l.numBlocks); }
  }

  lemma ShortQuotient(raw: nat, n: nat)
    requires n > 0 && raw < 255 * n
    ensures raw / n < 255
  {}

  lemma {:induction false} BlocksDetermine(l: Layout, data: Poly, other: Poly, n: nat)
    requires l.Valid() && n <= l.numBlocks && |data| == |other| == l.Start(l.numBlocks)
    requires forall j :: 0 <= j < n ==>
      l.Fits(j, |data|) && BlockData(l, data, j) == BlockData(l, other, j)
    ensures l.Start(n) <= |data| && data[..l.Start(n)] == other[..l.Start(n)]
  {
    if n > 0 {
      BlocksDetermine(l, data, other, n - 1);
      assert l.Fits(n - 1, |data|);
      var a, b := l.Start(n - 1), l.Start(n);
      assert data[..b] == data[..a] + BlockData(l, data, n - 1);
      assert other[..b] == other[..a] + BlockData(l, other, n - 1);
    } else {
      assert l.Start(0) == 0;
    }
  }

  lemma BlockDetermined(version: Version, ecl: Ecc, data: Poly, other: Poly, divisor: Poly, sent: Poly, resent: Poly,
                        received: Poly, j: nat)
    requires var l := LayoutOf(version, ecl);
      |divisor| == l.eccLen && [1] + divisor == Generator(l.eccLen) && j < l.numBlocks
      && Encodes(l, data, divisor, sent) && Encodes(l, other, divisor, resent) && |received| == l.rawCodewords
      && WithinReach(l, sent, received) && WithinReach(l, resent, received)
    ensures var l := LayoutOf(version, ecl);
      l.Fits(j, |data|) && l.Fits(j, |other|) && BlockData(l, data, j) == BlockData(l, other, j)
  {
    hide LayoutOf, Encodes, Generator, Distance, BlockData, ReadData, ReadEcc;
    var l := LayoutOf(version, ecl);
    EncodesStart(l, data, divisor, sent, j);
    EncodesStart(l, other, divisor, resent, j);
    BlockRecovered(l, data, divisor, sent, j);
    BlockRecovered(l, other, divisor, resent, j);
    BlockLength(version, ecl, j);
    assert ReadBlock(l, sent, j) == Word(BlockData(l, data, j), divisor);
    assert ReadBlock(l, resent, j) == Word(BlockData(l, other, j), divisor);
    DataDetermined(BlockData(l, data, j), BlockData(l, other, j), divisor, ReadBlock(l, received, j));
  }

  /**
    A symbol of any version and level determines its data even when in every block up to half as many bytes are wrong
    as there are check bytes: no other data has codewords within reach of what was received.
   */
  lemma SymbolDetermined(version: Version, ecl: Ecc, data: Poly, other: Poly, divisor: Poly, sent: Poly, resent: Poly,
                         received: Poly)
    requires |data| == |other| == NumDataCodewords(version, ecl)
    requires var l := LayoutOf(version, ecl);
      |divisor| == l.eccLen && [1] + divisor == Generator(l.eccLen)
      && Encodes(l, data, divisor, sent) && Encodes(l, other, divisor, resent) && |received| == l.rawCodewords
      && WithinReach(l, sent, received) && WithinReach(l, resent, received)
    ensures data == other
  {
    hide LayoutOf, Encodes, Generator, BlockData, WithinReach, NumDataCodewords;
    var l := LayoutOf(version, ecl);
    StartLast(l);
    forall j | 0 <= j < l.numBlocks
      ensures l.Fits(j, |data|) && l.Fits(j, |other|) && BlockData(l, data, j) == BlockData(l, other, j)
    {
      BlockDetermined(version, ecl, data, other, divisor, sent, resent, received, j);
    }
    BlocksDetermine(l, data, other, l.numBlocks);
    assert data[..|data|] == data && other[..|other|] == other;
  }
}

/**
  The Reed-Solomon coder of a QR Code (section 7.5 of ISO/IEC 18004:2015).

  A polynomial is the sequence of its coefficients, highest power first.  The divisor is
  stored without its leading 1, as in the program.
 */
module QrReedSolomon {
  import opened QrByte
  import opened QrGalois
  import opened Wrappers

  type Poly = seq<byte>

  datatype DomainError = DomainError

  // ----- Polynomials -----

  function Zeros(n: nat): Poly {
    seq(n, _ => 0)
  }

  function Sum(p: Poly, q: Poly): Poly
    requires |p| == |q|
  {
    seq(|p|, i requires 0 <= i < |p| => Add(p[i], q[i]))
  }

  function Scaled(p: Poly, c: byte): Poly {
    seq(|p|, i requires 0 <= i < |p| => Mul(p[i], c))
  }

  /** p times (x - r). */
  function TimesLinear(p: Poly, r: byte): Poly {
    Sum(p + [0], [0] + Scaled(p, r))
  }

  /** q times g, one coefficient of q at a time. */
  function Product(q: Poly, g: Poly): (p: Poly)
    requires |g| > 0
    ensures |p| == |q| + |g| - 1
  {
    if q == [] then Zeros(|g| - 1)
    else
      var k := |q| - 1;
      Sum(Product(q[..k], g) + [0], Zeros(k) + Scaled(g, q[k]))
  }

  /** The value of p at a. */
  function Eval(p: Poly, a: byte): byte {
    if p == [] then 0 else Add(Mul(Eval(p[..|p| - 1], a), a), p[|p| - 1])
  }

  /** 2^i in the field. */
  function Root(i: nat): byte {
    if i == 0 then 1 else Mul(Root(i - 1), 2)
  }

  /** (x - 2^0)(x - 2^1)...(x - 2^(n-1)). */
  function Generator(n: nat): (p: Poly)
    ensures |p| == n + 1
  {
    if n == 0 then [1] else TimesLinear(Generator(n - 1), Root(n - 1))
  }

  lemma {:induction false} GeneratorMonic(n: nat)
    ensures Generator(n)[0] == 1
  {
    hide Mul, Add;
    if n > 0 {
      GeneratorMonic(n - 1);
      AddLaws(1, 0, 0);
    }
  }

  // ----- The divisor -----

  /** The last n coefficients of p after n zeros: what the n-byte buffer holds. */
  function Buffer(p: Poly, n: nat): Poly {
    (Zeros(n) + p)[|p|..]
  }

  /** The inner loop: the buffer holds p and is multiplied in place by (x - root). */
  method MultiplyByLinear(result: array<byte>, root: byte, ghost p: Poly)
    requires 0 < |p| && 0 < result.Length && result[..] == Buffer(p, result.Length)
    modifies result
    ensures result[..] == Buffer(TimesLinear(p, root), result.Length)
  {
    hide Mul, Add;
    ghost var before := result[..];
    for j := 0 to result.Length
      invariant forall k :: j <= k < result.Length ==> result[k] == before[k]
      invariant forall k :: 0 <= k < j ==> result[k] == ShiftedTerm(before, root, k)
    {
      result[j] := Multiply(result[j], root);
      if j + 1 < result.Length {
        result[j] := Add(result[j], result[j + 1]);
      }
    }
    BufferTimesLinear(p, result.Length, root, result[..]);
  }

  method ComputeDivisor(degree: int) returns (r: Result<Poly, DomainError>)
    ensures r.Failure? <==> degree < 1 || degree > 255
    ensures r.Success? ==> [1] + r.value == Generator(degree)
  {
    hide Mul, Add;
    if degree < 1 || degree > 255 {
      return Failure(DomainError);
    }
    var result := new byte[degree](_ => 0);
    result[degree - 1] := 1;
    assert result[..] == Buffer(Generator(0), degree);
    var root: byte := 1;
    for i := 0 to degree
      invariant root == Root(i)
      invariant result[..] == Buffer(Generator(i), degree)
    {
      MultiplyByLinear(result, root, Generator(i));
      root := Multiply(root, 2);
    }
    GeneratorMonic(degree);
    r := Success(result[..]);
    assert [1] + r.value == Generator(degree);
  }

  /** Coefficient k of the buffer after multiplication by (x - r). */
  function ShiftedTerm(before: Poly, r: byte, k: nat): byte
    requires k < |before|
  {
    if k + 1 < |before| then Add(Mul(before[k], r), before[k + 1]) else Mul(before[k], r)
  }

  /** Multiplying the buffer in place by (x - r) shifts the product into it. */
  lemma BufferTimesLinear(p: Poly, n: nat, r: byte, after: Poly)
    requires 0 < |p| && 0 < n && |after| == n
    requires forall k :: 0 <= k < n ==> after[k] == ShiftedTerm(Buffer(p, n), r, k)
    ensures after == Buffer(TimesLinear(p, r), n)
  {
    hide Mul, Add;
    var before := Buffer(p, n);
    var q := TimesLinear(p, r);
    MulOne(r);
    AddLaws(0, 0, 0);
    forall k | 0 <= k < n
      ensures after[k] == Buffer(q, n)[k]
    {
      var t := |p| + 1 + k - n;
      AddLaws(Mul(before[k], r), if k + 1 < n then before[k + 1] else 0, 0);
      if t >= 0 {
        assert Buffer(q, n)[k] == q[t] == Add((p + [0])[t], ([0] + Scaled(p, r))[t]);
        assert (p + [0])[t] == if k + 1 < n then before[k + 1] else 0;
        assert ([0] + Scaled(p, r))[t] == Mul(before[k], r);
      }
    }
  }

  // ----- The remainder -----

  lemma AddCancels(x: byte, y: byte)
    requires Add(x, y) == 0
    ensures x == y
  {}

  /** The remainder register and the quotient after dividing data * x^n by [1] + divisor. */
  function Remainder(data: Poly, divisor: Poly): (r: Poly)
    requires |divisor| > 0
    ensures |r| == |divisor|
  {
    if data == [] then Zeros(|divisor|)
    else
      var r := Remainder(data[..|data| - 1], divisor);
      Sum(r[1..] + [0], Scaled(divisor, Add(data[|data| - 1], r[0])))
  }

  function Quotient(data: Poly, divisor: Poly): (q: Poly)
    requires |divisor| > 0
    ensures |q| == |data|
  {
    if data == [] then []
    else
      var prefix := data[..|data| - 1];
      Quotient(prefix, divisor) + [Add(data[|data| - 1], Remainder(prefix, divisor)[0])]
  }

  method ComputeRemainder(data: Poly, divisor: Poly) returns (result: Poly)
    requires |divisor| > 0
    ensures result == Remainder(data, divisor)
  {
    hide Mul, Add;
    result := Zeros(|divisor|);
    for k := 0 to |data|
      invariant result == Remainder(data[..k], divisor)
    {
      assert data[..k + 1][..k] == data[..k];
      var factor := Add(data[k], result[0]);
      result := result[1..];
      result := result + [0];
      ghost var shifted := result;
      for i := 0 to |result|
        invariant |result| == |divisor|
        invariant forall m :: i <= m < |result| ==> result[m] == shifted[m]
        invariant forall m :: 0 <= m < i ==> result[m] == Add(shifted[m], Mul(divisor[m], factor))
      {
        var term := Multiply(divisor[i], factor);
        result := result[i := Add(result[i], term)];
      }
      assert result == Sum(shifted, Scaled(divisor, factor));
    }
    assert data[..|data|] == data;
  }

  /** The division equation: dividend = product + remainder, both aligned at the low end. */
  ghost predicate Divides(dividend: Poly, product: Poly, r: Poly) {
    |dividend| == |product| && |r| <= |product|
    && forall i :: 0 <= i < |dividend| ==>
         dividend[i] == Add(product[i], if i < |product| - |r| then 0 else r[i - (|product| - |r|)])
  }

  /** The loop is polynomial division: data * x^n = quotient * divisor + remainder. */
  lemma {:induction false} Division(data: Poly, divisor: Poly)
    requires |divisor| > 0
    ensures Divides(data + Zeros(|divisor|), Product(Quotient(data, divisor), [1] + divisor), Remainder(data, divisor))
  {
    hide Mul, Add;
    if data == [] {
      AddLaws(0, 0, 0);
    } else {
      var k := |data| - 1;
      var q := Quotient(data[..k], divisor);
      Division(data[..k], divisor);
      DivisionStep(data[..k], data[k], divisor, Product(q, [1] + divisor), Remainder(data[..k], divisor));
      assert Quotient(data, divisor)[..k] == q;
      assert data[..k] + [data[k]] == data;
    }
  }

  /** One byte b more: the quotient gains f, and f times the divisor is taken off. */
  lemma DivisionStep(d: Poly, b: byte, divisor: Poly, p: Poly, r: Poly)
    requires 0 < |divisor| == |r|
    requires Divides(d + Zeros(|r|), p, r)
    ensures var f := Add(b, r[0]);
      Divides(d + [b] + Zeros(|r|), Sum(p + [0], Zeros(|d|) + Scaled([1] + divisor, f)),
              Sum(r[1..] + [0], Scaled(divisor, f)))
  {
    hide Mul, Add;
    var k, f := |d|, Add(b, r[0]);
    var dividend, product := d + [b] + Zeros(|r|), Sum(p + [0], Zeros(k) + Scaled([1] + divisor, f));
    var r' := Sum(r[1..] + [0], Scaled(divisor, f));
    forall i | 0 <= i < |dividend|
      ensures dividend[i] == Add(product[i], if i < k + 1 then 0 else r'[i - k - 1])
    {
      if i < k {
        assert d[i] == (d + Zeros(|r|))[i] == Add(p[i], 0);
        AddLaws(p[i], 0, 0);
      } else if i == k {
        assert 0 == (d + Zeros(|r|))[k] == Add(p[k], r[0]);
        AddCancels(p[k], r[0]);
        assert product[k] == Add(p[k], Mul(1, f));
        LeadTerm(b, r[0]);
      } else {
        var m := i - k - 1;
        var s, t := (r[1..] + [0])[m], Mul(divisor[m], f);
        assert r'[m] == Add(s, t);
        assert (p + [0])[i] == s by {
          if m + 1 < |r| {
            assert 0 == (d + Zeros(|r|))[i] == Add(p[i], r[m + 1]);
            AddCancels(p[i], r[m + 1]);
          }
        }
        assert product[i] == Add(s, t);
        AddLaws(Add(s, t), Add(s, t), 0);
      }
    }
  }

  lemma LeadTerm(b: byte, x: byte)
    ensures b == Add(Add(x, Mul(1, Add(b, x))), 0)
  {
    hide Mul, Add;
    MulOne(Add(b, x));
    AddLaws(x, b, x);
    AddLaws(b, x, x);
    AddLaws(b, 0, 0);
  }

  /** The leading coefficients of a product by a monic g determine the other factor. */
  lemma {:induction false} LeadDetermines(q: Poly, q': Poly, g: Poly)
    requires |g| > 1 && g[0] == 1 && |q| == |q'|
    requires Product(q, g)[..|q|] == Product(q', g)[..|q|]
    ensures q == q'
  {
    hide Mul, Add;
    if q != [] {
      var k := |q| - 1;
      var p, p' := Product(q[..k], g), Product(q'[..k], g);
      forall i | 0 <= i < k
        ensures p[i] == p'[i]
      {
        AddLaws(p[i], 0, 0);
        AddLaws(p'[i], 0, 0);
        assert Product(q, g)[i] == Add(p[i], 0) && Product(q', g)[i] == Add(p'[i], 0);
        assert Product(q, g)[..|q|][i] == Product(q', g)[..|q|][i];
      }
      assert p[..k] == p'[..k];
      LeadDetermines(q[..k], q'[..k], g);
      MulOne(q[k]);
      MulOne(q'[k]);
      assert Add(p[k], q[k]) == Product(q, g)[..|q|][k] == Product(q', g)[..|q|][k] == Add(p[k], q'[k]);
      AddCancelsLeft(p[k], q[k], q'[k]);
      assert q == q[..k] + [q[k]] && q' == q'[..k] + [q'[k]];
    }
  }

  lemma AddCancelsLeft(x: byte, y: byte, z: byte)
    requires Add(x, y) == Add(x, z)
    ensures y == z
  {
    hide Add;
    AddLaws(x, x, y);
    AddLaws(x, x, z);
    AddLaws(y, 0, 0);
    AddLaws(z, 0, 0);
  }

  lemma SameLead(dividend: Poly, p: Poly, p': Poly, r: Poly, r': Poly)
    requires |p| == |p'| && |r| == |r'|
    requires Divides(dividend, p, r) && Divides(dividend, p', r')
    ensures p[..|p| - |r|] == p'[..|p| - |r|]
    ensures p == p' ==> r == r'
  {
    hide Mul, Add;
    var k := |p| - |r|;
    forall i | 0 <= i < k
      ensures p[i] == p'[i]
    {
      AddLaws(p[i], 0, 0);
      AddLaws(p'[i], 0, 0);
    }
    if p == p' {
      forall i | 0 <= i < |r|
        ensures r[i] == r'[i]
      {
        assert Add(p[k + i], r[i]) == dividend[k + i] == Add(p[k + i], r'[i]);
        AddCancelsLeft(p[k + i], r[i], r'[i]);
      }
    }
  }

  /** Quotient and remainder are the only ones: the loop computes the remainder of the standard. */
  lemma DivisionUnique(data: Poly, divisor: Poly, q: Poly, r: Poly)
    requires |divisor| > 0 && |q| == |data| && |r| == |divisor|
    requires Divides(data + Zeros(|divisor|), Product(q, [1] + divisor), r)
    ensures q == Quotient(data, divisor) && r == Remainder(data, divisor)
  {
    hide Mul, Add, Divides;
    var g := [1] + divisor;
    Division(data, divisor);
    SameLead(data + Zeros(|divisor|), Product(q, g), Product(Quotient(data, divisor), g), r, Remainder(data, divisor));
    LeadDetermines(q, Quotient(data, divisor), g);
  }

  // ----- Values of polynomials -----

  lemma {:induction false} EvalSum(p: Poly, q: Poly, a: byte)
    requires |p| == |q|
    ensures Eval(Sum(p, q), a) == Add(Eval(p, a), Eval(q, a))
  {
    hide Mul, Add;
    if p == [] {
      AddLaws(0, 0, 0);
    } else {
      var k := |p| - 1;
      EvalSum(p[..k], q[..k], a);
      assert Sum(p, q)[..k] == Sum(p[..k], q[..k]);
      MulDistributes(Eval(p[..k], a), Eval(q[..k], a), a);
      AddExchange(Mul(Eval(p[..k], a), a), Mul(Eval(q[..k], a), a), p[k], q[k]);
    }
  }

  lemma {:induction false} EvalScaled(p: Poly, c: byte, a: byte)
    ensures Eval(Scaled(p, c), a) == Mul(Eval(p, a), c)
  {
    hide Mul, Add;
    if p == [] {
      MulOne(c);
    } else {
      var k := |p| - 1;
      var v := Eval(p[..k], a);
      EvalScaled(p[..k], c, a);
      assert Scaled(p, c)[..k] == Scaled(p[..k], c);
      MulDistributes(Mul(v, a), p[k], c);
      MulAssociates(v, a, c);
      MulCommutes(a, c);
      MulAssociates(v, c, a);
    }
  }

  lemma EvalShift(p: Poly, a: byte)
    ensures Eval(p + [0], a) == Mul(Eval(p, a), a)
  {
    hide Mul, Add;
    assert (p + [0])[..|p|] == p;
    AddLaws(Mul(Eval(p, a), a), 0, 0);
  }

  lemma {:induction false} EvalPad(n: nat, p: Poly, a: byte)
    ensures Eval(Zeros(n) + p, a) == Eval(p, a)
    decreases n + |p|
  {
    hide Mul, Add;
    MulOne(a);
    AddLaws(0, 0, 0);
    if p != [] {
      EvalPad(n, p[..|p| - 1], a);
      assert (Zeros(n) + p)[..n + |p| - 1] == Zeros(n) + p[..|p| - 1];
    } else if n > 0 {
      EvalPad(n - 1, [], a);
      assert Zeros(n - 1) + [] == Zeros(n - 1) == (Zeros(n) + p)[..n - 1];
    }
  }

  lemma EvalTimesLinear(p: Poly, r: byte, a: byte)
    ensures Eval(TimesLinear(p, r), a) == Mul(Eval(p, a), Add(a, r))
  {
    hide Mul, Add;
    EvalSum(p + [0], [0] + Scaled(p, r), a);
    EvalShift(p, a);
    assert [0] == Zeros(1);
    EvalPad(1, Scaled(p, r), a);
    EvalScaled(p, r, a);
    MulDistributes(a, r, Eval(p, a));
  }

  lemma {:induction false} EvalProduct(q: Poly, g: Poly, a: byte)
    requires |g| > 0
    ensures Eval(Product(q, g), a) == Mul(Eval(q, a), Eval(g, a))
  {
    hide Mul, Add;
    var v := Eval(g, a);
    if q == [] {
      EvalPad(|g| - 1, [], a);
      assert Zeros(|g| - 1) + [] == Zeros(|g| - 1);
      MulOne(v);
    } else {
      var k := |q| - 1;
      var p, u := Product(q[..k], g), Eval(q[..k], a);
      EvalProduct(q[..k], g, a);
      EvalSum(p + [0], Zeros(k) + Scaled(g, q[k]), a);
      EvalShift(p, a);
      EvalPad(k, Scaled(g, q[k]), a);
      EvalScaled(g, q[k], a);
      MulDistributes(Mul(u, a), q[k], v);
      MulCommutes(v, q[k]);
      MulAssociates(u, v, a);
      MulCommutes(v, a);
      MulAssociates(u, a, v);
    }
  }

  // ----- The main results -----

  /** The generator vanishes at 2^0, ..., 2^(n-1). */
  lemma {:induction false} GeneratorVanishes(n: nat, i: nat)
    requires i < n
    ensures Eval(Generator(n), Root(i)) == 0
  {
    hide Mul, Add;
    EvalTimesLinear(Generator(n - 1), Root(n - 1), Root(i));
    if i == n - 1 {
      AddLaws(Root(i), 0, 0);
      MulOne(Eval(Generator(n - 1), Root(i)));
    } else {
      GeneratorVanishes(n - 1, i);
      MulOne(Add(Root(i), Root(n - 1)));
    }
  }

  /** Data followed by its remainder is a multiple of the divisor at every root of the divisor. */
  lemma CodewordVanishes(data: Poly, divisor: Poly, a: byte)
    requires |divisor| > 0 && Eval([1] + divisor, a) == 0
    ensures Eval(data + Remainder(data, divisor), a) == 0
  {
    hide Mul, Add;
    var n, r, g := |divisor|, Remainder(data, divisor), [1] + divisor;
    var p := Product(Quotient(data, divisor), g);
    Division(data, divisor);
    EvalProduct(Quotient(data, divisor), g, a);
    MulOne(Eval(Quotient(data, divisor), a));
    forall i | 0 <= i < |data| + n
      ensures (data + r)[i] == p[i]
    {
      if i < |data| {
        assert data[i] == (data + Zeros(n))[i] == Add(p[i], 0);
        AddLaws(p[i], 0, 0);
      } else {
        assert 0 == (data + Zeros(n))[i] == Add(p[i], r[i - |data|]);
        AddCancels(p[i], r[i - |data|]);
      }
    }
    assert data + r == p;
  }

  /** Every block is a codeword: the check bytes computed for it make it zero at 2^0, ..., 2^(degree-1). */
  lemma ValidCodeword(data: Poly, degree: nat, divisor: Poly, i: nat)
    requires 1 <= degree && [1] + divisor == Generator(degree) && i < degree
    ensures Eval(data + Remainder(data, divisor), Root(i)) == 0
  {
    hide Mul, Add;
    GeneratorVanishes(degree, i);
    CodewordVanishes(data, divisor, Root(i));
  }
}

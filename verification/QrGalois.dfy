/**
  The field GF(2^8) with modulus x^8 + x^4 + x^3 + x^2 + 1 (0x11D), in which the
  Reed-Solomon coder of a QR Code computes.

  Multiply is the bit loop. Its specification Mul is shown to be the product of a
  commutative ring with identity 1 in which 2 acts as "shift and reduce by 0x11D";
  these laws are all that the polynomial reasoning in QrReedSolomon uses.
 */
module QrGalois {
  import opened QrByte

  /** Addition, which is also subtraction. */
  function Add(x: byte, y: byte): byte {
    x ^ y
  }

  /** x times the field element 2: shift, then reduce by 0x11D when the top bit falls out. */
  function Double(x: byte): byte {
    (x << 1) ^ ((x >> 7) * 0x1D)
  }

  /** x when y is odd, else 0. */
  function Pick(y: byte, x: byte): byte {
    if y & 1 == 1 then x else 0
  }

  /** The sum of x * 2^k over the bits k < n that are set in y. */
  function Horner(x: byte, y: byte, n: nat): byte {
    if n == 0 then 0 else Add(Double(Horner(x, y >> 1, n - 1)), Pick(y, x))
  }

  function Mul(x: byte, y: byte): byte {
    Horner(x, y, 8)
  }

  // ----- The bit loop -----

  /** The shift and reduction on the wide accumulator. */
  function Reduce(z: bv16): bv16 {
    (z << 1) ^ ((z >> 7) * 0x11D)
  }

  /** y shifted down by i. */
  function Above(y: byte, i: nat): byte
    requires i <= 8
  {
    y >> i
  }

  method Multiply(x: byte, y: byte) returns (r: byte)
    ensures r == Mul(x, y)
  {
    hide *;
    var z: bv16 := 0;
    var i: nat := 8;
    Start(x, y);
    while i > 0
      invariant i <= 8
      invariant z == Horner(x, Above(y, i), 8 - i) as bv16
    {
      i := i - 1;
      Round(x, y, i, z);
      z := Reduce(z);
      z := z ^ Pick(Above(y, i), x) as bv16;
    }
    r := z as byte;
  }

  lemma Start(x: byte, y: byte)
    ensures Horner(x, Above(y, 8), 0) == 0
    ensures Horner(x, Above(y, 0), 8) == Mul(x, y)
  {
    assert y >> 0 == y;
  }

  lemma Round(x: byte, y: byte, i: nat, z: bv16)
    requires i < 8 && z == Horner(x, Above(y, i + 1), 7 - i) as bv16
    ensures Reduce(z) ^ Pick(Above(y, i), x) as bv16 == Horner(x, Above(y, i), 8 - i) as bv16
  {
    hide *;
    HornerStep(x, y, i);
    WideStep(Horner(x, Above(y, i + 1), 7 - i), Above(y, i), x);
  }

  lemma HornerStep(x: byte, y: byte, i: nat)
    requires i < 8
    ensures Horner(x, Above(y, i), 8 - i)
         == Add(Double(Horner(x, Above(y, i + 1), 7 - i)), Pick(Above(y, i), x))
  {
    hide Add, Double, Pick, Above;
    ShiftAgain(y, i);
  }

  lemma ShiftAgain(y: byte, i: nat)
    requires i < 8
    ensures Above(y, i) >> 1 == Above(y, i + 1)
  {
    assert i == 0 || i == 1 || i == 2 || i == 3 || i == 4 || i == 5 || i == 6 || i == 7;
  }

  /** One round on the 16-bit accumulator is one round on bytes: the high half stays 0. */
  lemma WideStep(h: byte, b: byte, x: byte)
    ensures Reduce(h as bv16) ^ Pick(b, x) as bv16
         == Add(Double(h), Pick(b, x)) as bv16
  {
    WideDouble(h);
    WideAdd(Double(h), Pick(b, x));
  }

  lemma WideDouble(h: byte)
    ensures Reduce(h as bv16) == Double(h) as bv16
  {}

  lemma WideAdd(x: byte, y: byte)
    ensures x as bv16 ^ y as bv16 == Add(x, y) as bv16
  {}

  lemma Bit(b: byte)
    ensures b & 1 == 0 || b & 1 == 1
  {}

  // ----- Addition -----

  lemma AddLaws(x: byte, y: byte, z: byte)
    ensures Add(Add(x, y), z) == Add(x, Add(y, z))
    ensures Add(x, y) == Add(y, x)
    ensures Add(x, 0) == x == Add(0, x)
    ensures Add(x, x) == 0
  {}

  lemma AddExchange(a: byte, b: byte, c: byte, d: byte)
    ensures Add(Add(a, b), Add(c, d)) == Add(Add(a, c), Add(b, d))
  {
    hide Add;
    AddLaws(a, b, Add(c, d));
    AddLaws(b, c, d);
    AddLaws(c, b, d);
    AddLaws(a, c, Add(b, d));
  }

  lemma DoubleAdd(x: byte, y: byte)
    ensures Double(Add(x, y)) == Add(Double(x), Double(y))
  {}

  lemma PickAdd(y: byte, x: byte, u: byte)
    ensures Pick(y, Add(x, u)) == Add(Pick(y, x), Pick(y, u))
    ensures Pick(Add(x, u), y) == Add(Pick(x, y), Pick(u, y))
  {
    Bit(y);
    Bit(x);
    Bit(u);
    assert (x ^ u) & 1 == (x & 1) ^ (u & 1);
  }

  lemma PickDouble(y: byte, x: byte)
    ensures Double(Pick(y, x)) == Pick(y, Double(x))
  {
    Bit(y);
  }

  lemma ShiftAdd(x: byte, y: byte)
    ensures Add(x, y) >> 1 == Add(x >> 1, y >> 1)
  {}

  // ----- The product is linear on both sides -----

  lemma {:induction false} HornerAddLeft(x: byte, u: byte, y: byte, n: nat)
    ensures Horner(Add(x, u), y, n) == Add(Horner(x, y, n), Horner(u, y, n))
  {
    hide Add, Double, Pick;
    if n == 0 {
      AddLaws(0, 0, 0);
    } else {
      var h, k := Horner(x, y >> 1, n - 1), Horner(u, y >> 1, n - 1);
      HornerAddLeft(x, u, y >> 1, n - 1);
      DoubleAdd(h, k);
      PickAdd(y, x, u);
      AddExchange(Double(h), Double(k), Pick(y, x), Pick(y, u));
    }
  }

  lemma {:induction false} HornerAddRight(x: byte, y: byte, v: byte, n: nat)
    ensures Horner(x, Add(y, v), n) == Add(Horner(x, y, n), Horner(x, v, n))
  {
    hide Add, Double, Pick;
    if n == 0 {
      AddLaws(0, 0, 0);
    } else {
      var h, k := Horner(x, y >> 1, n - 1), Horner(x, v >> 1, n - 1);
      ShiftAdd(y, v);
      HornerAddRight(x, y >> 1, v >> 1, n - 1);
      DoubleAdd(h, k);
      PickAdd(x, y, v);
      AddExchange(Double(h), Double(k), Pick(y, x), Pick(v, x));
    }
  }

  lemma {:induction false} HornerDouble(x: byte, y: byte, n: nat)
    ensures Horner(Double(x), y, n) == Double(Horner(x, y, n))
  {
    hide Add, Double, Pick;
    if n == 0 {
      DoubleZero();
    } else {
      var h := Horner(x, y >> 1, n - 1);
      HornerDouble(x, y >> 1, n - 1);
      DoubleAdd(Double(h), Pick(y, x));
      PickDouble(y, x);
    }
  }

  lemma DoubleZero()
    ensures Double(0) == 0
  {}

  lemma PickZero(y: byte)
    ensures Pick(y, 0) == 0
  {}

  lemma {:induction false} HornerZero(y: byte, n: nat)
    ensures Horner(0, y, n) == 0
  {
    hide Add, Double, Pick;
    if n > 0 {
      HornerZero(y >> 1, n - 1);
      DoubleZero();
      PickZero(y);
      AddLaws(0, 0, 0);
    }
  }

  /** Reading y bit by bit gives y back. */
  lemma {:induction false} HornerOne(y: byte, k: nat)
    requires k <= 8 && y >> k == 0
    ensures Horner(1, y, k) == y
    decreases k
  {
    hide Add, Double, Pick;
    if k == 0 {
      assert y >> 0 == y;
    } else {
      HalfSmaller(y, k);
      HornerOne(y >> 1, k - 1);
    }
  }

  lemma HalfSmaller(y: byte, k: nat)
    requires 0 < k <= 8 && y >> k == 0
    ensures (y >> 1) >> (k - 1) == 0
    ensures Add(Double(y >> 1), Pick(y, 1)) == y
  {
    assert (y >> 1) >> 7 == 0;
    assert ((y >> 1) << 1) ^ ((y & 1) * 1) == y;
  }

  /** Multiplying by z commutes with reading off the bits of y. */
  lemma {:induction false} HornerMul(x: byte, y: byte, n: nat, z: byte)
    ensures Mul(Horner(x, y, n), z) == Horner(Mul(x, z), y, n)
  {
    hide Add, Double, Pick;
    if n == 0 {
      HornerZero(z, 8);
    } else {
      var h := Horner(x, y >> 1, n - 1);
      HornerMul(x, y >> 1, n - 1, z);
      HornerAddLeft(Double(h), Pick(y, x), z, 8);
      HornerDouble(h, z, 8);
      PickMul(y, x, z);
    }
  }

  lemma PickMul(y: byte, x: byte, z: byte)
    ensures Mul(Pick(y, x), z) == Pick(y, Mul(x, z))
  {
    hide Mul;
    Bit(y);
    ZeroMul(z);
  }

  lemma ZeroMul(z: byte)
    ensures Mul(0, z) == 0
  {
    HornerZero(z, 8);
  }

  // ----- The ring laws -----

  lemma MulOne(x: byte)
    ensures Mul(1, x) == x == Mul(x, 1)
    ensures Mul(2, x) == Double(x) == Mul(x, 2)
    ensures Mul(0, x) == 0 == Mul(x, 0)
  {
    hide Add, Double, Pick;
    Small();
    ByteBits(x);
    HornerOne(x, 8);
    MulCommutes(1, x);
    HornerDouble(1, x, 8);
    MulCommutes(2, x);
    HornerZero(x, 8);
    MulCommutes(0, x);
  }

  /** Twice a byte is the byte shifted, less the modulus if the top bit falls out: x^8 is x^4 + x^3 + x^2 + 1. */
  lemma Twice(x: byte)
    ensures x < 128 ==> Mul(2, x) == x + x
    ensures x >= 128 ==> Mul(2, x) == (x - 128 + (x - 128)) ^ 29
  {
    hide Horner;
    MulOne(x);
    DoubleCases(x);
  }

  lemma DoubleCases(x: byte)
    ensures x < 128 ==> Double(x) == x + x
    ensures x >= 128 ==> Double(x) == (x - 128 + (x - 128)) ^ 29
  {}

  lemma Small()
    ensures Double(1) == 2
  {}

  lemma ByteBits(x: byte)
    ensures x >> 8 == 0
  {}

  lemma MulCommutes(x: byte, y: byte)
    ensures Mul(x, y) == Mul(y, x)
  {
    hide Add, Double, Pick;
    ByteBits(x);
    ByteBits(y);
    HornerOne(x, 8);
    HornerOne(y, 8);
    HornerMul(1, x, 8, y);
  }

  lemma MulAssociates(x: byte, y: byte, z: byte)
    ensures Mul(Mul(x, y), z) == Mul(x, Mul(y, z))
  {
    hide Add, Double, Pick;
    HornerMul(y, x, 8, z);
    MulCommutes(x, y);
    MulCommutes(x, Mul(y, z));
  }

  lemma MulDistributes(x: byte, y: byte, z: byte)
    ensures Mul(Add(x, y), z) == Add(Mul(x, z), Mul(y, z))
    ensures Mul(z, Add(x, y)) == Add(Mul(z, x), Mul(z, y))
  {
    hide Add, Double, Pick;
    HornerAddLeft(x, y, z, 8);
    HornerAddRight(z, x, y, 8);
  }
}

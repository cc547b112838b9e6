/** Format information: the 15 bits that tell level and mask, and the cells that carry them. */
module QrFormat {
  datatype Ecc = LOW | MEDIUM | QUARTILE | HIGH

  type Mask = m: nat | m <= 7

  function EccBits(ecl: Ecc): nat {
    match ecl
    case LOW => 1
    case MEDIUM => 0
    case QUARTILE => 3
    case HIGH => 2
  }

  /** The five data bits. */
  function FormatData(ecl: Ecc, mask: Mask): bv16 {
    (EccBits(ecl) as bv16 << 3) | mask as bv16
  }

  function FormatStep(rem: bv16): bv16 {
    (rem << 1) ^ ((rem >> 9) * 0x537)
  }

  /** Data and check bits, masked as the standard asks. */
  function FormatWord(data: bv16, rem: bv16): bv16 {
    ((data << 10) | rem) ^ 0x5412
  }

  /** The remainder register of the (15, 5) code after n steps. */
  function FormatRemainder(data: bv16, n: nat): bv16 {
    if n == 0 then data else FormatStep(FormatRemainder(data, n - 1))
  }

  function FormatBits(ecl: Ecc, mask: Mask): bv16 {
    var data := FormatData(ecl, mask);
    FormatWord(data, FormatRemainder(data, 10))
  }

  method ComputeFormatBits(ecl: Ecc, mask: Mask) returns (bits: bv16)
    ensures bits == FormatBits(ecl, mask) && bits >> 15 == 0
  {
    hide FormatStep, FormatWord, FormatData;
    var data := FormatData(ecl, mask);
    var rem := data;
    for i := 0 to 10
      invariant rem == FormatRemainder(data, i)
    {
      rem := FormatStep(rem);
    }
    bits := FormatWord(data, rem);
    FormatRoundTrip(ecl, mask);
  }

  lemma {:induction false} RemainderSmall(data: bv16, n: nat)
    requires data < 32
    ensures FormatRemainder(data, n) < 1024
  {
    if n > 0 {
      RemainderSmall(data, n - 1);
      RemainderStep(FormatRemainder(data, n - 1));
    }
  }

  lemma RemainderStep(rem: bv16)
    requires rem < 1024
    ensures FormatStep(rem) < 1024
  {
    assert rem >> 9 == 0 || rem >> 9 == 1;
  }

  /** A reader of the format bits finds the level and the mask. */
  lemma FormatRoundTrip(ecl: Ecc, mask: Mask)
    ensures (FormatBits(ecl, mask) ^ 0x5412) >> 10 == FormatData(ecl, mask)
    ensures FormatData(ecl, mask) & 7 == mask as bv16 && FormatData(ecl, mask) >> 3 == EccBits(ecl) as bv16
    ensures FormatBits(ecl, mask) >> 15 == 0
  {
    hide FormatRemainder;
    var data := FormatData(ecl, mask);
    DataFields(ecl, mask);
    RemainderSmall(data, 10);
    Fields(data, FormatRemainder(data, 10));
  }

  lemma DataFields(ecl: Ecc, mask: Mask)
    ensures FormatData(ecl, mask) < 32
    ensures FormatData(ecl, mask) & 7 == mask as bv16 && FormatData(ecl, mask) >> 3 == EccBits(ecl) as bv16
  {
    assert mask == 0 || mask == 1 || mask == 2 || mask == 3 || mask == 4 || mask == 5 || mask == 6 || mask == 7;
  }

  lemma Fields(data: bv16, rem: bv16)
    requires data < 32 && rem < 1024
    ensures (FormatWord(data, rem) ^ 0x5412) >> 10 == data
    ensures FormatWord(data, rem) >> 15 == 0
  {}

  // ----- The cells -----

  predicate FormatBit(bits: bv16, i: nat)
    requires i < 15
  {
    (bits >> i) & 1 != 0
  }

  /**
    The format cells in the order in which they are drawn: bit i of the first copy is number i,
    bit i of the second copy number 15 + i, and the module that is always dark is number 30.
    Other cells have number -1.
   */
  function FormatIndex(size: int, x: int, y: int): int {
    if x == 8 && 0 <= y <= 5 then y
    else if x == 8 && y == 7 then 6
    else if x == 8 && y == 8 then 7
    else if x == 7 && y == 8 then 8
    else if y == 8 && 0 <= x <= 5 then 14 - x
    else if y == 8 && size - 8 <= x < size then 15 + (size - 1 - x)
    else if x == 8 && size - 7 <= y < size then 15 + (y - size + 15)
    else if x == 8 && y == size - 8 then 30
    else -1
  }

  function FormatModule(bits: bv16, k: nat): bool
    requires k <= 30
  {
    if k < 15 then FormatBit(bits, k) else if k < 30 then FormatBit(bits, k - 15) else true
  }

  /** A module after the first k format cells have been drawn. */
  function FormatDrawn(size: int, bits: bv16, k: int, x: int, y: int, was: bool): bool {
    var i := FormatIndex(size, x, y);
    if 0 <= i < k && i <= 30 then FormatModule(bits, i) else was
  }
}

/**
  Segments and their bits (section 7.4 of ISO/IEC 18004:2015): numeric, alphanumeric and byte mode,
  and a reader that is independent of the encoder.
 */
module QrSegments {
  import opened QrBits
  import opened QrByte
  import opened Wrappers

  const INT_MAX: nat := 0x7FFF_FFFF

  datatype Mode = NUMERIC | ALPHANUMERIC | BYTE {
    function ModeBits(): nat {
      match this
      case NUMERIC => 1
      case ALPHANUMERIC => 2
      case BYTE => 4
    }

    function NumCharCountBits(version: nat): (n: nat)
      requires 1 <= version <= 40
      ensures 8 <= n <= 16
    {
      var i := (version + 7) / 17;
      match this
      case NUMERIC => if i == 0 then 10 else if i == 1 then 12 else 14
      case ALPHANUMERIC => if i == 0 then 9 else if i == 1 then 11 else 13
      case BYTE => if i == 0 then 8 else 16
    }
  }

  datatype QrSegment = QrSegment(mode: Mode, numChars: nat, data: seq<bool>)

  datatype SegmentError = NonNumeric | Unencodable | TooLong

  // ----- Numbers as bits -----

  function Pow2(n: nat): (p: nat)
    ensures p > 0
  {
    if n == 0 then 1 else 2 * Pow2(n - 1)
  }

  /** The low n bits of v, most significant first. */
  function ToBits(v: nat, n: nat): (bits: seq<bool>)
    ensures |bits| == n
  {
    if n == 0 then [] else ToBits(v / 2, n - 1) + [v % 2 == 1]
  }

  function FromBits(bits: seq<bool>): nat {
    if bits == [] then 0
    else 2 * FromBits(bits[..|bits| - 1]) + (if bits[|bits| - 1] then 1 else 0)
  }

  lemma {:induction false} BitsRoundTrip(v: nat, n: nat)
    requires v < Pow2(n)
    ensures FromBits(ToBits(v, n)) == v
  {
    if n > 0 {
      BitsRoundTrip(v / 2, n - 1);
      assert ToBits(v, n)[..n - 1] == ToBits(v / 2, n - 1);
    }
  }

  /** v shifted right by n. */
  function Shr(v: nat, n: nat): nat {
    if n == 0 then v else Shr(v / 2, n - 1)
  }

  lemma {:induction false} ShrZero(v: nat, n: nat)
    ensures Shr(v, n) == 0 <==> v < Pow2(n)
  {
    if n > 0 {
      ShrZero(v / 2, n - 1);
    }
  }

  /** Bit k of v counted from the top. */
  lemma {:induction false} ToBitsAt(v: nat, n: nat, k: nat)
    requires k < n
    ensures ToBits(v, n)[k] == (Shr(v, n - 1 - k) % 2 == 1)
  {
    if k < n - 1 {
      ToBitsAt(v / 2, n - 1, k);
    }
  }

  // ----- The bit buffer -----

  datatype DomainError = ValueOutOfRange

  class BitBuffer {
    var bits: seq<bool>

    constructor ()
      ensures bits == []
    {
      bits := [];
    }

    method AppendBits(val: nat, len: int) returns (r: Result<(), DomainError>)
      modifies this
      ensures r.Success? <==> 0 <= len <= 31 && val < Pow2(len)
      ensures bits == if r.Success? then old(bits) + ToBits(val, len) else old(bits)
    {
      hide Pow2, Shr;
      if 0 <= len {
        ShrZero(val, len);
      }
      if len < 0 || len > 31 || Shr(val, len) != 0 {
        return Failure(ValueOutOfRange);
      }
      var i := len - 1;
      while i >= 0
        invariant -1 <= i < len
        invariant bits == old(bits) + ToBits(val, len)[..len - 1 - i]
      {
        ToBitsAt(val, len, len - 1 - i);
        bits := bits + [Shr(val, i) % 2 == 1];
        i := i - 1;
      }
      r := Success(());
    }
  }

  // ----- Payloads -----

  predicate IsDigit(c: char) {
    '0' <= c <= '9'
  }

  predicate AllDigits(text: string) {
    forall i :: 0 <= i < |text| ==> IsDigit(text[i])
  }

  /** The value of a digit string. */
  function DigitsValue(text: string): (v: nat) {
    if text == "" then 0
    else DigitsValue(text[..|text| - 1]) * 10 + DigitValue(text[|text| - 1])
  }

  function DigitValue(c: char): nat {
    if IsDigit(c) then c as int - '0' as int else 0
  }

  /** Three digits in ten bits; two left over in seven bits, one in four. */
  function NumericBits(text: string): seq<bool> {
    if text == "" then []
    else if |text| < 3 then ToBits(DigitsValue(text), |text| * 3 + 1)
    else ToBits(DigitsValue(text[..3]), 10) + NumericBits(text[3..])
  }

  method MakeNumeric(digits: string) returns (r: Result<QrSegment, SegmentError>)
    requires '\0' !in digits
    ensures r.Success? <==> AllDigits(digits)
    ensures r.Success? ==> r.value == QrSegment(NUMERIC, |digits|, NumericBits(digits))
  {
    hide *;
    var bb := new BitBuffer();
    var accumData, accumCount := 0, 0;
    var charCount := 0;
    ghost var pending, rest := "", digits;
    assert pending + rest == digits;
    NumericEnd(pending);
    while charCount < |digits|
      invariant 0 <= charCount <= |digits| && rest == digits[charCount..]
      invariant accumCount == |pending| < 3 && AllDigits(pending) && accumData == DigitsValue(pending)
      invariant AllDigits(digits[..charCount])
      invariant NumericBits(digits) == bb.bits + NumericBits(pending + rest)
    {
      var c := digits[charCount];
      DigitsSplit(digits, charCount);
      if c < '0' || c > '9' {
        return Failure(NonNumeric);
      }
      DigitAppend(pending, c);
      assert pending + rest == pending + [c] + rest[1..];
      pending, rest := pending + [c], rest[1..];
      accumData := accumData * 10 + (c as int - '0' as int);
      accumCount := accumCount + 1;
      charCount := charCount + 1;
      if accumCount == 3 {
        var appended := AppendGroup(bb, accumData, 10, pending);
        NumericGroup(pending, rest);
        pending := "";
        assert pending + rest == rest;
        accumData := 0;
        accumCount := 0;
      }
    }
    assert pending + rest == pending;
    assert digits[..|digits|] == digits;
    NumericEnd(pending);
    if accumCount > 0 {
      var appended := AppendGroup(bb, accumData, accumCount * 3 + 1, pending);
    }
    r := Success(QrSegment(NUMERIC, charCount, bb.bits));
  }

  lemma NumericGroup(group: string, rest: string)
    requires |group| == 3
    ensures NumericBits(group + rest) == ToBits(DigitsValue(group), 10) + NumericBits(rest)
  {
    assert (group + rest)[..3] == group && (group + rest)[3..] == rest;
  }

  lemma NumericEnd(rest: string)
    requires |rest| < 3 && (rest != "" ==> AllDigits(rest))
    ensures AllDigits("") && NumericBits("") == [] && DigitsValue("") == 0
    ensures rest != "" ==> NumericBits(rest) == ToBits(DigitsValue(rest), |rest| * 3 + 1)
  {}

  lemma DigitsSplit(digits: string, i: nat)
    requires i < |digits|
    ensures !('0' <= digits[i] <= '9') ==> !AllDigits(digits)
    ensures '0' <= digits[i] <= '9' ==> IsDigit(digits[i]) && (AllDigits(digits[..i]) ==> AllDigits(digits[..i + 1]))
  {}

  lemma DigitAppend(text: string, c: char)
    requires AllDigits(text) && IsDigit(c)
    ensures AllDigits(text + [c]) && DigitsValue(text + [c]) == DigitsValue(text) * 10 + (c as int - '0' as int)
  {
    assert (text + [c])[..|text|] == text;
  }

  lemma {:induction false} DigitsBound(text: string)
    requires AllDigits(text) && |text| <= 3
    ensures DigitsValue(text) < Pow2(if |text| == 3 then 10 else |text| * 3 + 1)
    ensures DigitsValue(text) < if |text| == 0 then 1 else if |text| == 1 then 10 else if |text| == 2 then 100 else 1000
  {
    assert Pow2(1) == 2 && Pow2(4) == 16 && Pow2(7) == 128 && Pow2(10) == 1024;
    if text != "" {
      DigitsBound(text[..|text| - 1]);
    }
  }

  /** A group of at most three digits always fits its field. */
  method AppendGroup(bb: BitBuffer, val: nat, len: nat, ghost group: string) returns (r: Result<(), DomainError>)
    requires AllDigits(group) && |group| <= 3 && val == DigitsValue(group)
    requires len == if |group| == 3 then 10 else |group| * 3 + 1
    modifies bb
    ensures r.Success? && bb.bits == old(bb.bits) + ToBits(val, len)
  {
    DigitsBound(group);
    r := bb.AppendBits(val, len);
  }

  const CHARSET := "0123456789ABCDEFGHIJKLMNOPQRSTUVWXYZ $%*+-./:"

  /** The index of c in the character set, or its length when c is not in it. */
  function CharIndexFrom(c: char, i: nat): (k: nat)
    requires i <= |CHARSET|
    ensures i <= k <= |CHARSET|
    ensures k < |CHARSET| ==> CHARSET[k] == c
    ensures k == |CHARSET| ==> c !in CHARSET[i..]
    decreases |CHARSET| - i
  {
    if i == |CHARSET| || CHARSET[i] == c then i else CharIndexFrom(c, i + 1)
  }

  function CharIndex(c: char): nat {
    CharIndexFrom(c, 0)
  }

  predicate Encodable(c: char) {
    c in CHARSET
  }

  predicate AllEncodable(text: string) {
    forall i :: 0 <= i < |text| ==> Encodable(text[i])
  }

  /** Two characters in eleven bits, one left over in six. */
  function AlphanumericBits(text: string): seq<bool> {
    if text == "" then []
    else if |text| == 1 then ToBits(CharIndex(text[0]), 6)
    else ToBits(CharIndex(text[0]) * 45 + CharIndex(text[1]), 11) + AlphanumericBits(text[2..])
  }

  lemma CharsetSize()
    ensures |CHARSET| == 45
  {}

  lemma CharIndexBound(c: char)
    ensures CharIndex(c) <= 45 && (CharIndex(c) < 45 <==> Encodable(c))
    ensures Encodable(c) ==> CharIndex(c) < |CHARSET| && CHARSET[CharIndex(c)] == c
  {
    CharsetSize();
    assert CHARSET[0..] == CHARSET;
  }

  method MakeAlphanumeric(text: string) returns (r: Result<QrSegment, SegmentError>)
    requires '\0' !in text
    ensures r.Success? <==> AllEncodable(text)
    ensures r.Success? ==> r.value == QrSegment(ALPHANUMERIC, |text|, AlphanumericBits(text))
  {
    hide *;
    var bb := new BitBuffer();
    var accumData, accumCount := 0, 0;
    var charCount := 0;
    ghost var pending, rest := "", text;
    NoText();
    assert pending + rest == text;
    while charCount < |text|
      invariant 0 <= charCount <= |text| && rest == text[charCount..]
      invariant accumCount == |pending| < 2 && AllEncodable(pending)
      invariant accumData == if pending == "" then 0 else CharIndex(pending[0])
      invariant AllEncodable(text[..charCount])
      invariant AlphanumericBits(text) == bb.bits + AlphanumericBits(pending + rest)
    {
      var c := text[charCount];
      var temp := CharIndex(c);
      CharIndexBound(c);
      EncodableSplit(text, charCount);
      EncodableAppend(pending, c);
      if temp == 45 {
        return Failure(Unencodable);
      }
      assert pending + rest == pending + [c] + rest[1..];
      pending, rest := pending + [c], rest[1..];
      accumData := accumData * 45 + temp;
      accumCount := accumCount + 1;
      charCount := charCount + 1;
      if accumCount == 2 {
        AlphanumericPair(pending[0], c, rest);
        assert pending == [pending[0], c];
        var appended := bb.AppendBits(accumData, 11);
        pending := "";
        assert pending + rest == rest;
        accumData := 0;
        accumCount := 0;
      }
    }
    assert pending + rest == pending;
    assert text[..|text|] == text;
    AlphanumericEnd(pending);
    if accumCount > 0 {
      var appended := bb.AppendBits(accumData, 6);
    }
    r := Success(QrSegment(ALPHANUMERIC, charCount, bb.bits));
  }

  lemma EncodableSplit(text: string, i: nat)
    requires i < |text|
    ensures !Encodable(text[i]) ==> !AllEncodable(text)
    ensures Encodable(text[i]) && AllEncodable(text[..i]) ==> AllEncodable(text[..i + 1])
  {}

  lemma NoText()
    ensures AllEncodable("") && AlphanumericBits("") == []
  {}

  lemma EncodableAppend(text: string, c: char)
    requires AllEncodable(text)
    ensures Encodable(c) ==> AllEncodable(text + [c])
  {}

  lemma AlphanumericPair(c: char, d: char, rest: string)
    requires Encodable(c) && Encodable(d)
    ensures CharIndex(c) * 45 + CharIndex(d) < Pow2(11)
    ensures AlphanumericBits([c, d] + rest) == ToBits(CharIndex(c) * 45 + CharIndex(d), 11) + AlphanumericBits(rest)
  {
    hide Encodable, CharIndex, Pow2, ToBits;
    CharIndexBound(c);
    CharIndexBound(d);
    Powers();
    assert ([c, d] + rest)[2..] == rest;
  }

  lemma AlphanumericEnd(rest: string)
    requires |rest| < 2 && AllEncodable(rest)
    ensures |rest| == 1 ==> CharIndex(rest[0]) < Pow2(6) && AlphanumericBits(rest) == ToBits(CharIndex(rest[0]), 6)
  {
    hide Encodable, CharIndex;
    if |rest| == 1 {
      CharIndexBound(rest[0]);
    }
    Powers();
  }

  lemma Powers()
    ensures Pow2(4) == 16 && Pow2(6) == 64 && Pow2(8) == 256 && Pow2(11) == 2048
  {
    assert Pow2(4) == 16;
    assert Pow2(8) == 16 * Pow2(4);
  }

  /** Eight bits for each byte. */
  method MakeBytes(data: seq<byte>) returns (r: Result<QrSegment, SegmentError>)
    ensures r.Success? <==> |data| <= INT_MAX
    ensures r.Success? ==> r.value == QrSegment(BYTE, |data|, BitsOf(data))
  {
    hide BitsOf;
    if |data| > INT_MAX {
      return Failure(TooLong);
    }
    var bb := new BitBuffer();
    Powers();
    NoBits();
    for i := 0 to |data|
      invariant bb.bits == BitsOf(data[..i])
    {
      var appended := bb.AppendBits(data[i] as nat, 8);
      BitsOfAppend(data[..i], data[i]);
      assert data[..i + 1] == data[..i] + [data[i]];
    }
    assert data[..|data|] == data;
    r := Success(QrSegment(BYTE, |data|, bb.bits));
  }

  lemma NoBits()
    ensures BitsOf([]) == []
  {}

  lemma BitsOfAppend(data: seq<byte>, b: byte)
    ensures BitsOf(data + [b]) == BitsOf(data) + ToBits(b as nat, 8)
  {
    hide Bit, ToBits;
    var bits := BitsOf(data + [b]);
    forall i | 0 <= i < |bits|
      ensures bits[i] == (BitsOf(data) + ToBits(b as nat, 8))[i]
    {
      if i >= 8 * |data| {
        ByteBit(b, i - 8 * |data|);
      }
    }
  }

  lemma ByteBit(b: byte, k: nat)
    requires k < 8
    ensures ToBits(b as nat, 8)[k] == Bit(b, 7 - k)
  {
    ToBitsAt(b as nat, 8, k);
    ShrBits(b, 7 - k);
  }

  lemma {:induction false} ShrBits(b: byte, n: nat)
    requires n < 8
    ensures Shr(b as nat, n) % 2 == 1 <==> Bit(b, n)
  {
    if n == 0 {
      LowBit(b);
    } else {
      HalfByte(b);
      ShrBits(b >> 1, n - 1);
      BitShift(b, n);
    }
  }

  lemma LowBit(b: byte)
    ensures b as nat % 2 == 1 <==> Bit(b, 0)
  {
    assert b >> 0 == b;
    assert b as nat % 2 == (b & 1) as nat;
  }

  lemma HalfByte(b: byte)
    ensures (b as nat) / 2 == (b >> 1) as nat
  {}

  lemma BitShift(b: byte, n: nat)
    requires 0 < n < 8
    ensures Bit(b >> 1, n - 1) == Bit(b, n)
  {
    assert n == 1 || n == 2 || n == 3 || n == 4 || n == 5 || n == 6 || n == 7;
  }
}

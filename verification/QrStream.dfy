/**
  The bit stream of a symbol: choice of the version, concatenation of the segments, terminator and
  padding (section 7.4 of ISO/IEC 18004:2015), and a reader that recovers the contents.
 */
module QrStream {
  import opened QrBits
  import opened QrByte
  import opened QrFormat
  import opened QrSegments
  import opened QrVersions
  import opened Wrappers

  // ----- Length -----

  /** The length of the stream before the terminator; -1 when a count does not fit its field or the sum overflows. */
  function TotalBits(segs: seq<QrSegment>, version: Version): (n: int)
    ensures n >= -1
  {
    if segs == [] then 0
    else
      var k := |segs| - 1;
      var sum := TotalBits(segs[..k], version);
      var ccbits := segs[k].mode.NumCharCountBits(version);
      if sum < 0 || segs[k].numChars >= Pow2(ccbits) || 4 + ccbits > INT_MAX - sum
         || |segs[k].data| > INT_MAX - (sum + 4 + ccbits) then -1
      else sum + 4 + ccbits + |segs[k].data|
  }

  method GetTotalBits(segs: seq<QrSegment>, version: Version) returns (result: int)
    ensures result == TotalBits(segs, version)
  {
    hide Pow2;
    result := 0;
    for i := 0 to |segs|
      invariant result >= 0 && result == TotalBits(segs[..i], version)
    {
      assert segs[..i + 1][..i] == segs[..i];
      var seg := segs[i];
      var ccbits := seg.mode.NumCharCountBits(version);
      if seg.numChars >= Pow2(ccbits) {
        NegativeTotal(segs, i + 1, version);
        return -1;
      }
      if 4 + ccbits > INT_MAX - result {
        NegativeTotal(segs, i + 1, version);
        return -1;
      }
      result := result + 4 + ccbits;
      if |seg.data| > INT_MAX - result {
        NegativeTotal(segs, i + 1, version);
        return -1;
      }
      result := result + |seg.data|;
    }
    assert segs[..|segs|] == segs;
  }

  lemma {:induction false} NegativeTotal(segs: seq<QrSegment>, i: nat, version: Version)
    requires i <= |segs| && TotalBits(segs[..i], version) == -1
    ensures TotalBits(segs, version) == -1
    decreases |segs|
  {
    if i < |segs| {
      assert segs[..|segs| - 1][..i] == segs[..i];
      NegativeTotal(segs[..|segs| - 1], i, version);
    } else {
      assert segs[..i] == segs;
    }
  }

  // ----- The stream -----

  function SegmentBits(seg: QrSegment, version: Version): seq<bool> {
    ToBits(seg.mode.ModeBits(), 4) + ToBits(seg.numChars, seg.mode.NumCharCountBits(version)) + seg.data
  }

  function Stream(segs: seq<QrSegment>, version: Version): seq<bool> {
    if segs == [] then [] else SegmentBits(segs[0], version) + Stream(segs[1..], version)
  }

  lemma {:induction false} StreamAppend(segs: seq<QrSegment>, seg: QrSegment, version: Version)
    ensures Stream(segs + [seg], version) == Stream(segs, version) + SegmentBits(seg, version)
  {
    hide SegmentBits;
    if segs == [] {
      assert (segs + [seg])[1..] == [];
    } else {
      StreamAppend(segs[1..], seg, version);
      assert (segs + [seg])[1..] == segs[1..] + [seg];
    }
  }

  /** When the total is not -1, it is the length of the stream and every count fits its field. */
  lemma {:induction false} StreamLength(segs: seq<QrSegment>, version: Version)
    requires TotalBits(segs, version) >= 0
    ensures |Stream(segs, version)| == TotalBits(segs, version)
    ensures forall i :: 0 <= i < |segs| ==> segs[i].numChars < Pow2(segs[i].mode.NumCharCountBits(version))
  {
    hide Pow2, Stream;
    if segs == [] {
      EmptyStream(version);
    } else {
      var k := |segs| - 1;
      StreamLength(segs[..k], version);
      StreamAppend(segs[..k], segs[k], version);
      assert segs == segs[..k] + [segs[k]];
      forall i | 0 <= i < |segs|
        ensures segs[i].numChars < Pow2(segs[i].mode.NumCharCountBits(version))
      {
        if i < k {
          assert segs[i] == segs[..k][i];
        }
      }
    }
  }

  lemma EmptyStream(version: Version)
    ensures Stream([], version) == []
  {}

  // ----- Padding -----

  /** Alternating pad bytes, beginning with 0xEC. */
  function PadBits(n: nat, first: bool): seq<bool> {
    if n == 0 then [] else ToBits(if first then 0xEC else 0x11, 8) + PadBits(n - 1, !first)
  }

  function ZeroBits(n: nat): seq<bool> {
    seq(n, _ => false)
  }

  function TerminatorBits(length: nat, capacity: nat): nat
    requires length <= capacity
  {
    if capacity - length < 4 then capacity - length else 4
  }

  /** The zeros up to the next byte. */
  function ByteFill(length: nat): nat {
    (8 - length % 8) % 8
  }

  /** The stream with terminator and padding: exactly the capacity. */
  function Filled(stream: seq<bool>, capacity: nat): (full: seq<bool>)
    requires |stream| <= capacity && capacity % 8 == 0
    ensures |full| == capacity
  {
    var terminated := stream + ZeroBits(TerminatorBits(|stream|, capacity));
    var whole := terminated + ZeroBits(ByteFill(|terminated|));
    var n := (capacity - |whole|) / 8;
    PadLength(n, true);
    whole + PadBits(n, true)
  }

  lemma {:induction false} PadLength(n: nat, first: bool)
    ensures |PadBits(n, first)| == 8 * n
  {
    if n > 0 {
      PadLength(n - 1, !first);
    }
  }

  lemma {:induction false} PadAppend(n: nat, first: bool)
    ensures PadBits(n + 1, first) == PadBits(n, first) + ToBits(if first == (n % 2 == 0) then 0xEC else 0x11, 8)
  {
    hide ToBits;
    if n > 0 {
      PadAppend(n - 1, !first);
    } else {
      assert PadBits(0, !first) == [];
    }
  }

  lemma {:induction false} ZeroToBits(n: nat)
    ensures ToBits(0, n) == ZeroBits(n)
  {
    if n > 0 {
      ZeroToBits(n - 1);
    }
  }

  /** Terminator and fill never exceed the capacity, and end at a byte. */
  lemma FillFits(length: nat, capacity: nat)
    requires length <= capacity && capacity % 8 == 0
    ensures
      var terminated := length + TerminatorBits(length, capacity);
      var whole := terminated + ByteFill(terminated);
      whole <= capacity && whole % 8 == 0 && ByteFill(terminated) < 8 && TerminatorBits(length, capacity) <= 4
  {}

  /** Terminator and padding as the program appends them. */
  method Fill(bb: BitBuffer, capacity: nat)
    requires |bb.bits| <= capacity && capacity % 8 == 0
    modifies bb
    ensures bb.bits == Filled(old(bb.bits), capacity)
  {
    hide PadBits, ToBits, TerminatorBits, ByteFill, Pow2;
    var t := TerminatorBits(|bb.bits|, capacity);
    FillFits(|bb.bits|, capacity);
    ZeroToBits(t);
    var terminated := bb.AppendBits(0, t);
    var f := ByteFill(|bb.bits|);
    ZeroToBits(f);
    var filled := bb.AppendBits(0, f);
    PadWithBytes(bb, capacity);
  }

  /** Pads with alternating bytes until the capacity is reached. */
  method PadWithBytes(bb: BitBuffer, capacity: nat)
    requires |bb.bits| <= capacity && capacity % 8 == 0 && |bb.bits| % 8 == 0
    modifies bb
    ensures bb.bits == old(bb.bits) + PadBits((capacity - |old(bb.bits)|) / 8, true)
  {
    hide PadBits, ToBits, Pow2;
    Powers();
    ghost var n: nat := 0;
    PadLength(0, true);
    var padByte := 0xEC;
    while |bb.bits| < capacity
      invariant bb.bits == old(bb.bits) + PadBits(n, true) && |bb.bits| == |old(bb.bits)| + 8 * n <= capacity
      invariant padByte == (if n % 2 == 0 then 0xEC else 0x11)
      decreases capacity - |bb.bits|
    {
      PadAppend(n, true);
      PadLength(n + 1, true);
      var padded := bb.AppendBits(padByte, 8);
      padByte := if padByte == 0xEC then 0x11 else 0xEC;
      n := n + 1;
    }
  }

  // ----- Packing -----

  /** The first i bits of byte j; the others are 0. */
  function Chunk(bits: seq<bool>, i: nat, j: nat): (c: seq<bool>)
    ensures |c| == 8
  {
    seq(8, k requires 0 <= k < 8 => 8 * j + k < i && 8 * j + k < |bits| && bits[8 * j + k])
  }

  method PackBits(bits: seq<bool>) returns (data: seq<byte>)
    requires |bits| % 8 == 0
    ensures data == Bytes(bits)
  {
    hide Byte, Shifted;
    var n := |bits| / 8;
    NoBitsSet();
    var words := new byte[n](_ => 0);
    for i := 0 to |bits|
      invariant forall j :: 0 <= j < n ==> words[j] == Byte(Chunk(bits, i, j))
    {
      var j, k := i / 8, i % 8;
      forall m | 0 <= m < n && m != j
        ensures Chunk(bits, i + 1, m) == Chunk(bits, i, m)
      {}
      assert Chunk(bits, i + 1, j) == Chunk(bits, i, j)[k := bits[i]];
      ByteSet(Chunk(bits, i, j), k, bits[i]);
      words[j] := words[j] | Shifted(bits[i], 7 - k);
    }
    forall j | 0 <= j < n
      ensures words[j] == Bytes(bits)[j]
    {
      assert Chunk(bits, |bits|, j) == bits[8 * j..8 * j + 8];
    }
    data := words[..];
  }

  lemma NoBitsSet()
    ensures Byte(ZeroBits(8)) == 0
    ensures forall bits, j :: Chunk(bits, 0, j) == ZeroBits(8)
  {
    forall bits, j
      ensures Chunk(bits, 0, j) == ZeroBits(8)
    {}
    assert Byte(ZeroBits(8)) == 0;
  }

  /** Setting one more bit is a bitwise or. */
  lemma ByteSet(c: seq<bool>, k: nat, bit: bool)
    requires |c| == 8 && k < 8 && !c[k]
    ensures Byte(c[k := bit]) == Byte(c) | Shifted(bit, 7 - k)
  {
    assert k == 0 || k == 1 || k == 2 || k == 3 || k == 4 || k == 5 || k == 6 || k == 7;
  }

  // ----- What the padding looks like -----

  lemma {:induction false} PadAt(n: nat, first: bool, k: nat)
    requires k < n
    ensures |PadBits(n, first)| == 8 * n
    ensures PadBits(n, first)[8 * k..8 * k + 8] == ToBits(if first == (k % 2 == 0) then 0xEC else 0x11, 8)
  {
    hide ToBits;
    PadLength(n, first);
    PadLength(n - 1, !first);
    if k > 0 {
      PadAt(n - 1, !first, k - 1);
      assert PadBits(n, first)[8 * k..8 * k + 8] == PadBits(n - 1, !first)[8 * (k - 1)..8 * (k - 1) + 8];
    }
  }

  lemma PadByteBits()
    ensures Byte(ToBits(0xEC, 8)) == 0xEC && Byte(ToBits(0x11, 8)) == 0x11
  {
    assert ToBits(0xEC, 8) == [true, true, true, false, true, true, false, false];
    assert ToBits(0x11, 8) == [false, false, false, true, false, false, false, true];
  }

  /** The codeword in which the padding starts: the data and up to four zeros, rounded up to whole bytes. */
  function FirstPad(length: nat, capacity: nat): nat {
    ((if length + 4 <= capacity then length + 4 else capacity) + 7) / 8
  }

  /** The data, the terminator and the zeros up to a whole byte. */
  lemma WholeBytes(stream: seq<bool>, capacity: nat) returns (whole: seq<bool>)
    requires |stream| <= capacity && capacity % 8 == 0
    ensures |stream| <= |whole| == 8 * FirstPad(|stream|, capacity) <= capacity && whole[..|stream|] == stream
    ensures forall i :: |stream| <= i < |whole| ==> !whole[i]
    ensures Filled(stream, capacity) == whole + PadBits((capacity - |whole|) / 8, true)
  {
    hide PadBits;
    var t := stream + ZeroBits(TerminatorBits(|stream|, capacity));
    whole := t + ZeroBits(ByteFill(|t|));
    FillFits(|stream|, capacity);
    WholeLength(|stream|, capacity);
  }

  lemma WholeLength(length: nat, capacity: nat)
    requires length <= capacity && capacity % 8 == 0
    ensures var t := length + TerminatorBits(length, capacity); t + ByteFill(t) == 8 * FirstPad(length, capacity)
  {}

  /** Behind the data come zeros up to a whole byte, four at least if there is room, and then 0xEC and 0x11 in turn. */
  lemma FilledWith(stream: seq<bool>, capacity: nat, k: nat)
    requires |stream| <= capacity && capacity % 8 == 0 && k < capacity / 8
    ensures Filled(stream, capacity)[..|stream|] == stream
    ensures forall i :: |stream| <= i < 8 * FirstPad(|stream|, capacity) <= capacity ==> !Filled(stream, capacity)[i]
    ensures
      k >= FirstPad(|stream|, capacity) ==>
        Bytes(Filled(stream, capacity))[k] == if (k - FirstPad(|stream|, capacity)) % 2 == 0 then 0xEC else 0x11
  {
    hide ToBits, PadBits, Byte, Filled, FirstPad;
    var w := FirstPad(|stream|, capacity);
    var whole := WholeBytes(stream, capacity);
    var n := (capacity - |whole|) / 8;
    PadLength(n, true);
    var full := whole + PadBits(n, true);
    assert full[..|stream|] == whole[..|stream|];
    if k >= w {
      PadAt(n, true, k - w);
      PadByteBits();
      assert Filled(stream, capacity)[8 * k..8 * k + 8] == PadBits(n, true)[8 * (k - w)..8 * (k - w) + 8];
    }
  }

  // ----- The encoder -----

  datatype EncodeError = InvalidValue | DataTooLong

  datatype Encoded = Encoded(version: Version, ecl: Ecc, codewords: seq<byte>, mask: int)

  predicate FitsVersion(segs: seq<QrSegment>, version: Version, ecl: Ecc) {
    0 <= TotalBits(segs, version) <= NumDataCodewords(version, ecl) * 8
  }

  function Rank(ecl: Ecc): nat {
    match ecl
    case LOW => 0
    case MEDIUM => 1
    case QUARTILE => 2
    case HIGH => 3
  }

  /** The highest level for which the data still fits, but not below the given one. */
  ghost predicate Boosted(segs: seq<QrSegment>, version: Version, ecl: Ecc, boosted: Ecc) {
    FitsVersion(segs, version, boosted) && Rank(ecl) <= Rank(boosted)
    && forall e :: FitsVersion(segs, version, e) ==> Rank(e) <= Rank(boosted)
  }

  method EncodeSegments(segs: seq<QrSegment>, ecl: Ecc, minVersion: int, maxVersion: int, mask: int, boostEcl: bool)
    returns (r: Result<Encoded, EncodeError>)
    ensures r == Failure(InvalidValue) <==> !(1 <= minVersion <= maxVersion <= 40 && -1 <= mask <= 7)
    ensures r == Failure(DataTooLong) ==> forall v: Version :: minVersion <= v <= maxVersion ==> !FitsVersion(segs, v, ecl)
    ensures r.Success? ==>
      var v := r.value.version;
      minVersion <= v <= maxVersion && FitsVersion(segs, v, ecl)
      && (forall w: Version :: minVersion <= w < v ==> !FitsVersion(segs, w, ecl))
    ensures r.Success? && boostEcl ==> Boosted(segs, r.value.version, ecl, r.value.ecl)
    ensures r.Success? && !boostEcl ==> r.value.ecl == ecl
    ensures r.Success? ==> Carries(segs, r.value) && r.value.mask == mask
  {
    hide NumDataCodewords, Stream, SegmentBits, Filled;
    if !(1 <= minVersion <= maxVersion <= 40) || mask < -1 || mask > 7 {
      return Failure(InvalidValue);
    }
    var found := FindVersion(segs, ecl, minVersion, maxVersion);
    if found.None? {
      return Failure(DataTooLong);
    }
    var version := found.value;
    var newEcl := ecl;
    if boostEcl {
      newEcl := Boost(segs, version, ecl);
    }
    var encoded := EncodeAt(segs, version, newEcl, mask);
    r := Success(encoded);
  }

  /** The least version in range that has room for the data. */
  method FindVersion(segs: seq<QrSegment>, ecl: Ecc, minVersion: Version, maxVersion: Version) returns (found: Option<Version>)
    requires minVersion <= maxVersion
    ensures found.None? ==> forall v: Version :: minVersion <= v <= maxVersion ==> !FitsVersion(segs, v, ecl)
    ensures found.Some? ==>
      minVersion <= found.value <= maxVersion && FitsVersion(segs, found.value, ecl)
      && (forall w: Version :: minVersion <= w < found.value ==> !FitsVersion(segs, w, ecl))
  {
    hide NumDataCodewords, TotalBits;
    var version := minVersion;
    while true
      invariant minVersion <= version <= maxVersion
      invariant forall w: Version :: minVersion <= w < version ==> !FitsVersion(segs, w, ecl)
      decreases maxVersion - version
    {
      var dataCapacityBits := NumDataCodewords(version, ecl) * 8;
      var dataUsedBits := GetTotalBits(segs, version);
      if dataUsedBits != -1 && dataUsedBits <= dataCapacityBits {
        return Some(version);
      }
      if version >= maxVersion {
        return None;
      }
      version := version + 1;
    }
  }

  /** The stream of the segments, filled up to the capacity and packed into bytes. */
  method EncodeAt(segs: seq<QrSegment>, version: Version, ecl: Ecc, mask: int) returns (e: Encoded)
    requires FitsVersion(segs, version, ecl)
    ensures Carries(segs, e) && e.version == version && e.ecl == ecl && e.mask == mask
  {
    hide NumDataCodewords, Stream, Filled, TotalBits, Bytes;
    var bb := new BitBuffer();
    AppendSegments(bb, segs, version);
    StreamLength(segs, version);
    Fill(bb, NumDataCodewords(version, ecl) * 8);
    var codewords := PackBits(bb.bits);
    e := Encoded(version, ecl, codewords, mask);
  }

  /** The codewords hold the stream of the segments, filled up to the capacity. */
  ghost predicate Carries(segs: seq<QrSegment>, e: Encoded) {
    hide NumDataCodewords, TotalBits;
    FitsVersion(segs, e.version, e.ecl)
    && |Stream(segs, e.version)| <= NumDataCodewords(e.version, e.ecl) * 8
    && e.codewords == Bytes(Filled(Stream(segs, e.version), NumDataCodewords(e.version, e.ecl) * 8))
  }

  /** Raises the level while the data fits. */
  method Boost(segs: seq<QrSegment>, version: Version, ecl: Ecc) returns (newEcl: Ecc)
    requires FitsVersion(segs, version, ecl)
    ensures Boosted(segs, version, ecl, newEcl)
  {
    hide NumDataCodewords, TotalBits;
    var dataUsedBits := GetTotalBits(segs, version);
    newEcl := ecl;
    var levels := [MEDIUM, QUARTILE, HIGH];
    for i := 0 to 3
      invariant FitsVersion(segs, version, newEcl)
      invariant i < Rank(ecl) ==> Rank(newEcl) == Rank(ecl) || Rank(newEcl) <= i
      invariant i >= Rank(ecl) ==> Rank(newEcl) >= Rank(ecl)
      invariant forall e :: 1 <= Rank(e) <= i && FitsVersion(segs, version, e) && i >= Rank(ecl) ==> Rank(e) <= Rank(newEcl)
    {
      assert levels[0] == MEDIUM && levels[1] == QUARTILE && levels[2] == HIGH;
      if dataUsedBits <= NumDataCodewords(version, levels[i]) * 8 {
        newEcl := levels[i];
      }
    }
  }

  method AppendSegment(bb: BitBuffer, seg: QrSegment, version: Version)
    requires seg.numChars < Pow2(seg.mode.NumCharCountBits(version))
    modifies bb
    ensures bb.bits == old(bb.bits) + SegmentBits(seg, version)
  {
    hide ToBits, Pow2;
    Powers();
    var moded := bb.AppendBits(seg.mode.ModeBits(), 4);
    var counted := bb.AppendBits(seg.numChars, seg.mode.NumCharCountBits(version));
    bb.bits := bb.bits + seg.data;
  }

  /** Mode, count and payload of every segment. */
  method AppendSegments(bb: BitBuffer, segs: seq<QrSegment>, version: Version)
    requires bb.bits == [] && TotalBits(segs, version) >= 0
    modifies bb
    ensures bb.bits == Stream(segs, version)
  {
    hide Stream, TotalBits;
    EmptyStream(version);
    StreamLength(segs, version);
    for i := 0 to |segs|
      invariant bb.bits == Stream(segs[..i], version)
    {
      StreamAppend(segs[..i], segs[i], version);
      assert segs[..i + 1] == segs[..i] + [segs[i]];
      AppendSegment(bb, segs[i], version);
    }
    assert segs[..|segs|] == segs;
  }
}

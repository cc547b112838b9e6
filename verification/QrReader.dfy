/**
  A reader of bit streams, written from section 7.4 of ISO/IEC 18004:2015 rather than from the
  encoder, and the proof that it recovers what was encoded.
 */
module QrReader {
  import opened QrBits
  import opened QrByte
  import opened QrSegments
  import opened QrStream
  import opened QrVersions
  import opened Wrappers

  /** What a segment says. */
  datatype Content = Numeric(text: string) | Alphanumeric(text: string) | Binary(data: seq<byte>) {
    ghost predicate Valid() {
      match this
      case Numeric(text) => AllDigits(text)
      case Alphanumeric(text) => AllEncodable(text)
      case Binary(data) => true
    }

    /** The segment that the program makes for it. */
    function Segment(): QrSegment {
      match this
      case Numeric(text) => QrSegment(NUMERIC, |text|, NumericBits(text))
      case Alphanumeric(text) => QrSegment(ALPHANUMERIC, |text|, AlphanumericBits(text))
      case Binary(data) => QrSegment(BYTE, |data|, BitsOf(data))
    }
  }

  /** The contents are well formed and their character counts fit the fields of the version. */
  ghost predicate Encodables(contents: seq<Content>, version: Version) {
    forall i :: 0 <= i < |contents| ==> contents[i].Valid() && CountFits(contents[i].Segment(), version)
  }

  predicate CountFits(seg: QrSegment, version: Version) {
    seg.numChars < Pow2(seg.mode.NumCharCountBits(version))
  }

  type Read<+T> = Option<(T, seq<bool>)>

  /** Takes a field of n bits. */
  function ReadField(bits: seq<bool>, n: nat): (r: Read<nat>)
    ensures r.Some? <==> n <= |bits|
    ensures r.Some? ==> |r.value.1| == |bits| - n
  {
    if |bits| < n then None else Some((FromBits(bits[..n]), bits[n..]))
  }

  lemma ReadFieldOf(v: nat, n: nat, rest: seq<bool>)
    requires v < Pow2(n)
    ensures ReadField(ToBits(v, n) + rest, n) == Some((v, rest))
  {
    BitsRoundTrip(v, n);
    assert (ToBits(v, n) + rest)[..n] == ToBits(v, n);
  }

  // ----- Digits -----

  /** v written with k digits. */
  function DigitChars(v: nat, k: nat): (text: string)
    ensures |text| == k
  {
    if k == 0 then "" else DigitChars(v / 10, k - 1) + [(v % 10 + '0' as int) as char]
  }

  function ReadDigits(bits: seq<bool>, n: nat): (r: Read<string>)
    ensures r.Some? ==> |r.value.1| <= |bits|
    decreases n
  {
    if n == 0 then Some(("", bits))
    else
      var k := if n < 3 then n else 3;
      match ReadField(bits, if k == 3 then 10 else k * 3 + 1)
      case None => None
      case Some((v, rest)) =>
        match ReadDigits(rest, n - k)
        case None => None
        case Some((text, rest')) => Some((DigitChars(v, k) + text, rest'))
  }

  lemma {:induction false} DigitsRoundTrip(text: string)
    requires AllDigits(text)
    ensures DigitChars(DigitsValue(text), |text|) == text
  {
    if text != "" {
      var k := |text| - 1;
      DigitsRoundTrip(text[..k]);
      assert text == text[..k] + [text[k]];
    }
  }

  lemma {:induction false} NumericRoundTrip(text: string, rest: seq<bool>)
    requires AllDigits(text)
    ensures ReadDigits(NumericBits(text) + rest, |text|) == Some((text, rest))
  {
    hide ReadField, ToBits, DigitsValue, DigitChars;
    if text == "" {
      assert NumericBits(text) + rest == rest;
    } else if |text| < 3 {
      DigitsBound(text);
      DigitsRoundTrip(text);
      ReadFieldOf(DigitsValue(text), |text| * 3 + 1, rest);
      assert text + "" == text;
    } else {
      DigitsBound(text[..3]);
      DigitsRoundTrip(text[..3]);
      ReadFieldOf(DigitsValue(text[..3]), 10, NumericBits(text[3..]) + rest);
      NumericRoundTrip(text[3..], rest);
      assert NumericBits(text) + rest == ToBits(DigitsValue(text[..3]), 10) + (NumericBits(text[3..]) + rest);
      assert text[..3] + text[3..] == text;
    }
  }

  // ----- Characters -----

  /** The character with value k: digits, letters, and nine others (table 5). */
  function CharsetChar(k: nat): char {
    if k < 10 then ('0' as int + k) as char
    else if k < 36 then ('A' as int + k - 10) as char
    else if k < 45 then " $%*+-./:"[k - 36]
    else '?'
  }

  const DIGITS := "0123456789"
  const LETTERS := "ABCDEFGHIJKLMNOPQRSTUVWXYZ"
  const OTHERS := " $%*+-./:"

  lemma CharsetParts()
    ensures CHARSET == DIGITS + LETTERS + OTHERS && |DIGITS| == 10 && |LETTERS| == 26 && |OTHERS| == 9
  {}

  lemma DigitsAre(k: nat)
    requires k < 10
    ensures |DIGITS| == 10 && DIGITS[k] == CharsetChar(k)
  {
    assert k == 0 || k == 1 || k == 2 || k == 3 || k == 4 || k == 5 || k == 6 || k == 7 || k == 8 || k == 9;
  }

  lemma LettersAre(k: nat)
    requires 10 <= k < 36
    ensures |LETTERS| == 26 && LETTERS[k - 10] == CharsetChar(k)
  {
    assert k == 10 || k == 11 || k == 12 || k == 13 || k == 14 || k == 15 || k == 16 || k == 17 || k == 18 || k == 19
        || k == 20 || k == 21 || k == 22 || k == 23 || k == 24 || k == 25 || k == 26 || k == 27 || k == 28 || k == 29
        || k == 30 || k == 31 || k == 32 || k == 33 || k == 34 || k == 35;
  }

  lemma CharsetAgrees(k: nat)
    requires k < 45
    ensures |CHARSET| == 45 && CHARSET[k] == CharsetChar(k)
  {
    hide CharsetChar;
    CharsetParts();
    if k < 10 {
      DigitsAre(k);
    } else if k < 36 {
      LettersAre(k);
    } else {
      OthersAre(k);
    }
  }

  lemma OthersAre(k: nat)
    requires 36 <= k < 45
    ensures |OTHERS| == 9 && OTHERS[k - 36] == CharsetChar(k)
  {}

  function ReadChars(bits: seq<bool>, n: nat): (r: Read<string>)
    ensures r.Some? ==> |r.value.1| <= |bits|
    decreases n
  {
    if n == 0 then Some(("", bits))
    else if n == 1 then
      match ReadField(bits, 6)
      case None => None
      case Some((v, rest)) => Some(([CharsetChar(v)], rest))
    else
      match ReadField(bits, 11)
      case None => None
      case Some((v, rest)) =>
        match ReadChars(rest, n - 2)
        case None => None
        case Some((text, rest')) => Some(([CharsetChar(v / 45), CharsetChar(v % 45)] + text, rest'))
  }

  lemma CharRoundTrip(c: char)
    requires Encodable(c)
    ensures CharIndex(c) < 45 && CharsetChar(CharIndex(c)) == c
  {
    hide Encodable, CharIndex, CharsetChar;
    CharIndexBound(c);
    CharsetAgrees(CharIndex(c));
  }

  lemma {:induction false} AlphanumericRoundTrip(text: string, rest: seq<bool>)
    requires AllEncodable(text)
    ensures ReadChars(AlphanumericBits(text) + rest, |text|) == Some((text, rest))
  {
    hide ReadField, ToBits, CharIndex, CharsetChar, Encodable;
    if text == "" {
      assert AlphanumericBits(text) + rest == rest;
    } else if |text| == 1 {
      AlphanumericEnd(text);
      CharRoundTrip(text[0]);
      ReadFieldOf(CharIndex(text[0]), 6, rest);
      assert text == [text[0]];
    } else {
      var v := CharIndex(text[0]) * 45 + CharIndex(text[1]);
      CharRoundTrip(text[0]);
      CharRoundTrip(text[1]);
      AlphanumericPair(text[0], text[1], text[2..]);
      assert [text[0], text[1]] + text[2..] == text;
      ReadFieldOf(v, 11, AlphanumericBits(text[2..]) + rest);
      AlphanumericRoundTrip(text[2..], rest);
      assert AlphanumericBits(text) + rest == ToBits(v, 11) + (AlphanumericBits(text[2..]) + rest);
      assert v / 45 == CharIndex(text[0]) && v % 45 == CharIndex(text[1]);
    }
  }

  // ----- Segments -----

  function ReadPayload(bits: seq<bool>, mode: Mode, n: nat): (r: Read<Content>)
    ensures r.Some? ==> |r.value.1| <= |bits|
  {
    match mode
    case NUMERIC =>
      (match ReadDigits(bits, n)
       case None => None
       case Some((text, rest)) => Some((Numeric(text), rest)))
    case ALPHANUMERIC =>
      (match ReadChars(bits, n)
       case None => None
       case Some((text, rest)) => Some((Alphanumeric(text), rest)))
    case BYTE =>
      if |bits| < 8 * n then None else Some((Binary(Bytes(bits[..8 * n])), bits[8 * n..]))
  }

  function ModeOf(bits: nat): Option<Mode> {
    if bits == 1 then Some(NUMERIC)
    else if bits == 2 then Some(ALPHANUMERIC)
    else if bits == 4 then Some(BYTE)
    else None
  }

  /** The width of the character count (table 3). */
  function CountWidth(mode: Mode, version: Version): nat {
    var row := if version <= 9 then [10, 9, 8] else if version <= 26 then [12, 11, 16] else [14, 13, 16];
    match mode
    case NUMERIC => row[0]
    case ALPHANUMERIC => row[1]
    case BYTE => row[2]
  }

  lemma CountWidthIs(mode: Mode, version: Version)
    ensures mode.NumCharCountBits(version) == CountWidth(mode, version)
  {}

  /** Reads segments up to the terminator or the end; None when the stream is malformed. */
  function ReadStream(bits: seq<bool>, version: Version): Option<seq<Content>>
    decreases |bits|
  {
    match ReadField(bits, 4)
    case None => Some([])
    case Some((m, rest)) =>
      if m == 0 then Some([])
      else
        match ModeOf(m)
        case None => None
        case Some(mode) =>
          match ReadField(rest, CountWidth(mode, version))
          case None => None
          case Some((n, rest')) =>
            match ReadPayload(rest', mode, n)
            case None => None
            case Some((content, rest'')) =>
              match ReadStream(rest'', version)
              case None => None
              case Some(contents) => Some([content] + contents)
  }

  lemma PayloadRoundTrip(c: Content, rest: seq<bool>)
    requires c.Valid()
    ensures ReadPayload(c.Segment().data + rest, c.Segment().mode, c.Segment().numChars) == Some((c, rest))
  {
    hide ReadDigits, ReadChars, NumericBits, AlphanumericBits, Bytes, BitsOf, AllDigits, AllEncodable;
    match c
    case Numeric(text) => NumericRoundTrip(text, rest);
    case Alphanumeric(text) => AlphanumericRoundTrip(text, rest);
    case Binary(data) =>
      assert |BitsOf(data)| == 8 * |data| by { BitsLength(data); }
      assert (BitsOf(data) + rest)[..8 * |data|] == BitsOf(data);
      BytesOfBits(data);
  }

  lemma BitsLength(data: seq<byte>)
    ensures |BitsOf(data)| == 8 * |data|
  {}

  /** One segment in front of a readable stream. */
  lemma SegmentRoundTrip(c: Content, version: Version, rest: seq<bool>)
    requires c.Valid() && CountFits(c.Segment(), version)
    ensures ReadStream(SegmentBits(c.Segment(), version) + rest, version) ==
      match ReadStream(rest, version)
      case None => None
      case Some(contents) => Some([c] + contents)
  {
    hide ReadField, ReadPayload, ToBits, c.Segment, Pow2, CountWidth;
    var seg := c.Segment();
    CountWidthIs(seg.mode, version);
    var ccbits := seg.mode.NumCharCountBits(version);
    assert Pow2(4) == 16 by { Powers(); }
    ReadFieldOf(seg.mode.ModeBits(), 4, ToBits(seg.numChars, ccbits) + (seg.data + rest));
    ReadFieldOf(seg.numChars, ccbits, seg.data + rest);
    PayloadRoundTrip(c, rest);
    assert SegmentBits(seg, version) + rest
        == ToBits(seg.mode.ModeBits(), 4) + (ToBits(seg.numChars, ccbits) + (seg.data + rest));
  }

  function Segments(contents: seq<Content>): (segs: seq<QrSegment>)
    ensures |segs| == |contents|
    ensures forall i :: 0 <= i < |contents| ==> segs[i] == contents[i].Segment()
  {
    if contents == [] then [] else [contents[0].Segment()] + Segments(contents[1..])
  }

  /** Fewer than four bits are left, or a terminator. */
  ghost predicate Ends(tail: seq<bool>) {
    |tail| < 4 || tail[..4] == ZeroBits(4)
  }

  lemma ReadEnd(tail: seq<bool>, version: Version)
    requires Ends(tail)
    ensures ReadStream(tail, version) == Some([])
  {
    if |tail| >= 4 {
      ZeroToBits(4);
      assert Pow2(4) == 16 by { Powers(); }
      BitsRoundTrip(0, 4);
    }
  }

  lemma StreamHead(contents: seq<Content>, version: Version, tail: seq<bool>)
    requires contents != []
    ensures
      Stream(Segments(contents), version) + tail
      == SegmentBits(contents[0].Segment(), version) + (Stream(Segments(contents[1..]), version) + tail)
  {
    hide SegmentBits;
    assert Segments(contents)[1..] == Segments(contents[1..]);
  }

  lemma {:induction false} StreamRoundTrip(contents: seq<Content>, version: Version, tail: seq<bool>)
    requires Encodables(contents, version) && Ends(tail)
    ensures ReadStream(Stream(Segments(contents), version) + tail, version) == Some(contents)
  {
    hide SegmentBits, ReadStream, Pow2, Ends, Stream, Segments, CountFits;
    if contents == [] {
      ReadEnd(tail, version);
      NoStream(version);
      assert [] + tail == tail;
    } else {
      StreamHead(contents, version, tail);
      StreamRoundTrip(contents[1..], version, tail);
      SegmentRoundTrip(contents[0], version, Stream(Segments(contents[1..]), version) + tail);
      assert [contents[0]] + contents[1..] == contents;
    }
  }

  lemma NoStream(version: Version)
    ensures Stream(Segments([]), version) == []
  {}

  lemma FilledEnds(stream: seq<bool>, capacity: nat)
    requires |stream| <= capacity && capacity % 8 == 0
    ensures var tail := Filled(stream, capacity)[|stream|..];
      Filled(stream, capacity) == stream + tail && Ends(tail)
  {
    hide PadBits;
  }

  /** The codewords of an encoded symbol read back as the contents of its segments. */
  lemma CodewordsRoundTrip(contents: seq<Content>, e: Encoded)
    requires forall i :: 0 <= i < |contents| ==> contents[i].Valid()
    requires Carries(Segments(contents), e)
    ensures ReadStream(BitsOf(e.codewords), e.version) == Some(contents)
  {
    hide *;
    var segs := Segments(contents);
    var stream, full := FilledStream(segs, e);
    CountsFit(contents, e.version);
    StreamRoundTrip(contents, e.version, full[|stream|..]);
  }

  lemma FilledStream(segs: seq<QrSegment>, e: Encoded) returns (stream: seq<bool>, full: seq<bool>)
    requires Carries(segs, e)
    ensures stream == Stream(segs, e.version) && BitsOf(e.codewords) == full
    ensures |stream| <= |full| && full == stream + full[|stream|..] && Ends(full[|stream|..])
    ensures TotalBits(segs, e.version) >= 0
  {
    hide NumDataCodewords, Filled, Ends, Stream, TotalBits;
    stream := Stream(segs, e.version);
    full := Filled(stream, NumDataCodewords(e.version, e.ecl) * 8);
    FilledEnds(stream, NumDataCodewords(e.version, e.ecl) * 8);
    BitsOfBytes(full);
  }

  lemma CountsFit(contents: seq<Content>, version: Version)
    requires forall i :: 0 <= i < |contents| ==> contents[i].Valid()
    requires TotalBits(Segments(contents), version) >= 0
    ensures Encodables(contents, version)
  {
    hide TotalBits, Pow2;
    var segs := Segments(contents);
    StreamLength(segs, version);
    forall i | 0 <= i < |contents|
      ensures CountFits(contents[i].Segment(), version)
    {
      assert segs[i] == contents[i].Segment();
    }
  }
}

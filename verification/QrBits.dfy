/** Bits of bytes, most significant bit first. */
module QrBits {
  import opened QrByte

  function Bit(b: byte, k: nat): bool
    requires k < 8
  {
    (b >> k) & 1 != 0
  }

  function BitsOf(data: seq<byte>): (bits: seq<bool>)
    ensures |bits| == 8 * |data|
  {
    seq(8 * |data|, i requires 0 <= i < 8 * |data| => Bit(data[i / 8], 7 - i % 8))
  }

  function Shifted(bit: bool, k: nat): byte
    requires k < 8
  {
    (if bit then 1 else 0) << k
  }

  /** The byte with these eight bits. */
  function Byte(bits: seq<bool>): byte
    requires |bits| == 8
  {
    Shifted(bits[0], 7) | Shifted(bits[1], 6) | Shifted(bits[2], 5) | Shifted(bits[3], 4)
    | Shifted(bits[4], 3) | Shifted(bits[5], 2) | Shifted(bits[6], 1) | Shifted(bits[7], 0)
  }

  function Bytes(bits: seq<bool>): seq<byte>
    requires |bits| % 8 == 0
  {
    seq(|bits| / 8, i requires 0 <= i < |bits| / 8 => Byte(bits[8 * i..8 * i + 8]))
  }

  /** The first n bytes of a bit sequence. */
  function FirstBytes(bits: seq<bool>, n: nat): (data: seq<byte>)
    requires 8 * n <= |bits|
    ensures |data| == n
  {
    Bytes(bits[..8 * n])
  }

  lemma ByteOfBits(b: byte)
    ensures Byte([Bit(b, 7), Bit(b, 6), Bit(b, 5), Bit(b, 4), Bit(b, 3), Bit(b, 2), Bit(b, 1), Bit(b, 0)]) == b
  {}

  lemma BitsOfByte(bits: seq<bool>, k: nat)
    requires |bits| == 8 && k < 8
    ensures Bit(Byte(bits), 7 - k) == bits[k]
  {
    assert k == 0 || k == 1 || k == 2 || k == 3 || k == 4 || k == 5 || k == 6 || k == 7;
  }

  lemma BytesOfBits(data: seq<byte>)
    ensures Bytes(BitsOf(data)) == data
  {
    hide Bit, Byte;
    var bits := BitsOf(data);
    forall i | 0 <= i < |data|
      ensures Byte(bits[8 * i..8 * i + 8]) == data[i]
    {
      EightBits(data, i);
      ByteOfBits(data[i]);
    }
  }

  lemma BitAt(data: seq<byte>, i: nat, k: nat)
    requires i < |data| && k < 8
    ensures BitsOf(data)[8 * i + k] == Bit(data[i], 7 - k)
  {
    hide Bit;
    assert (8 * i + k) / 8 == i && (8 * i + k) % 8 == k;
  }

  lemma EightBits(data: seq<byte>, i: nat)
    requires i < |data|
    ensures
      var b := data[i];
      BitsOf(data)[8 * i..8 * i + 8]
      == [Bit(b, 7), Bit(b, 6), Bit(b, 5), Bit(b, 4), Bit(b, 3), Bit(b, 2), Bit(b, 1), Bit(b, 0)]
  {
    hide Bit, BitsOf;
    var bits := BitsOf(data);
    var eight := bits[8 * i..8 * i + 8];
    forall k | 0 <= k < 8
      ensures eight[k] == Bit(data[i], 7 - k)
    {
      BitAt(data, i, k);
    }
  }

  lemma BitsOfBytes(bits: seq<bool>)
    requires |bits| % 8 == 0
    ensures BitsOf(Bytes(bits)) == bits
  {
    hide Bit, Byte;
    forall i | 0 <= i < |bits|
      ensures BitsOf(Bytes(bits))[i] == bits[i]
    {
      var j, k := i / 8, i % 8;
      BitsOfByte(bits[8 * j..8 * j + 8], k);
    }
  }
}

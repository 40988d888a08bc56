/** Big-endian integers, as the mux header and the frame header carry them. */
module ByteOrder {
  import opened Prelude

  /** The `width` low bytes of `value`, most significant first. */
  function BigEndian(value: nat, width: nat): (bytes: seq<byte>)
    ensures |bytes| == width
  {
    if width == 0 then [] else BigEndian(value / 256, width - 1) + [value % 256]
  }

  function FromBigEndian(bytes: seq<byte>): nat {
    if bytes == [] then 0 else FromBigEndian(bytes[..|bytes| - 1]) * 256 + bytes[|bytes| - 1]
  }

  /** The number of values `width` bytes can hold. */
  function Capacity(width: nat): (c: nat)
    ensures c > 0
  {
    if width == 0 then 1 else 256 * Capacity(width - 1)
  }

  lemma {:induction false} RoundTrip(value: nat, width: nat)
    requires value < Capacity(width)
    ensures FromBigEndian(BigEndian(value, width)) == value
  {
    if width > 0 {
      RoundTrip(value / 256, width - 1);
      var bytes := BigEndian(value, width);
      assert bytes[..|bytes| - 1] == BigEndian(value / 256, width - 1);
    }
  }

  /** Every byte string of that width is the encoding of the number it decodes to. */
  lemma {:induction false} RoundTripBytes(bytes: seq<byte>)
    ensures FromBigEndian(bytes) < Capacity(|bytes|)
    ensures BigEndian(FromBigEndian(bytes), |bytes|) == bytes
  {
    if bytes != [] {
      RoundTripBytes(bytes[..|bytes| - 1]);
      assert bytes == bytes[..|bytes| - 1] + [bytes[|bytes| - 1]];
    }
  }

  lemma WordCapacities()
    ensures Capacity(4) == U32_MAX + 1
    ensures Capacity(8) == U64_MAX + 1
  {
    assert Capacity(2) == 0x1_0000;
    assert Capacity(4) == 256 * (256 * Capacity(2));
    assert Capacity(6) == 256 * (256 * Capacity(4));
    assert Capacity(8) == 256 * (256 * Capacity(6));
  }

  /** `value >> (8 * count)`. */
  function ShiftRight8(value: nat, count: nat): nat {
    if count == 0 then value else ShiftRight8(value, count - 1) / 256
  }

  /** The append loop of put_u64 and put_u32: one byte per step, from the top byte down. */
  method PutBigEndian(buffer: seq<byte>, value: nat, width: nat) returns (out: seq<byte>)
    ensures out == buffer + BigEndian(value, width)
  {
    out := buffer;
    var i := width;
    while i > 0
      invariant 0 <= i <= width
      invariant out == buffer + BigEndian(ShiftRight8(value, i), width - i)
    {
      i := i - 1;
      out := out + [ShiftRight8(value, i) % 256];
    }
  }

  /** The accumulate loop of read_u64 and read_u32. */
  method ReadBigEndian(bytes: seq<byte>) returns (value: nat)
    ensures value == FromBigEndian(bytes)
  {
    value := 0;
    for i := 0 to |bytes|
      invariant value == FromBigEndian(bytes[..i])
    {
      assert bytes[..i + 1][..i] == bytes[..i];
      value := value * 256 + bytes[i];
    }
    assert bytes[..|bytes|] == bytes;
  }
}

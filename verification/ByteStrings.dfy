/** Bytes and the fixed-width big-endian numbers of the on-disk formats. */
module ByteStrings {

  type Byte = b: nat | b < 256

  /** How many values `width` bytes can hold. */
  function Values(width: nat): (n: nat)
    ensures n > 0
  {
    if width == 0 then 1 else 256 * Values(width - 1)
  }

  lemma ValuesOfWidths()
    ensures Values(2) == 0x1_0000 && Values(8) == 0x1_0000_0000_0000_0000
  {
    assert Values(0) == 1 && Values(1) == 256 && Values(2) == 0x1_0000;
    assert Values(3) == 0x100_0000 && Values(4) == 0x1_0000_0000 && Values(5) == 0x100_0000_0000;
    assert Values(6) == 0x1_0000_0000_0000 && Values(7) == 0x100_0000_0000_0000;
  }

  function BigEndian(value: nat, width: nat): (bytes: seq<Byte>)
    ensures |bytes| == width
  {
    if width == 0 then [] else BigEndian(value / 256, width - 1) + [value % 256]
  }

  function Number(bytes: seq<Byte>): nat {
    if bytes == [] then 0 else Number(bytes[..|bytes| - 1]) * 256 + bytes[|bytes| - 1]
  }

  /** Reading back a number that fits. */
  lemma {:induction false} NumberOfBigEndian(value: nat, width: nat)
    requires value < Values(width)
    ensures Number(BigEndian(value, width)) == value
  {
    if width > 0 {
      assert value / 256 < Values(width - 1);
      NumberOfBigEndian(value / 256, width - 1);
      assert BigEndian(value, width)[..width - 1] == BigEndian(value / 256, width - 1);
    }
  }

  /** Every byte string is the encoding of its number. */
  lemma {:induction false} BigEndianOfNumber(bytes: seq<Byte>)
    ensures Number(bytes) < Values(|bytes|) && BigEndian(Number(bytes), |bytes|) == bytes
  {
    if bytes != [] {
      var init, last := bytes[..|bytes| - 1], bytes[|bytes| - 1];
      BigEndianOfNumber(init);
      assert (Number(init) * 256 + last) / 256 == Number(init) && (Number(init) * 256 + last) % 256 == last;
      assert bytes == init + [last];
    }
  }

  /** Two's complement of 64-bit integers. */
  predicate Fits64Signed(value: int) {
    -0x8000_0000_0000_0000 <= value < 0x8000_0000_0000_0000
  }

  function Unsigned(value: int): nat
    requires Fits64Signed(value)
  {
    if value < 0 then value + 0x1_0000_0000_0000_0000 else value
  }

  function Signed(value: nat): int {
    if value < 0x8000_0000_0000_0000 then value else value - 0x1_0000_0000_0000_0000
  }
}

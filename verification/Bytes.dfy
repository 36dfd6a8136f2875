/** Bytes and the little-endian integers that both sides of the wire write and read. */
module Bytes {
  newtype byte = b: int | 0 <= b < 0x100

  type Sample = seq<byte>

  const U16_LIMIT: nat := 0x1_0000
  const U32_LIMIT: nat := 0x1_0000_0000
  const U64_LIMIT: nat := 0x1_0000_0000_0000_0000

  function Le(value: nat, width: nat): (bytes: Sample)
    ensures |bytes| == width
  {
    if width == 0 then [] else [(value % 0x100) as byte] + Le(value / 0x100, width - 1)
  }

  function FromLe(bytes: Sample): nat {
    if bytes == [] then 0 else bytes[0] as nat + 0x100 * FromLe(bytes[1..])
  }

  function Limit(width: nat): (limit: nat)
    ensures limit > 0
  {
    if width == 0 then 1 else 0x100 * Limit(width - 1)
  }

  /** Reading what was written gives the value back, as long as it fits the width. */
  lemma {:induction false} FromLeOfLe(value: nat, width: nat)
    requires value < Limit(width)
    ensures FromLe(Le(value, width)) == value
  {
    if width > 0 {
      FromLeOfLe(value / 0x100, width - 1);
      assert Le(value, width)[1..] == Le(value / 0x100, width - 1);
    }
  }

  /** Writing what was read gives the bytes back, so a field has one spelling per value. */
  lemma {:induction false} LeOfFromLe(bytes: Sample)
    ensures FromLe(bytes) < Limit(|bytes|)
    ensures Le(FromLe(bytes), |bytes|) == bytes
  {
    if bytes != [] {
      LeOfFromLe(bytes[1..]);
      assert FromLe(bytes) % 0x100 == bytes[0] as nat;
      assert FromLe(bytes) / 0x100 == FromLe(bytes[1..]);
      assert [bytes[0]] + bytes[1..] == bytes;
    }
  }

  lemma Limits()
    ensures Limit(2) == U16_LIMIT && Limit(4) == U32_LIMIT && Limit(8) == U64_LIMIT
  {
    assert Limit(2) == 0x100 * Limit(1) == 0x100 * (0x100 * Limit(0));
    assert Limit(4) == 0x100 * Limit(3) == 0x100 * (0x100 * Limit(2));
    assert Limit(6) == 0x100 * Limit(5) == 0x100 * (0x100 * Limit(4));
    assert Limit(8) == 0x100 * Limit(7) == 0x100 * (0x100 * Limit(6));
  }
}

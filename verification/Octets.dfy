/** Bytes, and numbers written in them. */
module Octets {
  type Byte = b: int | 0 <= b < 256

  type Bytes = seq<Byte>

  const INT_MAX: nat := 0x7FFF_FFFF

  // Numbers in base 256

  function BigEndian(v: nat): (s: Bytes) {
    if v == 0 then [] else BigEndian(v / 256) + [v % 256]
  }

  function Number(s: Bytes): nat {
    if s == [] then 0 else 256 * Number(s[..|s| - 1]) + s[|s| - 1]
  }

  lemma {:induction false} NumberOfBigEndian(v: nat)
    ensures Number(BigEndian(v)) == v
  {
    if v == 0 {
    } else {
      NumberOfBigEndian(v / 256);
      assert BigEndian(v)[..|BigEndian(v)| - 1] == BigEndian(v / 256);
    }
  }

  function Power(b: nat, n: nat): nat {
    if n == 0 then 1 else b * Power(b, n - 1)
  }

  lemma {:induction false} BigEndianLength(v: nat, n: nat)
    requires v < Power(256, n)
    ensures |BigEndian(v)| <= n
  {
    if v == 0 {
    } else {
      BigEndianLength(v / 256, n - 1);
    }
  }

  lemma IntBytes(v: nat)
    requires v <= INT_MAX
    ensures |BigEndian(v)| <= 4
  {
    assert Power(256, 1) == 256 && Power(256, 2) == 65536;
    assert Power(256, 3) == 0x100_0000;
    assert Power(256, 4) == 0x1_0000_0000;
    BigEndianLength(v, 4);
  }
}

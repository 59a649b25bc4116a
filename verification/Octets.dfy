/** Octets and fixed-width unsigned integers, as the C and Go code uses them. */
module Octets {

  newtype Byte = x: int | 0 <= x < 0x100

  type Bytes = seq<Byte>

  const TWO32 := 0x1_0000_0000
  const TWO64 := 0x1_0000_0000_0000_0000

  type Uint32 = x: int | 0 <= x < 0x1_0000_0000

  /** The octets of a text whose characters stand for one octet each. */
  function Ascii(s: string): (r: Bytes)
    ensures |r| == |s| && forall i :: 0 <= i < |s| ==> r[i] as int == s[i] as int % 0x100
  {
    seq(|s|, i requires 0 <= i < |s| => (s[i] as int % 0x100) as Byte)
  }

  // Big-endian, most significant octet first.

  function PutUint32(n: Uint32): (r: Bytes)
    ensures |r| == 4
  {
    var n1 := n / 0x100;
    var n2 := n1 / 0x100;
    [(n2 / 0x100) as Byte, (n2 % 0x100) as Byte, (n1 % 0x100) as Byte, (n % 0x100) as Byte]
  }

  function Uint32At(b: Bytes): (n: Uint32)
    requires |b| == 4
  {
    b[0] as int * 0x100_0000 + b[1] as int * 0x1_0000 + b[2] as int * 0x100 + b[3] as int
  }

  /** The octets weigh 2^24, 2^16, 2^8 and 1. */
  lemma MostSignificantFirst(n: Uint32)
    ensures var b := PutUint32(n);
      b[0] as int * 0x100_0000 + b[1] as int * 0x1_0000 + b[2] as int * 0x100 + b[3] as int == n
  {
    var n1 := n / 0x100;
    var n2 := n1 / 0x100;
    assert n == n1 * 0x100 + n % 0x100 && n1 == n2 * 0x100 + n1 % 0x100 && n2 == n2 / 0x100 * 0x100 + n2 % 0x100;
  }

  lemma Uint32RoundTrip(n: Uint32)
    ensures Uint32At(PutUint32(n)) == n
  {
    var n1 := n / 0x100;
    var n2 := n1 / 0x100;
    assert n == n1 * 0x100 + n % 0x100 && n1 == n2 * 0x100 + n1 % 0x100 && n2 == n2 / 0x100 * 0x100 + n2 % 0x100;
  }
}

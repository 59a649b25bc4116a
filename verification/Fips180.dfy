/** SHA-256 as sections 4.1.2, 4.2.2, 5.1.1, 5.3.3 and 6.2.2 of FIPS 180-4 define it. */
module Fips180 {
  import opened Octets

  const BLOCK := 64

  type Word = Uint32

  type HashValue = h: seq<Word> | |h| == 8 witness seq(8, _ => 0)

  datatype Vars = Vars(a: Word, b: Word, c: Word, d: Word, e: Word, f: Word, g: Word, h: Word)

  const K0: seq<Word> := [0x428A2F98, 0x71374491, 0xB5C0FBCF, 0xE9B5DBA5, 0x3956C25B, 0x59F111F1, 0x923F82A4, 0xAB1C5ED5]
  const K1: seq<Word> := [0xD807AA98, 0x12835B01, 0x243185BE, 0x550C7DC3, 0x72BE5D74, 0x80DEB1FE, 0x9BDC06A7, 0xC19BF174]
  const K2: seq<Word> := [0xE49B69C1, 0xEFBE4786, 0x0FC19DC6, 0x240CA1CC, 0x2DE92C6F, 0x4A7484AA, 0x5CB0A9DC, 0x76F988DA]
  const K3: seq<Word> := [0x983E5152, 0xA831C66D, 0xB00327C8, 0xBF597FC7, 0xC6E00BF3, 0xD5A79147, 0x06CA6351, 0x14292967]
  const K4: seq<Word> := [0x27B70A85, 0x2E1B2138, 0x4D2C6DFC, 0x53380D13, 0x650A7354, 0x766A0ABB, 0x81C2C92E, 0x92722C85]
  const K5: seq<Word> := [0xA2BFE8A1, 0xA81A664B, 0xC24B8B70, 0xC76C51A3, 0xD192E819, 0xD6990624, 0xF40E3585, 0x106AA070]
  const K6: seq<Word> := [0x19A4C116, 0x1E376C08, 0x2748774C, 0x34B0BCB5, 0x391C0CB3, 0x4ED8AA4A, 0x5B9CCA4F, 0x682E6FF3]
  const K7: seq<Word> := [0x748F82EE, 0x78A5636F, 0x84C87814, 0x8CC70208, 0x90BEFFFA, 0xA4506CEB, 0xBEF9A3F7, 0xC67178F2]

  const K: seq<Word> := K0 + K1 + K2 + K3 + K4 + K5 + K6 + K7

  const H0: HashValue := [
    0x6A09E667, 0xBB67AE85, 0x3C6EF372, 0xA54FF53A, 0x510E527F, 0x9B05688C, 0x1F83D9AB, 0x5BE0CD19
  ]

  /** Addition modulo 2^32. */
  function Add(x: Word, y: Word): Word { (x + y) % TWO32 }

  function ChBits(p: bv32, q: bv32, r: bv32): bv32 { (p & q) ^ (!p & r) }

  function Ch(x: Word, y: Word, z: Word): Word { ChBits(x as bv32, y as bv32, z as bv32) as Word }

  function MajBits(p: bv32, q: bv32, r: bv32): bv32 { (p & q) ^ (p & r) ^ (q & r) }

  function Maj(x: Word, y: Word, z: Word): Word { MajBits(x as bv32, y as bv32, z as bv32) as Word }

  function BigSigma0Bits(b: bv32): bv32 { b.RotateRight(2) ^ b.RotateRight(13) ^ b.RotateRight(22) }

  function BigSigma0(x: Word): Word { BigSigma0Bits(x as bv32) as Word }

  function BigSigma1Bits(b: bv32): bv32 { b.RotateRight(6) ^ b.RotateRight(11) ^ b.RotateRight(25) }

  function BigSigma1(x: Word): Word { BigSigma1Bits(x as bv32) as Word }

  function SmallSigma0Bits(b: bv32): bv32 { b.RotateRight(7) ^ b.RotateRight(18) ^ (b >> 3) }

  function SmallSigma0(x: Word): Word { SmallSigma0Bits(x as bv32) as Word }

  function SmallSigma1Bits(b: bv32): bv32 { b.RotateRight(17) ^ b.RotateRight(19) ^ (b >> 10) }

  function SmallSigma1(x: Word): Word { SmallSigma1Bits(x as bv32) as Word }

  /** The first t words of the message schedule. */
  function Words(block: Bytes, t: nat): (w: seq<Word>)
    requires |block| == BLOCK
    ensures |w| == t
  {
    if t == 0 then []
    else
      var w := Words(block, t - 1);
      w + [if t <= 16 then Uint32At(block[4 * (t - 1)..4 * t])
           else Add(Add(Add(SmallSigma1(w[t - 3]), w[t - 8]), SmallSigma0(w[t - 16])), w[t - 17])]
  }

  /** Shorter schedules are the fronts of longer ones. */
  lemma {:induction false} SchedulesAreFronts(block: Bytes, s: nat, t: nat)
    requires |block| == BLOCK && s <= t
    ensures Words(block, t)[..s] == Words(block, s)
  {
    hide Add, SmallSigma0, SmallSigma1;
    if s == t {
      assert Words(block, t)[..t] == Words(block, t);
    } else {
      SchedulesAreFronts(block, s, t - 1);
      assert Words(block, t)[..t - 1] == Words(block, t - 1);
    }
  }

  /** The schedule of section 6.2.2 in its own indices: sixteen words of the block, then the recurrence. */
  lemma ScheduleRecurrence(block: Bytes, n: nat, t: nat)
    requires |block| == BLOCK && t < n
    ensures var w := Words(block, n);
      w[t] == if t < 16 then Uint32At(block[4 * t..4 * t + 4])
              else Add(Add(Add(SmallSigma1(w[t - 2]), w[t - 7]), SmallSigma0(w[t - 15])), w[t - 16])
  {
    hide Add, SmallSigma0, SmallSigma1, Uint32At;
    SchedulesAreFronts(block, t, n);
    SchedulesAreFronts(block, t + 1, n);
    var w, front := Words(block, n), Words(block, t);
    assert w[t] == w[..t + 1][t];
    if t >= 16 {
      assert w[t - 2] == front[t - 2] && w[t - 7] == front[t - 7] && w[t - 15] == front[t - 15] && w[t - 16] == front[t - 16];
    }
  }

  function Round(v: Vars, k: Word, w: Word): Vars {
    var t1 := Add(Add(Add(Add(v.h, BigSigma1(v.e)), Ch(v.e, v.f, v.g)), k), w);
    var t2 := Add(BigSigma0(v.a), Maj(v.a, v.b, v.c));
    Vars(Add(t1, t2), v.a, v.b, v.c, Add(v.d, t1), v.e, v.f, v.g)
  }

  /** The working variables after the first t rounds. */
  function Rounds(v: Vars, w: seq<Word>, t: nat): Vars
    requires t <= |w| == |K|
  {
    if t == 0 then v else Round(Rounds(v, w, t - 1), K[t - 1], w[t - 1])
  }

  function Start(h: HashValue): Vars {
    Vars(h[0], h[1], h[2], h[3], h[4], h[5], h[6], h[7])
  }

  function Compress(h: HashValue, block: Bytes): HashValue
    requires |block| == BLOCK
  {
    var v := Rounds(Start(h), Words(block, |K|), |K|);
    [Add(h[0], v.a), Add(h[1], v.b), Add(h[2], v.c), Add(h[3], v.d),
     Add(h[4], v.e), Add(h[5], v.f), Add(h[6], v.g), Add(h[7], v.h)]
  }

  /** The hash value after the complete blocks of some data; a shorter tail is not looked at. */
  function Blocks(h: HashValue, data: Bytes): HashValue
    decreases |data|
  {
    if |data| < BLOCK then h else Blocks(Compress(h, data[..BLOCK]), data[BLOCK..])
  }

  /** A length below 2^64 as eight octets. */
  function Length64(bits: nat): (r: Bytes)
    requires bits < TWO64
    ensures |r| == 8
  {
    PutUint32(bits / TWO32) + PutUint32(bits % TWO32)
  }

  /** The number of zero octets after the 0x80. */
  function ZeroCount(n: nat): (z: nat)
    ensures (n + 1 + z) % BLOCK == 56 && z < BLOCK
    ensures n + 1 + z + 8 == ((n + 8) / BLOCK + 1) * BLOCK
  {
    (55 - n) % BLOCK
  }

  function Padded(m: Bytes): (r: Bytes)
    requires 8 * |m| < TWO64
    ensures |r| == ((|m| + 8) / BLOCK + 1) * BLOCK
  {
    m + [0x80] + seq(ZeroCount(|m|), _ => 0) + Length64(8 * |m|)
  }

  /** Four octets as a number, the most significant one first. */
  function Weight(b: Bytes): int
    requires |b| == 4
  {
    b[0] as int * 0x100_0000 + b[1] as int * 0x1_0000 + b[2] as int * 0x100 + b[3] as int
  }

  lemma LengthWeighs(bits: nat)
    requires bits < TWO64
    ensures Weight(Length64(bits)[..4]) * TWO32 + Weight(Length64(bits)[4..]) == bits
  {
    hide PutUint32;
    MostSignificantFirst(bits / TWO32);
    MostSignificantFirst(bits % TWO32);
    assert Length64(bits)[..4] == PutUint32(bits / TWO32) && Length64(bits)[4..] == PutUint32(bits % TWO32);
  }

  /** The message, a one bit, zeros up to eight octets before the end of a block, and there the length in bits. */
  lemma PaddedLayout(m: Bytes)
    requires 8 * |m| < TWO64
    ensures var p := Padded(m);
      && |p| % 64 == 0 && |m| + 9 <= |p| < |m| + 9 + 64
      && p[..|m| + 1] == m + [0x80] && (forall i :: |m| < i < |p| - 8 ==> p[i] == 0)
      && Weight(p[|p| - 8..|p| - 4]) * TWO32 + Weight(p[|p| - 4..]) == 8 * |m|
  {
    hide Length64, Weight, ZeroCount;
    var p, zeros, length := Padded(m), seq(ZeroCount(|m|), _ => 0 as Byte), Length64(8 * |m|);
    LengthWeighs(8 * |m|);
    assert p == (m + [0x80]) + zeros + length;
    assert p[|p| - 8..|p| - 4] == length[..4] && p[|p| - 4..] == length[4..];
  }

  /** The first n words one after the other, most significant octet first. */
  function WordOctets(h: HashValue, n: nat): (r: Bytes)
    requires n <= 8
    ensures |r| == 4 * n
  {
    if n == 0 then [] else WordOctets(h, n - 1) + PutUint32(h[n - 1])
  }

  function Sha256(m: Bytes): (digest: Bytes)
    requires 8 * |m| < TWO64
    ensures |digest| == 32
  {
    WordOctets(Blocks(H0, Padded(m)), 8)
  }

  /** Complete blocks only. */
  ghost predicate Whole(data: Bytes) { |data| % BLOCK == 0 }

  /** Hashing whole blocks, then more, is hashing them together. */
  lemma {:induction false} BlocksAppend(h: HashValue, a: Bytes, b: Bytes)
    requires Whole(a)
    ensures Blocks(h, a + b) == Blocks(Blocks(h, a), b)
    decreases |a|
  {
    hide Compress;
    if a == [] {
      assert a + b == b;
    } else {
      assert (a + b)[..BLOCK] == a[..BLOCK] && (a + b)[BLOCK..] == a[BLOCK..] + b;
      BlocksAppend(Compress(h, a[..BLOCK]), a[BLOCK..], b);
    }
  }
}

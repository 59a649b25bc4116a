/**
 Key derivation (server/storage/storage.go): section 5.2 of RFC 8018, and the
 nested loops that compute it, for any pseudorandom function of 32 octets.
 */
module Pbkdf2 {
  import opened Octets

  const H_LEN := 32

  type PrfFunction = (Bytes, Bytes) -> Bytes

  ghost predicate IsPrf(prf: PrfFunction) {
    forall key, data :: |prf(key, data)| == H_LEN
  }

  function XorBits(a: bv8, b: bv8): bv8 { a ^ b }

  function XorOctet(a: Byte, b: Byte): Byte { XorBits(a as bv8, b as bv8) as Byte }

  /** Each bit of the exclusive or is set exactly when the two bits differ. */
  lemma XorBitByBit(a: bv8, b: bv8, bit: bv8)
    requires bit != 0 && bit & (bit - 1) == 0
    ensures XorBits(a, b) & bit != 0 <==> (a & bit != 0) != (b & bit != 0)
  {
  }

  /** The first octets that the function is applied to are the salt and the block's number, most significant octet first. */
  lemma FirstIsSaltAndNumber(prf: PrfFunction, p: Bytes, s: Bytes, i: nat)
    requires IsPrf(prf) && i < 0x100
    ensures U(prf, p, s, i, 1) == prf(p, s + [0, 0, 0, i as Byte])
  {
    assert BlockIndex(i) == [0, 0, 0, i as Byte];
  }

  function Xor(a: Bytes, b: Bytes): (r: Bytes)
    requires |a| == |b|
    ensures |r| == |a| && forall k :: 0 <= k < |a| ==> r[k] == XorOctet(a[k], b[k])
  {
    seq(|a|, k requires 0 <= k < |a| => XorOctet(a[k], b[k]))
  }

  /** INT (i): the block index as four octets. */
  function BlockIndex(i: nat): Bytes { PutUint32(i % TWO32) }

  /** U_j of block i. */
  ghost function U(prf: PrfFunction, p: Bytes, s: Bytes, i: nat, j: nat): (u: Bytes)
    requires IsPrf(prf) && j >= 1
    ensures |u| == H_LEN
  {
    if j == 1 then prf(p, s + BlockIndex(i)) else prf(p, U(prf, p, s, i, j - 1))
  }

  /** F (P, S, c, i): the exclusive or of U_1 to U_c. */
  ghost function F(prf: PrfFunction, p: Bytes, s: Bytes, c: nat, i: nat): (t: Bytes)
    requires IsPrf(prf) && c >= 1
    ensures |t| == H_LEN
  {
    if c == 1 then U(prf, p, s, i, 1) else Xor(F(prf, p, s, c - 1, i), U(prf, p, s, i, c))
  }

  /** T_1 to T_l one after the other. */
  ghost function Concatenated(prf: PrfFunction, p: Bytes, s: Bytes, c: nat, l: nat): (r: Bytes)
    requires IsPrf(prf) && c >= 1
    ensures |r| == H_LEN * l
  {
    if l == 0 then [] else Concatenated(prf, p, s, c, l - 1) + F(prf, p, s, c, l)
  }

  /** PBKDF2 (P, S, c, dkLen). */
  ghost function DerivedKey(prf: PrfFunction, p: Bytes, s: Bytes, c: nat, dkLen: nat): (dk: Bytes)
    requires IsPrf(prf) && c >= 1
    ensures |dk| == dkLen
  {
    Concatenated(prf, p, s, c, (dkLen + H_LEN - 1) / H_LEN)[..dkLen]
  }

  /** Any count below one iterates once, as the loop over the further iterations is then empty. */
  function Iterations(iterations: int): nat { if iterations < 1 then 1 else iterations }

  method XorInto(t: array<Byte>, u: Bytes)
    requires t.Length == |u|
    modifies t
    ensures t[..] == Xor(old(t[..]), u)
  {
    hide XorOctet;
    for j := 0 to t.Length
      invariant forall k :: 0 <= k < j ==> t[k] == XorOctet(old(t[k]), u[k])
      invariant forall k :: j <= k < t.Length ==> t[k] == old(t[k])
    {
      t[j] := XorOctet(t[j], u[j]);
    }
  }

  method DeriveBlock(prf: PrfFunction, password: Bytes, salt: Bytes, iterations: int, block: nat) returns (r: Bytes)
    requires IsPrf(prf)
    ensures r == F(prf, password, salt, Iterations(iterations), block)
  {
    hide Xor, XorOctet, BlockIndex;
    var u := prf(password, salt + BlockIndex(block));
    var t := new Byte[|u|](k requires 0 <= k < |u| => u[k]);
    assert t[..] == u;
    var i := 1;
    while i < iterations
      invariant 1 <= i <= Iterations(iterations)
      invariant u == U(prf, password, salt, block, i) && t[..] == F(prf, password, salt, i, block)
    {
      u := prf(password, u);
      XorInto(t, u);
      i := i + 1;
    }
    r := t[..];
  }

  method Derive(prf: PrfFunction, password: Bytes, salt: Bytes, iterations: int, keyLen: nat) returns (dk: Bytes)
    requires IsPrf(prf)
    ensures dk == DerivedKey(prf, password, salt, Iterations(iterations), keyLen)
  {
    hide F;
    var numBlocks := (keyLen + H_LEN - 1) / H_LEN;
    var out: Bytes := [];
    for block := 1 to numBlocks + 1
      invariant out == Concatenated(prf, password, salt, Iterations(iterations), block - 1)
    {
      var t := DeriveBlock(prf, password, salt, iterations, block);
      out := out + t;
    }
    dk := out[..keyLen];
  }
}

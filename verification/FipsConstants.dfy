/**
 Where the constants of SHA-256 come from (sections 4.2.2 and 5.3.3 of FIPS 180-4): the first
 32 bits of the fractional parts of the roots of the first primes; and what its two choice
 functions (section 4.1.2) do to each bit.
 */
module FipsConstants {
  import opened Fips180
  import opened Octets

  function Cube(n: nat): nat { n * n * n }

  /** The number is what follows the binary point of the cube root of p, cut after 32 bits. */
  predicate CubeRootBits(p: nat, whole: nat, fraction: nat) {
    fraction < TWO32 && Cube(whole * TWO32 + fraction) < p * Cube(TWO32) < Cube(whole * TWO32 + fraction + 1)
  }

  predicate SquareRootBits(p: nat, whole: nat, fraction: nat) {
    var n := whole * TWO32 + fraction;
    fraction < TWO32 && n * n < p * TWO32 * TWO32 < (n + 1) * (n + 1)
  }

  lemma Row0()
    ensures CubeRootBits(2, 1, K0[0]) && CubeRootBits(3, 1, K0[1]) && CubeRootBits(5, 1, K0[2]) && CubeRootBits(7, 1, K0[3])
    ensures CubeRootBits(11, 2, K0[4]) && CubeRootBits(13, 2, K0[5]) && CubeRootBits(17, 2, K0[6]) && CubeRootBits(19, 2, K0[7])
  {
  }

  lemma Row1()
    ensures CubeRootBits(23, 2, K1[0]) && CubeRootBits(29, 3, K1[1]) && CubeRootBits(31, 3, K1[2]) && CubeRootBits(37, 3, K1[3])
    ensures CubeRootBits(41, 3, K1[4]) && CubeRootBits(43, 3, K1[5]) && CubeRootBits(47, 3, K1[6]) && CubeRootBits(53, 3, K1[7])
  {
  }

  lemma Row2()
    ensures CubeRootBits(59, 3, K2[0]) && CubeRootBits(61, 3, K2[1]) && CubeRootBits(67, 4, K2[2]) && CubeRootBits(71, 4, K2[3])
    ensures CubeRootBits(73, 4, K2[4]) && CubeRootBits(79, 4, K2[5]) && CubeRootBits(83, 4, K2[6]) && CubeRootBits(89, 4, K2[7])
  {
  }

  lemma Row3()
    ensures CubeRootBits(97, 4, K3[0]) && CubeRootBits(101, 4, K3[1]) && CubeRootBits(103, 4, K3[2]) && CubeRootBits(107, 4, K3[3])
    ensures CubeRootBits(109, 4, K3[4]) && CubeRootBits(113, 4, K3[5]) && CubeRootBits(127, 5, K3[6]) && CubeRootBits(131, 5, K3[7])
  {
  }

  lemma Row4()
    ensures CubeRootBits(137, 5, K4[0]) && CubeRootBits(139, 5, K4[1]) && CubeRootBits(149, 5, K4[2]) && CubeRootBits(151, 5, K4[3])
    ensures CubeRootBits(157, 5, K4[4]) && CubeRootBits(163, 5, K4[5]) && CubeRootBits(167, 5, K4[6]) && CubeRootBits(173, 5, K4[7])
  {
  }

  lemma Row5()
    ensures CubeRootBits(179, 5, K5[0]) && CubeRootBits(181, 5, K5[1]) && CubeRootBits(191, 5, K5[2]) && CubeRootBits(193, 5, K5[3])
    ensures CubeRootBits(197, 5, K5[4]) && CubeRootBits(199, 5, K5[5]) && CubeRootBits(211, 5, K5[6]) && CubeRootBits(223, 6, K5[7])
  {
  }

  lemma Row6()
    ensures CubeRootBits(227, 6, K6[0]) && CubeRootBits(229, 6, K6[1]) && CubeRootBits(233, 6, K6[2]) && CubeRootBits(239, 6, K6[3])
    ensures CubeRootBits(241, 6, K6[4]) && CubeRootBits(251, 6, K6[5]) && CubeRootBits(257, 6, K6[6]) && CubeRootBits(263, 6, K6[7])
  {
  }

  lemma Row7()
    ensures CubeRootBits(269, 6, K7[0]) && CubeRootBits(271, 6, K7[1]) && CubeRootBits(277, 6, K7[2]) && CubeRootBits(281, 6, K7[3])
    ensures CubeRootBits(283, 6, K7[4]) && CubeRootBits(293, 6, K7[5]) && CubeRootBits(307, 6, K7[6]) && CubeRootBits(311, 6, K7[7])
  {
  }

  /** The rows are the table, one after the other. */
  lemma RowsInOrder(j: nat)
    requires j < 8
    ensures K[j] == K0[j] && K[8 + j] == K1[j] && K[16 + j] == K2[j] && K[24 + j] == K3[j]
    ensures K[32 + j] == K4[j] && K[40 + j] == K5[j] && K[48 + j] == K6[j] && K[56 + j] == K7[j]
  {
    var front, back := K0 + K1 + K2 + K3, K4 + K5 + K6 + K7;
    RowsOf(K0, K1, K2, K3, j);
    RowsOf(K4, K5, K6, K7, j);
    assert K == front + back;
    assert K[32 + j] == back[j] && K[40 + j] == back[8 + j] && K[48 + j] == back[16 + j] && K[56 + j] == back[24 + j];
  }

  lemma RowsOf(a: seq<Word>, b: seq<Word>, c: seq<Word>, d: seq<Word>, j: nat)
    requires |a| == |b| == |c| == |d| == 8 && j < 8
    ensures var r := a + b + c + d; r[j] == a[j] && r[8 + j] == b[j] && r[16 + j] == c[j] && r[24 + j] == d[j]
  {
  }

  lemma InitialHash()
    ensures SquareRootBits(2, 1, H0[0]) && SquareRootBits(3, 1, H0[1]) && SquareRootBits(5, 2, H0[2]) && SquareRootBits(7, 2, H0[3])
    ensures SquareRootBits(11, 3, H0[4]) && SquareRootBits(13, 3, H0[5]) && SquareRootBits(17, 4, H0[6]) && SquareRootBits(19, 4, H0[7])
  {
  }

  // ----- The functions, bit by bit -----

  /** Where x has ones the result is y, where it has zeros it is z. */
  lemma ChoosesBitByBit(x: bv32, y: bv32, z: bv32)
    ensures ChBits(x, y, z) & x == y & x && ChBits(x, y, z) & !x == z & !x
  {
  }

  /** Where x and y agree the result is theirs, where they differ it is z. */
  lemma MajorityBitByBit(x: bv32, y: bv32, z: bv32)
    ensures MajBits(x, y, z) & !(x ^ y) == x & !(x ^ y) && MajBits(x, y, z) & (x ^ y) == z & (x ^ y)
  {
  }
}

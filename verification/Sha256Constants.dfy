/**
 Where the constants of SHA-256 come from (sections 4.2.2 and 5.3.3 of FIPS 180-4): a
 word holds the first 32 fractional bits of a root of a prime.
 */
module Sha256Constants {
  import opened Sha256

  /** The first 64 primes. */
  const PRIMES: seq<seq<nat>> := [
    [2, 3, 5, 7, 11, 13, 17, 19],
    [23, 29, 31, 37, 41, 43, 47, 53],
    [59, 61, 67, 71, 73, 79, 83, 89],
    [97, 101, 103, 107, 109, 113, 127, 131],
    [137, 139, 149, 151, 157, 163, 167, 173],
    [179, 181, 191, 193, 197, 199, 211, 223],
    [227, 229, 233, 239, 241, 251, 257, 263],
    [269, 271, 277, 281, 283, 293, 307, 311]
  ]

  function Prime(t: nat): nat
    requires t < 64
  {
    PRIMES[t / 8][t % 8]
  }

  const TWO_32 := 0x1_0000_0000

  /** With the whole part before it, the largest number of 32 binary places whose square does not pass `p`. */
  ghost predicate SquareRoot(p: nat, whole: nat, bits: bv32) {
    var n := whole * TWO_32 + bits as nat;
    n * n <= p * TWO_32 * TWO_32 < (n + 1) * (n + 1)
  }

  ghost predicate CubeRoot(p: nat, whole: nat, bits: bv32) {
    var n := whole * TWO_32 + bits as nat;
    n * n * n <= p * TWO_32 * TWO_32 * TWO_32 < (n + 1) * (n + 1) * (n + 1)
  }

  ghost predicate SquareFits(t: nat) {
    t < 8 && exists whole: nat :: SquareRoot(Prime(t), whole, INIT[t])
  }

  ghost predicate CubeFits(t: nat) {
    t < 64 && exists whole: nat :: CubeRoot(Prime(t), whole, RoundConstant(t))
  }

  lemma {:induction false} Square(t: nat, p: nat, n: nat, c: bv32)
    requires t < 8 && Prime(t) == p && INIT[t] == c && n % TWO_32 == c as nat
    requires n * n <= p * TWO_32 * TWO_32 < (n + 1) * (n + 1)
    ensures SquareFits(t)
  {
    assert n == n / TWO_32 * TWO_32 + c as nat;
    assert SquareRoot(p, n / TWO_32, c);
  }

  lemma {:induction false} Cube(t: nat, p: nat, n: nat, c: bv32)
    requires t < 64 && Prime(t) == p && RoundConstant(t) == c && n % TWO_32 == c as nat
    requires n * n * n <= p * TWO_32 * TWO_32 * TWO_32 < (n + 1) * (n + 1) * (n + 1)
    ensures CubeFits(t)
  {
    assert n == n / TWO_32 * TWO_32 + c as nat;
    assert CubeRoot(p, n / TWO_32, c);
  }

  /** The initial hash value: square roots of the first eight primes. */
  lemma {:induction false} InitIsSquareRoots(t: nat)
    requires t < 8
    ensures SquareFits(t)
  {
    hide SquareFits;
    Square(0, 2, 0x1_6a09e667, 0x6a09e667);
    Square(1, 3, 0x1_bb67ae85, 0xbb67ae85);
    Square(2, 5, 0x2_3c6ef372, 0x3c6ef372);
    Square(3, 7, 0x2_a54ff53a, 0xa54ff53a);
    Square(4, 11, 0x3_510e527f, 0x510e527f);
    Square(5, 13, 0x3_9b05688c, 0x9b05688c);
    Square(6, 17, 0x4_1f83d9ab, 0x1f83d9ab);
    Square(7, 19, 0x4_5be0cd19, 0x5be0cd19);
  }

  lemma {:induction false} CubesFrom0()
    ensures forall t: nat :: 0 <= t < 8 ==> CubeFits(t)
  {
    hide CubeFits;
    Cube(0, 2, 0x1_428a2f98, 0x428a2f98);
    Cube(1, 3, 0x1_71374491, 0x71374491);
    Cube(2, 5, 0x1_b5c0fbcf, 0xb5c0fbcf);
    Cube(3, 7, 0x1_e9b5dba5, 0xe9b5dba5);
    Cube(4, 11, 0x2_3956c25b, 0x3956c25b);
    Cube(5, 13, 0x2_59f111f1, 0x59f111f1);
    Cube(6, 17, 0x2_923f82a4, 0x923f82a4);
    Cube(7, 19, 0x2_ab1c5ed5, 0xab1c5ed5);
  }

  lemma {:induction false} CubesFrom8()
    ensures forall t: nat :: 8 <= t < 16 ==> CubeFits(t)
  {
    hide CubeFits;
    Cube(8, 23, 0x2_d807aa98, 0xd807aa98);
    Cube(9, 29, 0x3_12835b01, 0x12835b01);
    Cube(10, 31, 0x3_243185be, 0x243185be);
    Cube(11, 37, 0x3_550c7dc3, 0x550c7dc3);
    Cube(12, 41, 0x3_72be5d74, 0x72be5d74);
    Cube(13, 43, 0x3_80deb1fe, 0x80deb1fe);
    Cube(14, 47, 0x3_9bdc06a7, 0x9bdc06a7);
    Cube(15, 53, 0x3_c19bf174, 0xc19bf174);
  }

  lemma {:induction false} CubesFrom16()
    ensures forall t: nat :: 16 <= t < 24 ==> CubeFits(t)
  {
    hide CubeFits;
    Cube(16, 59, 0x3_e49b69c1, 0xe49b69c1);
    Cube(17, 61, 0x3_efbe4786, 0xefbe4786);
    Cube(18, 67, 0x4_0fc19dc6, 0x0fc19dc6);
    Cube(19, 71, 0x4_240ca1cc, 0x240ca1cc);
    Cube(20, 73, 0x4_2de92c6f, 0x2de92c6f);
    Cube(21, 79, 0x4_4a7484aa, 0x4a7484aa);
    Cube(22, 83, 0x4_5cb0a9dc, 0x5cb0a9dc);
    Cube(23, 89, 0x4_76f988da, 0x76f988da);
  }

  lemma {:induction false} CubesFrom24()
    ensures forall t: nat :: 24 <= t < 32 ==> CubeFits(t)
  {
    hide CubeFits;
    Cube(24, 97, 0x4_983e5152, 0x983e5152);
    Cube(25, 101, 0x4_a831c66d, 0xa831c66d);
    Cube(26, 103, 0x4_b00327c8, 0xb00327c8);
    Cube(27, 107, 0x4_bf597fc7, 0xbf597fc7);
    Cube(28, 109, 0x4_c6e00bf3, 0xc6e00bf3);
    Cube(29, 113, 0x4_d5a79147, 0xd5a79147);
    Cube(30, 127, 0x5_06ca6351, 0x06ca6351);
    Cube(31, 131, 0x5_14292967, 0x14292967);
  }

  lemma {:induction false} CubesFrom32()
    ensures forall t: nat :: 32 <= t < 40 ==> CubeFits(t)
  {
    hide CubeFits;
    Cube(32, 137, 0x5_27b70a85, 0x27b70a85);
    Cube(33, 139, 0x5_2e1b2138, 0x2e1b2138);
    Cube(34, 149, 0x5_4d2c6dfc, 0x4d2c6dfc);
    Cube(35, 151, 0x5_53380d13, 0x53380d13);
    Cube(36, 157, 0x5_650a7354, 0x650a7354);
    Cube(37, 163, 0x5_766a0abb, 0x766a0abb);
    Cube(38, 167, 0x5_81c2c92e, 0x81c2c92e);
    Cube(39, 173, 0x5_92722c85, 0x92722c85);
  }

  lemma {:induction false} CubesFrom40()
    ensures forall t: nat :: 40 <= t < 48 ==> CubeFits(t)
  {
    hide CubeFits;
    Cube(40, 179, 0x5_a2bfe8a1, 0xa2bfe8a1);
    Cube(41, 181, 0x5_a81a664b, 0xa81a664b);
    Cube(42, 191, 0x5_c24b8b70, 0xc24b8b70);
    Cube(43, 193, 0x5_c76c51a3, 0xc76c51a3);
    Cube(44, 197, 0x5_d192e819, 0xd192e819);
    Cube(45, 199, 0x5_d6990624, 0xd6990624);
    Cube(46, 211, 0x5_f40e3585, 0xf40e3585);
    Cube(47, 223, 0x6_106aa070, 0x106aa070);
  }

  lemma {:induction false} CubesFrom48()
    ensures forall t: nat :: 48 <= t < 56 ==> CubeFits(t)
  {
    hide CubeFits;
    Cube(48, 227, 0x6_19a4c116, 0x19a4c116);
    Cube(49, 229, 0x6_1e376c08, 0x1e376c08);
    Cube(50, 233, 0x6_2748774c, 0x2748774c);
    Cube(51, 239, 0x6_34b0bcb5, 0x34b0bcb5);
    Cube(52, 241, 0x6_391c0cb3, 0x391c0cb3);
    Cube(53, 251, 0x6_4ed8aa4a, 0x4ed8aa4a);
    Cube(54, 257, 0x6_5b9cca4f, 0x5b9cca4f);
    Cube(55, 263, 0x6_682e6ff3, 0x682e6ff3);
  }

  lemma {:induction false} CubesFrom56()
    ensures forall t: nat :: 56 <= t < 64 ==> CubeFits(t)
  {
    hide CubeFits;
    Cube(56, 269, 0x6_748f82ee, 0x748f82ee);
    Cube(57, 271, 0x6_78a5636f, 0x78a5636f);
    Cube(58, 277, 0x6_84c87814, 0x84c87814);
    Cube(59, 281, 0x6_8cc70208, 0x8cc70208);
    Cube(60, 283, 0x6_90befffa, 0x90befffa);
    Cube(61, 293, 0x6_a4506ceb, 0xa4506ceb);
    Cube(62, 307, 0x6_bef9a3f7, 0xbef9a3f7);
    Cube(63, 311, 0x6_c67178f2, 0xc67178f2);
  }

  /** The round constants: cube roots of all of them. */
  lemma {:induction false} RoundsAreCubeRoots(t: nat)
    requires t < 64
    ensures CubeFits(t)
  {
    hide CubeFits;
    CubesFrom0();
    CubesFrom8();
    CubesFrom16();
    CubesFrom24();
    CubesFrom32();
    CubesFrom40();
    CubesFrom48();
    CubesFrom56();
  }
}

/** The two constant tables of SHA-256, and where FIPS 180-4 says their digits come from. */
module Sha256Constants {

  type word32 = x: nat | x < 0x1_0000_0000

  const TWO_TO_64: nat := 0x1_0000_0000_0000_0000
  const TWO_TO_96: nat := 0x1_0000_0000_0000_0000_0000_0000

  function Square(x: nat): nat {
    x * x
  }

  function Cube(x: nat): nat {
    x * x * x
  }

  /** k holds the first 32 bits of the fractional part of the cube root of p; r is the integer part. */
  ghost predicate IsCubeRootWord(k: word32, p: nat, r: nat) {
    Cube(r * 0x1_0000_0000 + k) <= p * TWO_TO_96 < Cube(r * 0x1_0000_0000 + k + 1)
  }

  ghost predicate IsSquareRootWord(k: word32, p: nat, r: nat) {
    Square(r * 0x1_0000_0000 + k) <= p * TWO_TO_64 < Square(r * 0x1_0000_0000 + k + 1)
  }

  ghost predicate FromCubeRoot(k: word32, p: nat) {
    exists r: nat :: IsCubeRootWord(k, p, r)
  }

  ghost predicate CubeRootTable(ks: seq<word32>, ps: seq<nat>) {
    && |ks| == |ps|
    && forall i :: 0 <= i < |ks| ==> FromCubeRoot(ks[i], ps[i])
  }

  // The 64 round constants, in rows of eight.

  const ROW0: seq<word32> :=
    [0x428a2f98, 0x71374491, 0xb5c0fbcf, 0xe9b5dba5, 0x3956c25b, 0x59f111f1, 0x923f82a4, 0xab1c5ed5]
  const ROW1: seq<word32> :=
    [0xd807aa98, 0x12835b01, 0x243185be, 0x550c7dc3, 0x72be5d74, 0x80deb1fe, 0x9bdc06a7, 0xc19bf174]
  const ROW2: seq<word32> :=
    [0xe49b69c1, 0xefbe4786, 0x0fc19dc6, 0x240ca1cc, 0x2de92c6f, 0x4a7484aa, 0x5cb0a9dc, 0x76f988da]
  const ROW3: seq<word32> :=
    [0x983e5152, 0xa831c66d, 0xb00327c8, 0xbf597fc7, 0xc6e00bf3, 0xd5a79147, 0x06ca6351, 0x14292967]
  const ROW4: seq<word32> :=
    [0x27b70a85, 0x2e1b2138, 0x4d2c6dfc, 0x53380d13, 0x650a7354, 0x766a0abb, 0x81c2c92e, 0x92722c85]
  const ROW5: seq<word32> :=
    [0xa2bfe8a1, 0xa81a664b, 0xc24b8b70, 0xc76c51a3, 0xd192e819, 0xd6990624, 0xf40e3585, 0x106aa070]
  const ROW6: seq<word32> :=
    [0x19a4c116, 0x1e376c08, 0x2748774c, 0x34b0bcb5, 0x391c0cb3, 0x4ed8aa4a, 0x5b9cca4f, 0x682e6ff3]
  const ROW7: seq<word32> :=
    [0x748f82ee, 0x78a5636f, 0x84c87814, 0x8cc70208, 0x90befffa, 0xa4506ceb, 0xbef9a3f7, 0xc67178f2]

  const ROUND_CONSTANTS: seq<word32> := ROW0 + ROW1 + ROW2 + ROW3 + ROW4 + ROW5 + ROW6 + ROW7

  // The first 64 primes, in rows of eight.
  const PRIMES0: seq<nat> := [2, 3, 5, 7, 11, 13, 17, 19]
  const PRIMES1: seq<nat> := [23, 29, 31, 37, 41, 43, 47, 53]
  const PRIMES2: seq<nat> := [59, 61, 67, 71, 73, 79, 83, 89]
  const PRIMES3: seq<nat> := [97, 101, 103, 107, 109, 113, 127, 131]
  const PRIMES4: seq<nat> := [137, 139, 149, 151, 157, 163, 167, 173]
  const PRIMES5: seq<nat> := [179, 181, 191, 193, 197, 199, 211, 223]
  const PRIMES6: seq<nat> := [227, 229, 233, 239, 241, 251, 257, 263]
  const PRIMES7: seq<nat> := [269, 271, 277, 281, 283, 293, 307, 311]

  const PRIMES: seq<nat> :=
    PRIMES0 + PRIMES1 + PRIMES2 + PRIMES3 + PRIMES4 + PRIMES5 + PRIMES6 + PRIMES7

  const INITIAL_WORDS: seq<word32> :=
    [0x6A09E667, 0xBB67AE85, 0x3C6EF372, 0xA54FF53A, 0x510E527F, 0x9B05688C, 0x1F83D9AB, 0x5BE0CD19]

  lemma Row0()
    ensures CubeRootTable(ROW0, PRIMES0)
  {
    assert IsCubeRootWord(ROW0[0], PRIMES0[0], 1);
    assert IsCubeRootWord(ROW0[1], PRIMES0[1], 1);
    assert IsCubeRootWord(ROW0[2], PRIMES0[2], 1);
    assert IsCubeRootWord(ROW0[3], PRIMES0[3], 1);
    assert IsCubeRootWord(ROW0[4], PRIMES0[4], 2);
    assert IsCubeRootWord(ROW0[5], PRIMES0[5], 2);
    assert IsCubeRootWord(ROW0[6], PRIMES0[6], 2);
    assert IsCubeRootWord(ROW0[7], PRIMES0[7], 2);
  }

  lemma Row1()
    ensures CubeRootTable(ROW1, PRIMES1)
  {
    assert IsCubeRootWord(ROW1[0], PRIMES1[0], 2);
    assert IsCubeRootWord(ROW1[1], PRIMES1[1], 3);
    assert IsCubeRootWord(ROW1[2], PRIMES1[2], 3);
    assert IsCubeRootWord(ROW1[3], PRIMES1[3], 3);
    assert IsCubeRootWord(ROW1[4], PRIMES1[4], 3);
    assert IsCubeRootWord(ROW1[5], PRIMES1[5], 3);
    assert IsCubeRootWord(ROW1[6], PRIMES1[6], 3);
    assert IsCubeRootWord(ROW1[7], PRIMES1[7], 3);
  }

  lemma Row2()
    ensures CubeRootTable(ROW2, PRIMES2)
  {
    assert IsCubeRootWord(ROW2[0], PRIMES2[0], 3);
    assert IsCubeRootWord(ROW2[1], PRIMES2[1], 3);
    assert IsCubeRootWord(ROW2[2], PRIMES2[2], 4);
    assert IsCubeRootWord(ROW2[3], PRIMES2[3], 4);
    assert IsCubeRootWord(ROW2[4], PRIMES2[4], 4);
    assert IsCubeRootWord(ROW2[5], PRIMES2[5], 4);
    assert IsCubeRootWord(ROW2[6], PRIMES2[6], 4);
    assert IsCubeRootWord(ROW2[7], PRIMES2[7], 4);
  }

  lemma Row3()
    ensures CubeRootTable(ROW3, PRIMES3)
  {
    assert IsCubeRootWord(ROW3[0], PRIMES3[0], 4);
    assert IsCubeRootWord(ROW3[1], PRIMES3[1], 4);
    assert IsCubeRootWord(ROW3[2], PRIMES3[2], 4);
    assert IsCubeRootWord(ROW3[3], PRIMES3[3], 4);
    assert IsCubeRootWord(ROW3[4], PRIMES3[4], 4);
    assert IsCubeRootWord(ROW3[5], PRIMES3[5], 4);
    assert IsCubeRootWord(ROW3[6], PRIMES3[6], 5);
    assert IsCubeRootWord(ROW3[7], PRIMES3[7], 5);
  }

  lemma Row4()
    ensures CubeRootTable(ROW4, PRIMES4)
  {
    assert IsCubeRootWord(ROW4[0], PRIMES4[0], 5);
    assert IsCubeRootWord(ROW4[1], PRIMES4[1], 5);
    assert IsCubeRootWord(ROW4[2], PRIMES4[2], 5);
    assert IsCubeRootWord(ROW4[3], PRIMES4[3], 5);
    assert IsCubeRootWord(ROW4[4], PRIMES4[4], 5);
    assert IsCubeRootWord(ROW4[5], PRIMES4[5], 5);
    assert IsCubeRootWord(ROW4[6], PRIMES4[6], 5);
    assert IsCubeRootWord(ROW4[7], PRIMES4[7], 5);
  }

  lemma Row5()
    ensures CubeRootTable(ROW5, PRIMES5)
  {
    assert IsCubeRootWord(ROW5[0], PRIMES5[0], 5);
    assert IsCubeRootWord(ROW5[1], PRIMES5[1], 5);
    assert IsCubeRootWord(ROW5[2], PRIMES5[2], 5);
    assert IsCubeRootWord(ROW5[3], PRIMES5[3], 5);
    assert IsCubeRootWord(ROW5[4], PRIMES5[4], 5);
    assert IsCubeRootWord(ROW5[5], PRIMES5[5], 5);
    assert IsCubeRootWord(ROW5[6], PRIMES5[6], 5);
    assert IsCubeRootWord(ROW5[7], PRIMES5[7], 6);
  }

  lemma Row6()
    ensures CubeRootTable(ROW6, PRIMES6)
  {
    assert IsCubeRootWord(ROW6[0], PRIMES6[0], 6);
    assert IsCubeRootWord(ROW6[1], PRIMES6[1], 6);
    assert IsCubeRootWord(ROW6[2], PRIMES6[2], 6);
    assert IsCubeRootWord(ROW6[3], PRIMES6[3], 6);
    assert IsCubeRootWord(ROW6[4], PRIMES6[4], 6);
    assert IsCubeRootWord(ROW6[5], PRIMES6[5], 6);
    assert IsCubeRootWord(ROW6[6], PRIMES6[6], 6);
    assert IsCubeRootWord(ROW6[7], PRIMES6[7], 6);
  }

  lemma Row7()
    ensures CubeRootTable(ROW7, PRIMES7)
  {
    assert IsCubeRootWord(ROW7[0], PRIMES7[0], 6);
    assert IsCubeRootWord(ROW7[1], PRIMES7[1], 6);
    assert IsCubeRootWord(ROW7[2], PRIMES7[2], 6);
    assert IsCubeRootWord(ROW7[3], PRIMES7[3], 6);
    assert IsCubeRootWord(ROW7[4], PRIMES7[4], 6);
    assert IsCubeRootWord(ROW7[5], PRIMES7[5], 6);
    assert IsCubeRootWord(ROW7[6], PRIMES7[6], 6);
    assert IsCubeRootWord(ROW7[7], PRIMES7[7], 6);
  }

  lemma AppendTables(ks: seq<word32>, ps: seq<nat>, ks': seq<word32>, ps': seq<nat>)
    requires CubeRootTable(ks, ps) && CubeRootTable(ks', ps')
    ensures CubeRootTable(ks + ks', ps + ps')
  {
    forall i | 0 <= i < |ks + ks'|
      ensures FromCubeRoot((ks + ks')[i], (ps + ps')[i])
    {
      if i < |ks| {
        assert FromCubeRoot(ks[i], ps[i]);
      } else {
        assert FromCubeRoot(ks'[i - |ks|], ps'[i - |ks|]);
      }
    }
  }

  /** Section 4.2.2: the round constants are cut from the cube roots of the first 64 primes. */
  lemma RoundConstantsAreCubeRoots()
    ensures |ROUND_CONSTANTS| == 64
    ensures CubeRootTable(ROUND_CONSTANTS, PRIMES)
  {
    Row0(); Row1(); Row2(); Row3(); Row4(); Row5(); Row6(); Row7();
    AppendTables(ROW0, PRIMES0, ROW1, PRIMES1);
    AppendTables(ROW0 + ROW1, PRIMES0 + PRIMES1, ROW2, PRIMES2);
    AppendTables(ROW0 + ROW1 + ROW2, PRIMES0 + PRIMES1 + PRIMES2, ROW3, PRIMES3);
    var ks, ps := ROW0 + ROW1 + ROW2 + ROW3, PRIMES0 + PRIMES1 + PRIMES2 + PRIMES3;
    AppendTables(ks, ps, ROW4, PRIMES4);
    AppendTables(ks + ROW4, ps + PRIMES4, ROW5, PRIMES5);
    AppendTables(ks + ROW4 + ROW5, ps + PRIMES4 + PRIMES5, ROW6, PRIMES6);
    AppendTables(ks + ROW4 + ROW5 + ROW6, ps + PRIMES4 + PRIMES5 + PRIMES6, ROW7, PRIMES7);
  }

  /** Section 5.3.3: the initial hash value is cut from the square roots of the first eight primes. */
  lemma InitialWordsAreSquareRoots()
    ensures |INITIAL_WORDS| == |PRIMES0| == 8
    ensures forall i :: 0 <= i < 8 ==> exists r: nat :: IsSquareRootWord(INITIAL_WORDS[i], PRIMES0[i], r)
  {
    assert IsSquareRootWord(INITIAL_WORDS[0], PRIMES0[0], 1);
    assert IsSquareRootWord(INITIAL_WORDS[1], PRIMES0[1], 1);
    assert IsSquareRootWord(INITIAL_WORDS[2], PRIMES0[2], 2);
    assert IsSquareRootWord(INITIAL_WORDS[3], PRIMES0[3], 2);
    assert IsSquareRootWord(INITIAL_WORDS[4], PRIMES0[4], 3);
    assert IsSquareRootWord(INITIAL_WORDS[5], PRIMES0[5], 3);
    assert IsSquareRootWord(INITIAL_WORDS[6], PRIMES0[6], 4);
    assert IsSquareRootWord(INITIAL_WORDS[7], PRIMES0[7], 4);
  }
}

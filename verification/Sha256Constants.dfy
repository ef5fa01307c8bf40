/** Where the constants of SHA-256 come from, and what its functions do with bits: sections
    4.1.2, 4.2.2 and 5.3.3 of FIPS 180-4. */
module Sha256Constants {
  import opened Sha256Spec

  /** The first 64 primes, in rows of eight. */
  const PRIMES: seq<seq<nat>> := [
    [2, 3, 5, 7, 11, 13, 17, 19],
    [23, 29, 31, 37, 41, 43, 47, 53],
    [59, 61, 67, 71, 73, 79, 83, 89],
    [97, 101, 103, 107, 109, 113, 127, 131],
    [137, 139, 149, 151, 157, 163, 167, 173],
    [179, 181, 191, 193, 197, 199, 211, 223],
    [227, 229, 233, 239, 241, 251, 257, 263],
    [269, 271, 277, 281, 283, 293, 307, 311]]

  function Prime(t: nat): nat
    requires t < 64
  {
    PRIMES[t / 8][t % 8]
  }

  // ---------- the constants ----------

  const UNIT: nat := 0x1_0000_0000

  /** `k` is the first 32 bits of the fractional part of the cube root of `p`, whose whole
      part is `r`. */
  predicate CubeRoot(r: nat, k: nat, p: nat) {
    var n := r * UNIT + k;
    n * n * n <= p * UNIT * UNIT * UNIT < (n + 1) * (n + 1) * (n + 1)
  }

  ghost predicate CubeFraction(k: nat, p: nat) {
    exists r: nat :: CubeRoot(r, k, p)
  }

  /** The same for the square root. */
  predicate SquareRoot(r: nat, h: nat, p: nat) {
    var n := r * UNIT + h;
    n * n <= p * UNIT * UNIT < (n + 1) * (n + 1)
  }

  ghost predicate SquareFraction(h: nat, p: nat) {
    exists r: nat :: SquareRoot(r, h, p)
  }

  lemma CubeRoots0(i: nat)
    requires i < 8
    ensures CubeFraction(K[0][i] as nat, PRIMES[0][i])
  {
    match i {
      case 0 => assert CubeRoot(1, 0x428a2f98, 2) && K[0][0] as nat == 0x428a2f98;
      case 1 => assert CubeRoot(1, 0x71374491, 3) && K[0][1] as nat == 0x71374491;
      case 2 => assert CubeRoot(1, 0xb5c0fbcf, 5) && K[0][2] as nat == 0xb5c0fbcf;
      case 3 => assert CubeRoot(1, 0xe9b5dba5, 7) && K[0][3] as nat == 0xe9b5dba5;
      case 4 => assert CubeRoot(2, 0x3956c25b, 11) && K[0][4] as nat == 0x3956c25b;
      case 5 => assert CubeRoot(2, 0x59f111f1, 13) && K[0][5] as nat == 0x59f111f1;
      case 6 => assert CubeRoot(2, 0x923f82a4, 17) && K[0][6] as nat == 0x923f82a4;
      case _ => assert CubeRoot(2, 0xab1c5ed5, 19) && K[0][7] as nat == 0xab1c5ed5;
    }
  }

  lemma CubeRoots1(i: nat)
    requires i < 8
    ensures CubeFraction(K[1][i] as nat, PRIMES[1][i])
  {
    match i {
      case 0 => assert CubeRoot(2, 0xd807aa98, 23) && K[1][0] as nat == 0xd807aa98;
      case 1 => assert CubeRoot(3, 0x12835b01, 29) && K[1][1] as nat == 0x12835b01;
      case 2 => assert CubeRoot(3, 0x243185be, 31) && K[1][2] as nat == 0x243185be;
      case 3 => assert CubeRoot(3, 0x550c7dc3, 37) && K[1][3] as nat == 0x550c7dc3;
      case 4 => assert CubeRoot(3, 0x72be5d74, 41) && K[1][4] as nat == 0x72be5d74;
      case 5 => assert CubeRoot(3, 0x80deb1fe, 43) && K[1][5] as nat == 0x80deb1fe;
      case 6 => assert CubeRoot(3, 0x9bdc06a7, 47) && K[1][6] as nat == 0x9bdc06a7;
      case _ => assert CubeRoot(3, 0xc19bf174, 53) && K[1][7] as nat == 0xc19bf174;
    }
  }

  lemma CubeRoots2(i: nat)
    requires i < 8
    ensures CubeFraction(K[2][i] as nat, PRIMES[2][i])
  {
    match i {
      case 0 => assert CubeRoot(3, 0xe49b69c1, 59) && K[2][0] as nat == 0xe49b69c1;
      case 1 => assert CubeRoot(3, 0xefbe4786, 61) && K[2][1] as nat == 0xefbe4786;
      case 2 => assert CubeRoot(4, 0x0fc19dc6, 67) && K[2][2] as nat == 0x0fc19dc6;
      case 3 => assert CubeRoot(4, 0x240ca1cc, 71) && K[2][3] as nat == 0x240ca1cc;
      case 4 => assert CubeRoot(4, 0x2de92c6f, 73) && K[2][4] as nat == 0x2de92c6f;
      case 5 => assert CubeRoot(4, 0x4a7484aa, 79) && K[2][5] as nat == 0x4a7484aa;
      case 6 => assert CubeRoot(4, 0x5cb0a9dc, 83) && K[2][6] as nat == 0x5cb0a9dc;
      case _ => assert CubeRoot(4, 0x76f988da, 89) && K[2][7] as nat == 0x76f988da;
    }
  }

  lemma CubeRoots3(i: nat)
    requires i < 8
    ensures CubeFraction(K[3][i] as nat, PRIMES[3][i])
  {
    match i {
      case 0 => assert CubeRoot(4, 0x983e5152, 97) && K[3][0] as nat == 0x983e5152;
      case 1 => assert CubeRoot(4, 0xa831c66d, 101) && K[3][1] as nat == 0xa831c66d;
      case 2 => assert CubeRoot(4, 0xb00327c8, 103) && K[3][2] as nat == 0xb00327c8;
      case 3 => assert CubeRoot(4, 0xbf597fc7, 107) && K[3][3] as nat == 0xbf597fc7;
      case 4 => assert CubeRoot(4, 0xc6e00bf3, 109) && K[3][4] as nat == 0xc6e00bf3;
      case 5 => assert CubeRoot(4, 0xd5a79147, 113) && K[3][5] as nat == 0xd5a79147;
      case 6 => assert CubeRoot(5, 0x06ca6351, 127) && K[3][6] as nat == 0x06ca6351;
      case _ => assert CubeRoot(5, 0x14292967, 131) && K[3][7] as nat == 0x14292967;
    }
  }

  lemma CubeRoots4(i: nat)
    requires i < 8
    ensures CubeFraction(K[4][i] as nat, PRIMES[4][i])
  {
    match i {
      case 0 => assert CubeRoot(5, 0x27b70a85, 137) && K[4][0] as nat == 0x27b70a85;
      case 1 => assert CubeRoot(5, 0x2e1b2138, 139) && K[4][1] as nat == 0x2e1b2138;
      case 2 => assert CubeRoot(5, 0x4d2c6dfc, 149) && K[4][2] as nat == 0x4d2c6dfc;
      case 3 => assert CubeRoot(5, 0x53380d13, 151) && K[4][3] as nat == 0x53380d13;
      case 4 => assert CubeRoot(5, 0x650a7354, 157) && K[4][4] as nat == 0x650a7354;
      case 5 => assert CubeRoot(5, 0x766a0abb, 163) && K[4][5] as nat == 0x766a0abb;
      case 6 => assert CubeRoot(5, 0x81c2c92e, 167) && K[4][6] as nat == 0x81c2c92e;
      case _ => assert CubeRoot(5, 0x92722c85, 173) && K[4][7] as nat == 0x92722c85;
    }
  }

  lemma CubeRoots5(i: nat)
    requires i < 8
    ensures CubeFraction(K[5][i] as nat, PRIMES[5][i])
  {
    match i {
      case 0 => assert CubeRoot(5, 0xa2bfe8a1, 179) && K[5][0] as nat == 0xa2bfe8a1;
      case 1 => assert CubeRoot(5, 0xa81a664b, 181) && K[5][1] as nat == 0xa81a664b;
      case 2 => assert CubeRoot(5, 0xc24b8b70, 191) && K[5][2] as nat == 0xc24b8b70;
      case 3 => assert CubeRoot(5, 0xc76c51a3, 193) && K[5][3] as nat == 0xc76c51a3;
      case 4 => assert CubeRoot(5, 0xd192e819, 197) && K[5][4] as nat == 0xd192e819;
      case 5 => assert CubeRoot(5, 0xd6990624, 199) && K[5][5] as nat == 0xd6990624;
      case 6 => assert CubeRoot(5, 0xf40e3585, 211) && K[5][6] as nat == 0xf40e3585;
      case _ => assert CubeRoot(6, 0x106aa070, 223) && K[5][7] as nat == 0x106aa070;
    }
  }

  lemma CubeRoots6(i: nat)
    requires i < 8
    ensures CubeFraction(K[6][i] as nat, PRIMES[6][i])
  {
    match i {
      case 0 => assert CubeRoot(6, 0x19a4c116, 227) && K[6][0] as nat == 0x19a4c116;
      case 1 => assert CubeRoot(6, 0x1e376c08, 229) && K[6][1] as nat == 0x1e376c08;
      case 2 => assert CubeRoot(6, 0x2748774c, 233) && K[6][2] as nat == 0x2748774c;
      case 3 => assert CubeRoot(6, 0x34b0bcb5, 239) && K[6][3] as nat == 0x34b0bcb5;
      case 4 => assert CubeRoot(6, 0x391c0cb3, 241) && K[6][4] as nat == 0x391c0cb3;
      case 5 => assert CubeRoot(6, 0x4ed8aa4a, 251) && K[6][5] as nat == 0x4ed8aa4a;
      case 6 => assert CubeRoot(6, 0x5b9cca4f, 257) && K[6][6] as nat == 0x5b9cca4f;
      case _ => assert CubeRoot(6, 0x682e6ff3, 263) && K[6][7] as nat == 0x682e6ff3;
    }
  }

  lemma CubeRoots7(i: nat)
    requires i < 8
    ensures CubeFraction(K[7][i] as nat, PRIMES[7][i])
  {
    match i {
      case 0 => assert CubeRoot(6, 0x748f82ee, 269) && K[7][0] as nat == 0x748f82ee;
      case 1 => assert CubeRoot(6, 0x78a5636f, 271) && K[7][1] as nat == 0x78a5636f;
      case 2 => assert CubeRoot(6, 0x84c87814, 277) && K[7][2] as nat == 0x84c87814;
      case 3 => assert CubeRoot(6, 0x8cc70208, 281) && K[7][3] as nat == 0x8cc70208;
      case 4 => assert CubeRoot(6, 0x90befffa, 283) && K[7][4] as nat == 0x90befffa;
      case 5 => assert CubeRoot(6, 0xa4506ceb, 293) && K[7][5] as nat == 0xa4506ceb;
      case 6 => assert CubeRoot(6, 0xbef9a3f7, 307) && K[7][6] as nat == 0xbef9a3f7;
      case _ => assert CubeRoot(6, 0xc67178f2, 311) && K[7][7] as nat == 0xc67178f2;
    }
  }

  /** Every round constant is the fraction of the cube root of its prime. */
  lemma ConstantsAreRoots(t: nat)
    requires t < 64
    ensures CubeFraction(Constant(t) as nat, Prime(t))
  {
    hide CubeFraction;
    match t / 8 {
      case 0 => CubeRoots0(t % 8);
      case 1 => CubeRoots1(t % 8);
      case 2 => CubeRoots2(t % 8);
      case 3 => CubeRoots3(t % 8);
      case 4 => CubeRoots4(t % 8);
      case 5 => CubeRoots5(t % 8);
      case 6 => CubeRoots6(t % 8);
      case _ => CubeRoots7(t % 8);
    }
  }

  /** Every word of the initial value is the fraction of the square root of its prime. */
  lemma InitialIsRoots(i: nat)
    requires i < 8
    ensures SquareFraction(WordAt(INITIAL, i) as nat, Prime(i))
  {
    match i {
      case 0 => assert SquareRoot(1, 0x6a09e667, 2) && INITIAL.a as nat == 0x6a09e667;
      case 1 => assert SquareRoot(1, 0xbb67ae85, 3) && INITIAL.b as nat == 0xbb67ae85;
      case 2 => assert SquareRoot(2, 0x3c6ef372, 5) && INITIAL.c as nat == 0x3c6ef372;
      case 3 => assert SquareRoot(2, 0xa54ff53a, 7) && INITIAL.d as nat == 0xa54ff53a;
      case 4 => assert SquareRoot(3, 0x510e527f, 11) && INITIAL.e as nat == 0x510e527f;
      case 5 => assert SquareRoot(3, 0x9b05688c, 13) && INITIAL.f as nat == 0x9b05688c;
      case 6 => assert SquareRoot(4, 0x1f83d9ab, 17) && INITIAL.g as nat == 0x1f83d9ab;
      case _ => assert SquareRoot(4, 0x5be0cd19, 19) && INITIAL.h as nat == 0x5be0cd19;
    }
  }

  // ---------- bits ----------

  /** Rotated, the upper bits come down by `n` places, and the lowest `n` go to the top. */
  lemma RotateRightMoves(x: bv32, n: bv6)
    requires 0 < n < 32
    ensures RotateRight(x, n) << n == x & (0xffff_ffff << n)
    ensures RotateRight(x, n) >> (32 - n) == x & !(0xffff_ffff << n)
  {
  }

  /** `Ch` is `y` where `x` has ones and `z` where it has zeros, at any selection of bits. */
  lemma ChSelects(x: bv32, y: bv32, z: bv32, bits: bv32)
    ensures x & bits == bits ==> Ch(x, y, z) & bits == y & bits
    ensures x & bits == 0 ==> Ch(x, y, z) & bits == z & bits
  {
  }

  /** Where two words agree, `Maj` agrees with them, at any selection of bits. */
  lemma MajAgreesFirst(x: bv32, y: bv32, z: bv32, bits: bv32)
    requires x & bits == y & bits
    ensures Maj(x, y, z) & bits == x & bits
  {
  }

  lemma MajAgreesOuter(x: bv32, y: bv32, z: bv32, bits: bv32)
    requires x & bits == z & bits
    ensures Maj(x, y, z) & bits == x & bits
  {
  }

  lemma MajAgreesLast(x: bv32, y: bv32, z: bv32, bits: bv32)
    requires y & bits == z & bits
    ensures Maj(x, y, z) & bits == y & bits
  {
  }

  function Xor3(a: bv32, b: bv32, c: bv32): bv32 { a ^ b ^ c }

  lemma By2(x: bv32)
    ensures RotateRight(x, 2) == (x >> 2) | (x << 30)
  {
  }

  lemma By6(x: bv32)
    ensures RotateRight(x, 6) == (x >> 6) | (x << 26)
  {
  }

  lemma By7(x: bv32)
    ensures RotateRight(x, 7) == (x >> 7) | (x << 25)
  {
  }

  lemma By11(x: bv32)
    ensures RotateRight(x, 11) == (x >> 11) | (x << 21)
  {
  }

  lemma By13(x: bv32)
    ensures RotateRight(x, 13) == (x >> 13) | (x << 19)
  {
  }

  lemma By17(x: bv32)
    ensures RotateRight(x, 17) == (x >> 17) | (x << 15)
  {
  }

  lemma By18(x: bv32)
    ensures RotateRight(x, 18) == (x >> 18) | (x << 14)
  {
  }

  lemma By19(x: bv32)
    ensures RotateRight(x, 19) == (x >> 19) | (x << 13)
  {
  }

  lemma By22(x: bv32)
    ensures RotateRight(x, 22) == (x >> 22) | (x << 10)
  {
  }

  lemma By25(x: bv32)
    ensures RotateRight(x, 25) == (x >> 25) | (x << 7)
  {
  }

  lemma BigSigma0Rotates(x: bv32)
    ensures BigSigma0(x) == Xor3(RotateRight(x, 2), RotateRight(x, 13), RotateRight(x, 22))
  {
    hide RotateRight;
  }

  lemma BigSigma0Is(x: bv32)
    ensures BigSigma0(x) == Xor3((x >> 2) | (x << 30), (x >> 13) | (x << 19), (x >> 22) | (x << 10))
  {
    hide RotateRight, Xor3, BigSigma0;
    BigSigma0Rotates(x);
    By2(x);
    By13(x);
    By22(x);
  }

  lemma BigSigma1Rotates(x: bv32)
    ensures BigSigma1(x) == Xor3(RotateRight(x, 6), RotateRight(x, 11), RotateRight(x, 25))
  {
    hide RotateRight;
  }

  lemma BigSigma1Is(x: bv32)
    ensures BigSigma1(x) == Xor3((x >> 6) | (x << 26), (x >> 11) | (x << 21), (x >> 25) | (x << 7))
  {
    hide RotateRight, Xor3, BigSigma1;
    BigSigma1Rotates(x);
    By6(x);
    By11(x);
    By25(x);
  }

  lemma SmallSigma0Rotates(x: bv32)
    ensures SmallSigma0(x) == Xor3(RotateRight(x, 7), RotateRight(x, 18), x >> 3)
  {
    hide RotateRight;
  }

  lemma SmallSigma0Is(x: bv32)
    ensures SmallSigma0(x) == Xor3((x >> 7) | (x << 25), (x >> 18) | (x << 14), x >> 3)
  {
    hide RotateRight, Xor3, SmallSigma0;
    SmallSigma0Rotates(x);
    By7(x);
    By18(x);
  }

  lemma SmallSigma1Rotates(x: bv32)
    ensures SmallSigma1(x) == Xor3(RotateRight(x, 17), RotateRight(x, 19), x >> 10)
  {
    hide RotateRight;
  }

  lemma SmallSigma1Is(x: bv32)
    ensures SmallSigma1(x) == Xor3((x >> 17) | (x << 15), (x >> 19) | (x << 13), x >> 10)
  {
    hide RotateRight, Xor3, SmallSigma1;
    SmallSigma1Rotates(x);
    By17(x);
    By19(x);
  }

  // ---------- the example "abc" of FIPS 180-4 ----------

  /** One round in the middle of the example. */
  lemma ExampleRound()
    ensures
      var v := Words(
        0xe1f20c33, 0xfe777bbf, 0xc2fbd9d1, 0x21da9a9b, 0xb0638179, 0xcc899961, 0x846ee454, 0x8034229c);
      Round(v, 0x2de92c6f, 0x3e9d7b78) == Words(
        0x9dc68b63, 0xe1f20c33, 0xfe777bbf, 0xc2fbd9d1, 0x8ada8930, 0xb0638179, 0xcc899961, 0x846ee454)
  {
  }

  /** One word of its message schedule, from the four it depends on. */
  lemma ExampleWord(block: Bytes)
    requires |block| == 64 && Schedule(block, 24) == 0xc8215c1a && Schedule(block, 25) == 0xb73679a2
    requires Schedule(block, 33) == 0x3b68ba73 && Schedule(block, 38) == 0x9409e33e
    ensures Schedule(block, 40) == 0x9f47bf94
  {
  }

  /** Its first word, and its digest from the working variables after the last round. */
  lemma ExampleEnds()
    ensures BigEndian(0x61, 0x62, 0x63, 0x80) == 0x61626380
    ensures
      var hash := AddWords(INITIAL, Words(
        0x506e3058, 0xd39a2165, 0x04d24d6c, 0xb85e2ce9, 0x5ef50f24, 0xfb121210, 0x948d25b6, 0x961f4894));
      && hash == Words(
        0xba7816bf, 0x8f01cfea, 0x414140de, 0x5dae2223, 0xb00361a3, 0x96177a9c, 0xb410ff61, 0xf20015ad)
      && BytesOfWord(hash.a) == [0xba, 0x78, 0x16, 0xbf]
  {
  }
}

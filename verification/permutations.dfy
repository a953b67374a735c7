/** The bit permutations of the Data Encryption Standard (FIPS PUB 46-3): the
    initial permutation IP and its inverse, the expansion E, the permutation P
    and the permuted choices PC-1 and PC-2 of the key schedule.

    In des.c each permutation is a loop over a table `T` of `n` entries that sets
    output bit `n - 1 - i` to input bit `w - T[i]` of a `w`-bit input (bits counted
    from the least significant end; table entries count from 1 at the most
    significant end). Here each loop is written out with its table entries in
    order, one `Take` per iteration, so that the verifier sees constant shifts. */
module Permutations {

  /** One iteration of a selection loop: entry `p` of a `w`-bit input, moved to
      bit `d` of the output. */
  function Take(x: bv64, w: bv7, p: bv7, d: bv7): bv64
    requires 1 <= p <= w <= 64 && d < 64
  {
    ((x >> (w - p)) & 1) << d
  }

  /** IP (des.c initial_permutation). */
  function InitialPermutation(x: bv64): (r: bv64)
  {
    Take(x, 64, 58, 63) | Take(x, 64, 50, 62) | Take(x, 64, 42, 61) | Take(x, 64, 34, 60) | Take(x, 64, 26, 59) | Take(x, 64, 18, 58) | Take(x, 64, 10, 57) | Take(x, 64, 2, 56) |
    Take(x, 64, 60, 55) | Take(x, 64, 52, 54) | Take(x, 64, 44, 53) | Take(x, 64, 36, 52) | Take(x, 64, 28, 51) | Take(x, 64, 20, 50) | Take(x, 64, 12, 49) | Take(x, 64, 4, 48) |
    Take(x, 64, 62, 47) | Take(x, 64, 54, 46) | Take(x, 64, 46, 45) | Take(x, 64, 38, 44) | Take(x, 64, 30, 43) | Take(x, 64, 22, 42) | Take(x, 64, 14, 41) | Take(x, 64, 6, 40) |
    Take(x, 64, 64, 39) | Take(x, 64, 56, 38) | Take(x, 64, 48, 37) | Take(x, 64, 40, 36) | Take(x, 64, 32, 35) | Take(x, 64, 24, 34) | Take(x, 64, 16, 33) | Take(x, 64, 8, 32) |
    Take(x, 64, 57, 31) | Take(x, 64, 49, 30) | Take(x, 64, 41, 29) | Take(x, 64, 33, 28) | Take(x, 64, 25, 27) | Take(x, 64, 17, 26) | Take(x, 64, 9, 25) | Take(x, 64, 1, 24) |
    Take(x, 64, 59, 23) | Take(x, 64, 51, 22) | Take(x, 64, 43, 21) | Take(x, 64, 35, 20) | Take(x, 64, 27, 19) | Take(x, 64, 19, 18) | Take(x, 64, 11, 17) | Take(x, 64, 3, 16) |
    Take(x, 64, 61, 15) | Take(x, 64, 53, 14) | Take(x, 64, 45, 13) | Take(x, 64, 37, 12) | Take(x, 64, 29, 11) | Take(x, 64, 21, 10) | Take(x, 64, 13, 9) | Take(x, 64, 5, 8) |
    Take(x, 64, 63, 7) | Take(x, 64, 55, 6) | Take(x, 64, 47, 5) | Take(x, 64, 39, 4) | Take(x, 64, 31, 3) | Take(x, 64, 23, 2) | Take(x, 64, 15, 1) | Take(x, 64, 7, 0)
  }

  /** IP^-1 (des.c final_permutation). */
  function FinalPermutation(x: bv64): (r: bv64)
  {
    Take(x, 64, 40, 63) | Take(x, 64, 8, 62) | Take(x, 64, 48, 61) | Take(x, 64, 16, 60) | Take(x, 64, 56, 59) | Take(x, 64, 24, 58) | Take(x, 64, 64, 57) | Take(x, 64, 32, 56) |
    Take(x, 64, 39, 55) | Take(x, 64, 7, 54) | Take(x, 64, 47, 53) | Take(x, 64, 15, 52) | Take(x, 64, 55, 51) | Take(x, 64, 23, 50) | Take(x, 64, 63, 49) | Take(x, 64, 31, 48) |
    Take(x, 64, 38, 47) | Take(x, 64, 6, 46) | Take(x, 64, 46, 45) | Take(x, 64, 14, 44) | Take(x, 64, 54, 43) | Take(x, 64, 22, 42) | Take(x, 64, 62, 41) | Take(x, 64, 30, 40) |
    Take(x, 64, 37, 39) | Take(x, 64, 5, 38) | Take(x, 64, 45, 37) | Take(x, 64, 13, 36) | Take(x, 64, 53, 35) | Take(x, 64, 21, 34) | Take(x, 64, 61, 33) | Take(x, 64, 29, 32) |
    Take(x, 64, 36, 31) | Take(x, 64, 4, 30) | Take(x, 64, 44, 29) | Take(x, 64, 12, 28) | Take(x, 64, 52, 27) | Take(x, 64, 20, 26) | Take(x, 64, 60, 25) | Take(x, 64, 28, 24) |
    Take(x, 64, 35, 23) | Take(x, 64, 3, 22) | Take(x, 64, 43, 21) | Take(x, 64, 11, 20) | Take(x, 64, 51, 19) | Take(x, 64, 19, 18) | Take(x, 64, 59, 17) | Take(x, 64, 27, 16) |
    Take(x, 64, 34, 15) | Take(x, 64, 2, 14) | Take(x, 64, 42, 13) | Take(x, 64, 10, 12) | Take(x, 64, 50, 11) | Take(x, 64, 18, 10) | Take(x, 64, 58, 9) | Take(x, 64, 26, 8) |
    Take(x, 64, 33, 7) | Take(x, 64, 1, 6) | Take(x, 64, 41, 5) | Take(x, 64, 9, 4) | Take(x, 64, 49, 3) | Take(x, 64, 17, 2) | Take(x, 64, 57, 1) | Take(x, 64, 25, 0)
  }

  /** The expansion E of a 32-bit half block into 48 bits (des.c e). */
  function Expansion(x: bv64): (r: bv64)
    ensures r >> 48 == 0
  {
    Take(x, 32, 32, 47) | Take(x, 32, 1, 46) | Take(x, 32, 2, 45) | Take(x, 32, 3, 44) | Take(x, 32, 4, 43) | Take(x, 32, 5, 42) |
    Take(x, 32, 4, 41) | Take(x, 32, 5, 40) | Take(x, 32, 6, 39) | Take(x, 32, 7, 38) | Take(x, 32, 8, 37) | Take(x, 32, 9, 36) |
    Take(x, 32, 8, 35) | Take(x, 32, 9, 34) | Take(x, 32, 10, 33) | Take(x, 32, 11, 32) | Take(x, 32, 12, 31) | Take(x, 32, 13, 30) |
    Take(x, 32, 12, 29) | Take(x, 32, 13, 28) | Take(x, 32, 14, 27) | Take(x, 32, 15, 26) | Take(x, 32, 16, 25) | Take(x, 32, 17, 24) |
    Take(x, 32, 16, 23) | Take(x, 32, 17, 22) | Take(x, 32, 18, 21) | Take(x, 32, 19, 20) | Take(x, 32, 20, 19) | Take(x, 32, 21, 18) |
    Take(x, 32, 20, 17) | Take(x, 32, 21, 16) | Take(x, 32, 22, 15) | Take(x, 32, 23, 14) | Take(x, 32, 24, 13) | Take(x, 32, 25, 12) |
    Take(x, 32, 24, 11) | Take(x, 32, 25, 10) | Take(x, 32, 26, 9) | Take(x, 32, 27, 8) | Take(x, 32, 28, 7) | Take(x, 32, 29, 6) |
    Take(x, 32, 28, 5) | Take(x, 32, 29, 4) | Take(x, 32, 30, 3) | Take(x, 32, 31, 2) | Take(x, 32, 32, 1) | Take(x, 32, 1, 0)
  }

  /** The permutation P applied to the S-box output (des.c p). */
  function PermutationP(x: bv64): (r: bv64)
    ensures r >> 32 == 0
  {
    Take(x, 32, 16, 31) | Take(x, 32, 7, 30) | Take(x, 32, 20, 29) | Take(x, 32, 21, 28) | Take(x, 32, 29, 27) | Take(x, 32, 12, 26) | Take(x, 32, 28, 25) | Take(x, 32, 17, 24) |
    Take(x, 32, 1, 23) | Take(x, 32, 15, 22) | Take(x, 32, 23, 21) | Take(x, 32, 26, 20) | Take(x, 32, 5, 19) | Take(x, 32, 18, 18) | Take(x, 32, 31, 17) | Take(x, 32, 10, 16) |
    Take(x, 32, 2, 15) | Take(x, 32, 8, 14) | Take(x, 32, 24, 13) | Take(x, 32, 14, 12) | Take(x, 32, 32, 11) | Take(x, 32, 27, 10) | Take(x, 32, 3, 9) | Take(x, 32, 9, 8) |
    Take(x, 32, 19, 7) | Take(x, 32, 13, 6) | Take(x, 32, 30, 5) | Take(x, 32, 6, 4) | Take(x, 32, 22, 3) | Take(x, 32, 11, 2) | Take(x, 32, 4, 1) | Take(x, 32, 25, 0)
  }

  /** The first 28 entries of PC-1: the half C of the key register (des.c pc_1_c). */
  function PermutedChoice1Left(key: bv64): (r: bv64)
    ensures r >> 28 == 0
  {
    Take(key, 64, 57, 27) | Take(key, 64, 49, 26) | Take(key, 64, 41, 25) | Take(key, 64, 33, 24) | Take(key, 64, 25, 23) | Take(key, 64, 17, 22) | Take(key, 64, 9, 21) |
    Take(key, 64, 1, 20) | Take(key, 64, 58, 19) | Take(key, 64, 50, 18) | Take(key, 64, 42, 17) | Take(key, 64, 34, 16) | Take(key, 64, 26, 15) | Take(key, 64, 18, 14) |
    Take(key, 64, 10, 13) | Take(key, 64, 2, 12) | Take(key, 64, 59, 11) | Take(key, 64, 51, 10) | Take(key, 64, 43, 9) | Take(key, 64, 35, 8) | Take(key, 64, 27, 7) |
    Take(key, 64, 19, 6) | Take(key, 64, 11, 5) | Take(key, 64, 3, 4) | Take(key, 64, 60, 3) | Take(key, 64, 52, 2) | Take(key, 64, 44, 1) | Take(key, 64, 36, 0)
  }

  /** The last 28 entries of PC-1: the half D of the key register (des.c pc_1_d). */
  function PermutedChoice1Right(key: bv64): (r: bv64)
    ensures r >> 28 == 0
  {
    Take(key, 64, 63, 27) | Take(key, 64, 55, 26) | Take(key, 64, 47, 25) | Take(key, 64, 39, 24) | Take(key, 64, 31, 23) | Take(key, 64, 23, 22) | Take(key, 64, 15, 21) |
    Take(key, 64, 7, 20) | Take(key, 64, 62, 19) | Take(key, 64, 54, 18) | Take(key, 64, 46, 17) | Take(key, 64, 38, 16) | Take(key, 64, 30, 15) | Take(key, 64, 22, 14) |
    Take(key, 64, 14, 13) | Take(key, 64, 6, 12) | Take(key, 64, 61, 11) | Take(key, 64, 53, 10) | Take(key, 64, 45, 9) | Take(key, 64, 37, 8) | Take(key, 64, 29, 7) |
    Take(key, 64, 21, 6) | Take(key, 64, 13, 5) | Take(key, 64, 5, 4) | Take(key, 64, 28, 3) | Take(key, 64, 20, 2) | Take(key, 64, 12, 1) | Take(key, 64, 4, 0)
  }

  /** PC-2 applied to the 56-bit register C || D (des.c pc_2, after it forms `c << 28 | d`). */
  function PermutedChoice2(x: bv64): (r: bv64)
    ensures r >> 48 == 0
  {
    Take(x, 56, 14, 47) | Take(x, 56, 17, 46) | Take(x, 56, 11, 45) | Take(x, 56, 24, 44) | Take(x, 56, 1, 43) | Take(x, 56, 5, 42) |
    Take(x, 56, 3, 41) | Take(x, 56, 28, 40) | Take(x, 56, 15, 39) | Take(x, 56, 6, 38) | Take(x, 56, 21, 37) | Take(x, 56, 10, 36) |
    Take(x, 56, 23, 35) | Take(x, 56, 19, 34) | Take(x, 56, 12, 33) | Take(x, 56, 4, 32) | Take(x, 56, 26, 31) | Take(x, 56, 8, 30) |
    Take(x, 56, 16, 29) | Take(x, 56, 7, 28) | Take(x, 56, 27, 27) | Take(x, 56, 20, 26) | Take(x, 56, 13, 25) | Take(x, 56, 2, 24) |
    Take(x, 56, 41, 23) | Take(x, 56, 52, 22) | Take(x, 56, 31, 21) | Take(x, 56, 37, 20) | Take(x, 56, 47, 19) | Take(x, 56, 55, 18) |
    Take(x, 56, 30, 17) | Take(x, 56, 40, 16) | Take(x, 56, 51, 15) | Take(x, 56, 45, 14) | Take(x, 56, 33, 13) | Take(x, 56, 48, 12) |
    Take(x, 56, 44, 11) | Take(x, 56, 49, 10) | Take(x, 56, 39, 9) | Take(x, 56, 56, 8) | Take(x, 56, 34, 7) | Take(x, 56, 53, 6) |
    Take(x, 56, 46, 5) | Take(x, 56, 42, 4) | Take(x, 56, 50, 3) | Take(x, 56, 36, 2) | Take(x, 56, 29, 1) | Take(x, 56, 32, 0)
  }

  /** The inverse of P; not part of des.c, it witnesses that P loses no bit. */
  function InversePermutationP(x: bv64): (r: bv64)
    ensures r >> 32 == 0
  {
    Take(x, 32, 9, 31) | Take(x, 32, 17, 30) | Take(x, 32, 23, 29) | Take(x, 32, 31, 28) | Take(x, 32, 13, 27) | Take(x, 32, 28, 26) | Take(x, 32, 2, 25) | Take(x, 32, 18, 24) |
    Take(x, 32, 24, 23) | Take(x, 32, 16, 22) | Take(x, 32, 30, 21) | Take(x, 32, 6, 20) | Take(x, 32, 26, 19) | Take(x, 32, 20, 18) | Take(x, 32, 10, 17) | Take(x, 32, 1, 16) |
    Take(x, 32, 8, 15) | Take(x, 32, 14, 14) | Take(x, 32, 25, 13) | Take(x, 32, 3, 12) | Take(x, 32, 4, 11) | Take(x, 32, 29, 10) | Take(x, 32, 11, 9) | Take(x, 32, 19, 8) |
    Take(x, 32, 32, 7) | Take(x, 32, 12, 6) | Take(x, 32, 22, 5) | Take(x, 32, 7, 4) | Take(x, 32, 5, 3) | Take(x, 32, 27, 2) | Take(x, 32, 15, 1) | Take(x, 32, 21, 0)
  }

  /** The key whose non-parity bits PC-1 would spread over `c` and `d`; not part
      of des.c, it witnesses that PC-1 keeps every non-parity key bit. */
  function UnpermutedChoice1(c: bv64, d: bv64): (key: bv64)
    ensures key & ParityBits == 0
  {
    Take(c, 28, 8, 63) | Take(c, 28, 16, 62) | Take(c, 28, 24, 61) | Take(d, 28, 28, 60) | Take(d, 28, 24, 59) | Take(d, 28, 16, 58) | Take(d, 28, 8, 57) |
    Take(c, 28, 7, 55) | Take(c, 28, 15, 54) | Take(c, 28, 23, 53) | Take(d, 28, 27, 52) | Take(d, 28, 23, 51) | Take(d, 28, 15, 50) | Take(d, 28, 7, 49) |
    Take(c, 28, 6, 47) | Take(c, 28, 14, 46) | Take(c, 28, 22, 45) | Take(d, 28, 26, 44) | Take(d, 28, 22, 43) | Take(d, 28, 14, 42) | Take(d, 28, 6, 41) |
    Take(c, 28, 5, 39) | Take(c, 28, 13, 38) | Take(c, 28, 21, 37) | Take(d, 28, 25, 36) | Take(d, 28, 21, 35) | Take(d, 28, 13, 34) | Take(d, 28, 5, 33) |
    Take(c, 28, 4, 31) | Take(c, 28, 12, 30) | Take(c, 28, 20, 29) | Take(c, 28, 28, 28) | Take(d, 28, 20, 27) | Take(d, 28, 12, 26) | Take(d, 28, 4, 25) |
    Take(c, 28, 3, 23) | Take(c, 28, 11, 22) | Take(c, 28, 19, 21) | Take(c, 28, 27, 20) | Take(d, 28, 19, 19) | Take(d, 28, 11, 18) | Take(d, 28, 3, 17) |
    Take(c, 28, 2, 15) | Take(c, 28, 10, 14) | Take(c, 28, 18, 13) | Take(c, 28, 26, 12) | Take(d, 28, 18, 11) | Take(d, 28, 10, 10) | Take(d, 28, 2, 9) |
    Take(c, 28, 1, 7) | Take(c, 28, 9, 6) | Take(c, 28, 17, 5) | Take(c, 28, 25, 4) | Take(d, 28, 17, 3) | Take(d, 28, 9, 2) | Take(d, 28, 1, 1)
  }

  /** The eight parity bits of a DES key: the least significant bit of every byte. */
  const ParityBits: bv64 := 0x0101_0101_0101_0101

  /** Two words that agree on each of their eight bytes are equal. */
  lemma EqualByBytes(a: bv64, b: bv64)
    requires a & 0x0000_0000_0000_00FF == b & 0x0000_0000_0000_00FF
    requires a & 0x0000_0000_0000_FF00 == b & 0x0000_0000_0000_FF00
    requires a & 0x0000_0000_00FF_0000 == b & 0x0000_0000_00FF_0000
    requires a & 0x0000_0000_FF00_0000 == b & 0x0000_0000_FF00_0000
    requires a & 0x0000_00FF_0000_0000 == b & 0x0000_00FF_0000_0000
    requires a & 0x0000_FF00_0000_0000 == b & 0x0000_FF00_0000_0000
    requires a & 0x00FF_0000_0000_0000 == b & 0x00FF_0000_0000_0000
    requires a & 0xFF00_0000_0000_0000 == b & 0xFF00_0000_0000_0000
    ensures a == b
  {
  }

  lemma FinalUndoesInitialByte0(x: bv64)
    ensures FinalPermutation(InitialPermutation(x)) & 0x0000_0000_0000_00FF == x & 0x0000_0000_0000_00FF
  {
  }

  lemma FinalUndoesInitialByte1(x: bv64)
    ensures FinalPermutation(InitialPermutation(x)) & 0x0000_0000_0000_FF00 == x & 0x0000_0000_0000_FF00
  {
  }

  lemma FinalUndoesInitialByte2(x: bv64)
    ensures FinalPermutation(InitialPermutation(x)) & 0x0000_0000_00FF_0000 == x & 0x0000_0000_00FF_0000
  {
  }

  lemma FinalUndoesInitialByte3(x: bv64)
    ensures FinalPermutation(InitialPermutation(x)) & 0x0000_0000_FF00_0000 == x & 0x0000_0000_FF00_0000
  {
  }

  lemma FinalUndoesInitialByte4(x: bv64)
    ensures FinalPermutation(InitialPermutation(x)) & 0x0000_00FF_0000_0000 == x & 0x0000_00FF_0000_0000
  {
  }

  lemma FinalUndoesInitialByte5(x: bv64)
    ensures FinalPermutation(InitialPermutation(x)) & 0x0000_FF00_0000_0000 == x & 0x0000_FF00_0000_0000
  {
  }

  lemma FinalUndoesInitialByte6(x: bv64)
    ensures FinalPermutation(InitialPermutation(x)) & 0x00FF_0000_0000_0000 == x & 0x00FF_0000_0000_0000
  {
  }

  lemma FinalUndoesInitialByte7(x: bv64)
    ensures FinalPermutation(InitialPermutation(x)) & 0xFF00_0000_0000_0000 == x & 0xFF00_0000_0000_0000
  {
  }

  /** IP^-1 undoes IP on every 64-bit block. */
  lemma FinalUndoesInitial(x: bv64)
    ensures FinalPermutation(InitialPermutation(x)) == x
  {
    FinalUndoesInitialByte0(x);
    FinalUndoesInitialByte1(x);
    FinalUndoesInitialByte2(x);
    FinalUndoesInitialByte3(x);
    FinalUndoesInitialByte4(x);
    FinalUndoesInitialByte5(x);
    FinalUndoesInitialByte6(x);
    FinalUndoesInitialByte7(x);
    EqualByBytes(FinalPermutation(InitialPermutation(x)), x);
  }

  lemma InitialUndoesFinalByte0(x: bv64)
    ensures InitialPermutation(FinalPermutation(x)) & 0x0000_0000_0000_00FF == x & 0x0000_0000_0000_00FF
  {
  }

  lemma InitialUndoesFinalByte1(x: bv64)
    ensures InitialPermutation(FinalPermutation(x)) & 0x0000_0000_0000_FF00 == x & 0x0000_0000_0000_FF00
  {
  }

  lemma InitialUndoesFinalByte2(x: bv64)
    ensures InitialPermutation(FinalPermutation(x)) & 0x0000_0000_00FF_0000 == x & 0x0000_0000_00FF_0000
  {
  }

  lemma InitialUndoesFinalByte3(x: bv64)
    ensures InitialPermutation(FinalPermutation(x)) & 0x0000_0000_FF00_0000 == x & 0x0000_0000_FF00_0000
  {
  }

  lemma InitialUndoesFinalByte4(x: bv64)
    ensures InitialPermutation(FinalPermutation(x)) & 0x0000_00FF_0000_0000 == x & 0x0000_00FF_0000_0000
  {
  }

  lemma InitialUndoesFinalByte5(x: bv64)
    ensures InitialPermutation(FinalPermutation(x)) & 0x0000_FF00_0000_0000 == x & 0x0000_FF00_0000_0000
  {
  }

  lemma InitialUndoesFinalByte6(x: bv64)
    ensures InitialPermutation(FinalPermutation(x)) & 0x00FF_0000_0000_0000 == x & 0x00FF_0000_0000_0000
  {
  }

  lemma InitialUndoesFinalByte7(x: bv64)
    ensures InitialPermutation(FinalPermutation(x)) & 0xFF00_0000_0000_0000 == x & 0xFF00_0000_0000_0000
  {
  }

  /** IP undoes IP^-1 on every 64-bit block. */
  lemma InitialUndoesFinal(x: bv64)
    ensures InitialPermutation(FinalPermutation(x)) == x
  {
    InitialUndoesFinalByte0(x);
    InitialUndoesFinalByte1(x);
    InitialUndoesFinalByte2(x);
    InitialUndoesFinalByte3(x);
    InitialUndoesFinalByte4(x);
    InitialUndoesFinalByte5(x);
    InitialUndoesFinalByte6(x);
    InitialUndoesFinalByte7(x);
    EqualByBytes(InitialPermutation(FinalPermutation(x)), x);
  }


  /** P loses no bit: its inverse recovers every 32-bit input. */
  lemma PermutationPInvertible(x: bv64)
    requires x >> 32 == 0
    ensures InversePermutationP(PermutationP(x)) == x
  {
  }

  /** ... and P reaches every 32-bit word. */
  lemma PermutationPOnto(y: bv64)
    requires y >> 32 == 0
    ensures PermutationP(InversePermutationP(y)) == y
  {
  }

  /** PC-1 never reads a parity bit. */
  lemma PermutedChoice1IgnoresParity(key: bv64)
    ensures PermutedChoice1Left(key & !ParityBits) == PermutedChoice1Left(key)
    ensures PermutedChoice1Right(key & !ParityBits) == PermutedChoice1Right(key)
  {
    PermutedChoice1LeftIgnoresParity(key);
    PermutedChoice1RightIgnoresParity(key);
  }

  lemma PermutedChoice1LeftIgnoresParity(key: bv64)
    ensures PermutedChoice1Left(key & !ParityBits) == PermutedChoice1Left(key)
  {
  }

  lemma PermutedChoice1RightIgnoresParity(key: bv64)
    ensures PermutedChoice1Right(key & !ParityBits) == PermutedChoice1Right(key)
  {
  }

  lemma UnpermutedChoice1HighHalf(key: bv64)
    ensures UnpermutedChoice1(PermutedChoice1Left(key), PermutedChoice1Right(key)) & 0xFEFE_FEFE_0000_0000
            == key & 0xFEFE_FEFE_0000_0000
  {
  }

  lemma UnpermutedChoice1LowHalf(key: bv64)
    ensures UnpermutedChoice1(PermutedChoice1Left(key), PermutedChoice1Right(key)) & 0xFEFE_FEFE
            == key & 0xFEFE_FEFE
  {
  }

  lemma EqualOffParity(a: bv64, b: bv64)
    requires a & 0xFEFE_FEFE_0000_0000 == b & 0xFEFE_FEFE_0000_0000
    requires a & 0xFEFE_FEFE == b & 0xFEFE_FEFE
    requires a & ParityBits == 0
    ensures a == b & !ParityBits
  {
  }

  /** PC-1 keeps every non-parity key bit: the two halves determine the key up to its parity bits. */
  lemma PermutedChoice1Invertible(key: bv64)
    ensures UnpermutedChoice1(PermutedChoice1Left(key), PermutedChoice1Right(key)) == key & !ParityBits
  {
    UnpermutedChoice1HighHalf(key);
    UnpermutedChoice1LowHalf(key);
    EqualOffParity(UnpermutedChoice1(PermutedChoice1Left(key), PermutedChoice1Right(key)), key);
  }

  /** Every pair of 28-bit halves is the PC-1 image of some key. */
  lemma PermutedChoice1Onto(c: bv64, d: bv64)
    requires c >> 28 == 0 && d >> 28 == 0
    ensures PermutedChoice1Left(UnpermutedChoice1(c, d)) == c
    ensures PermutedChoice1Right(UnpermutedChoice1(c, d)) == d
  {
    PermutedChoice1LeftOnto(c, d);
    PermutedChoice1RightOnto(c, d);
  }

  lemma PermutedChoice1LeftOnto(c: bv64, d: bv64)
    requires c >> 28 == 0 && d >> 28 == 0
    ensures PermutedChoice1Left(UnpermutedChoice1(c, d)) == c
  {
  }

  lemma PermutedChoice1RightOnto(c: bv64, d: bv64)
    requires c >> 28 == 0 && d >> 28 == 0
    ensures PermutedChoice1Right(UnpermutedChoice1(c, d)) == d
  {
  }

  /** The 48 bits of the register C || D that PC-2 selects; the PC-2 table
      leaves out positions 9, 18, 22, 25, 35, 38, 43 and 54. */
  const PermutedChoice2Bits: bv64 := 0x00FF_7FBB_7FDB_DFFB

  /** The register whose selected bits PC-2 would move to the bits of `y`; not
      part of des.c, it witnesses that PC-2 keeps every bit it selects. */
  function UnpermutedChoice2(y: bv64): (x: bv64)
    ensures x & !PermutedChoice2Bits == 0
  {
    Take(y, 48, 1, 42) | Take(y, 48, 2, 39) | Take(y, 48, 3, 45) | Take(y, 48, 4, 32) | Take(y, 48, 5, 55) | Take(y, 48, 6, 51) |
    Take(y, 48, 7, 53) | Take(y, 48, 8, 28) | Take(y, 48, 9, 41) | Take(y, 48, 10, 50) | Take(y, 48, 11, 35) | Take(y, 48, 12, 46) |
    Take(y, 48, 13, 33) | Take(y, 48, 14, 37) | Take(y, 48, 15, 44) | Take(y, 48, 16, 52) | Take(y, 48, 17, 30) | Take(y, 48, 18, 48) |
    Take(y, 48, 19, 40) | Take(y, 48, 20, 49) | Take(y, 48, 21, 29) | Take(y, 48, 22, 36) | Take(y, 48, 23, 43) | Take(y, 48, 24, 54) |
    Take(y, 48, 25, 15) | Take(y, 48, 26, 4) | Take(y, 48, 27, 25) | Take(y, 48, 28, 19) | Take(y, 48, 29, 9) | Take(y, 48, 30, 1) |
    Take(y, 48, 31, 26) | Take(y, 48, 32, 16) | Take(y, 48, 33, 5) | Take(y, 48, 34, 11) | Take(y, 48, 35, 23) | Take(y, 48, 36, 8) |
    Take(y, 48, 37, 12) | Take(y, 48, 38, 7) | Take(y, 48, 39, 17) | Take(y, 48, 40, 0) | Take(y, 48, 41, 22) | Take(y, 48, 42, 3) |
    Take(y, 48, 43, 10) | Take(y, 48, 44, 14) | Take(y, 48, 45, 6) | Take(y, 48, 46, 20) | Take(y, 48, 47, 27) | Take(y, 48, 48, 24)
  }

  /** PC-2 does not read the eight register bits its table leaves out, nor
      anything above bit 55. */
  lemma PermutedChoice2IgnoresDropped(x: bv64)
    ensures PermutedChoice2(x & PermutedChoice2Bits) == PermutedChoice2(x)
  {
  }

  /** PC-2 loses nothing but the bits it leaves out. */
  lemma PermutedChoice2Invertible(x: bv64)
    ensures UnpermutedChoice2(PermutedChoice2(x)) == x & PermutedChoice2Bits
  {
  }

  /** Every 48-bit word is a round key of some register. */
  lemma PermutedChoice2Onto(y: bv64)
    requires y >> 48 == 0
    ensures PermutedChoice2(UnpermutedChoice2(y)) == y
  {
  }

  /** Rotation of a 32-bit word to the right by `s` places. */
  function RotateRight32(x: bv64, s: bv7): (r: bv64)
    requires s < 32
    ensures r >> 32 == 0
  {
    ((x >> s) | (x << (32 - s))) & 0xFFFF_FFFF
  }

  /** E cuts the half block into eight overlapping 6-bit windows: window `i`
      (counted from the most significant end) is the four bits `4i+1 .. 4i+4`
      of the half block with one neighbouring bit on each side, wrapping around. */
  lemma ExpansionWindows(x: bv64)
    requires x >> 32 == 0
    ensures (Expansion(x) >> 42) & 63 == RotateRight32(x, 27) & 63
    ensures (Expansion(x) >> 36) & 63 == RotateRight32(x, 23) & 63
    ensures (Expansion(x) >> 30) & 63 == RotateRight32(x, 19) & 63
    ensures (Expansion(x) >> 24) & 63 == RotateRight32(x, 15) & 63
    ensures (Expansion(x) >> 18) & 63 == RotateRight32(x, 11) & 63
    ensures (Expansion(x) >> 12) & 63 == RotateRight32(x, 7) & 63
    ensures (Expansion(x) >> 6) & 63 == RotateRight32(x, 3) & 63
    ensures (Expansion(x) >> 0) & 63 == RotateRight32(x, 31) & 63
  {
    ExpansionWindow0(x);
    ExpansionWindow1(x);
    ExpansionWindow2(x);
    ExpansionWindow3(x);
    ExpansionWindow4(x);
    ExpansionWindow5(x);
    ExpansionWindow6(x);
    ExpansionWindow7(x);
  }

  lemma ExpansionWindow0(x: bv64)
    requires x >> 32 == 0
    ensures (Expansion(x) >> 42) & 63 == RotateRight32(x, 27) & 63
  {
  }

  lemma ExpansionWindow1(x: bv64)
    requires x >> 32 == 0
    ensures (Expansion(x) >> 36) & 63 == RotateRight32(x, 23) & 63
  {
  }

  lemma ExpansionWindow2(x: bv64)
    requires x >> 32 == 0
    ensures (Expansion(x) >> 30) & 63 == RotateRight32(x, 19) & 63
  {
  }

  lemma ExpansionWindow3(x: bv64)
    requires x >> 32 == 0
    ensures (Expansion(x) >> 24) & 63 == RotateRight32(x, 15) & 63
  {
  }

  lemma ExpansionWindow4(x: bv64)
    requires x >> 32 == 0
    ensures (Expansion(x) >> 18) & 63 == RotateRight32(x, 11) & 63
  {
  }

  lemma ExpansionWindow5(x: bv64)
    requires x >> 32 == 0
    ensures (Expansion(x) >> 12) & 63 == RotateRight32(x, 7) & 63
  {
  }

  lemma ExpansionWindow6(x: bv64)
    requires x >> 32 == 0
    ensures (Expansion(x) >> 6) & 63 == RotateRight32(x, 3) & 63
  {
  }

  lemma ExpansionWindow7(x: bv64)
    requires x >> 32 == 0
    ensures (Expansion(x) >> 0) & 63 == RotateRight32(x, 31) & 63
  {
  }
}

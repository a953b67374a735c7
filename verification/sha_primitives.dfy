/** The 32-bit word functions of SHA-256 (sha.c: rotate, funct0, funct1,
    sum0, sum1, majority, choice), which are the functions of section 4.1.2
    of FIPS PUB 180-4. Words are C's `uint32_t`: `bv32`, whose arithmetic
    wraps modulo 2^32 as the C arithmetic does. */
module ShaPrimitives {
  type Word = bv32

  /** rotate: the word shifted right by `shift` places, with the bits that
      fall off re-entering at the top. A shift of 0 would shift left by 32,
      which C leaves undefined; sha.c only uses shifts from 2 to 25. */
  function Rotate(input: Word, shift: Word): Word
    requires 0 < shift < 32
  {
    (input >> shift) | (input << (32 - shift))
  }

  /** Rotating on by the remaining `32 - shift` places restores the word. */
  lemma RotateUndone(input: Word, shift: Word)
    requires 0 < shift < 32
    ensures Rotate(Rotate(input, shift), 32 - shift) == input
  {
  }

  lemma RotateLow(input: Word, shift: Word)
    requires 1 <= shift <= 8
    ensures Rotate(input, shift) == input.RotateRight(shift as nat)
  {
    match shift
    case 1 => case 2 => case 3 => case 4 => case 5 => case 6 => case 7 => case 8 =>
  }

  lemma RotateMiddleLow(input: Word, shift: Word)
    requires 9 <= shift <= 16
    ensures Rotate(input, shift) == input.RotateRight(shift as nat)
  {
    match shift
    case 9 => case 10 => case 11 => case 12 => case 13 => case 14 => case 15 => case 16 =>
  }

  lemma RotateMiddleHigh(input: Word, shift: Word)
    requires 17 <= shift <= 24
    ensures Rotate(input, shift) == input.RotateRight(shift as nat)
  {
    match shift
    case 17 => case 18 => case 19 => case 20 => case 21 => case 22 => case 23 => case 24 =>
  }

  lemma RotateHigh(input: Word, shift: Word)
    requires 25 <= shift <= 31
    ensures Rotate(input, shift) == input.RotateRight(shift as nat)
  {
    match shift
    case 25 => case 26 => case 27 => case 28 => case 29 => case 30 => case 31 =>
  }

  /** rotate is the circular right shift ROTR of section 3.2 of FIPS PUB 180-4. */
  lemma RotateIsRotateRight(input: Word, shift: Word)
    requires 0 < shift < 32
    ensures Rotate(input, shift) == input.RotateRight(shift as nat)
  {
    if shift <= 8 {
      RotateLow(input, shift);
    } else if shift <= 16 {
      RotateMiddleLow(input, shift);
    } else if shift <= 24 {
      RotateMiddleHigh(input, shift);
    } else {
      RotateHigh(input, shift);
    }
  }

  /* funct0, funct1, sum0 and sum1 call rotate with constant shifts; each
     call is written out below as rotate's own expression with that shift,
     which keeps the word functions cheap for the verifier to unfold. */

  /** funct0: rotate by 7, rotate by 18 and shift by 3, combined by xor. */
  function SmallSigma0(x: Word): Word {
    ((x >> 7) | (x << 25)) ^ ((x >> 18) | (x << 14)) ^ (x >> 3)
  }

  /** funct1: rotate by 17, rotate by 19 and shift by 10, combined by xor. */
  function SmallSigma1(x: Word): Word {
    ((x >> 17) | (x << 15)) ^ ((x >> 19) | (x << 13)) ^ (x >> 10)
  }

  /** sum0: rotations by 2, 13 and 22, combined by xor. */
  function BigSigma0(x: Word): Word {
    ((x >> 2) | (x << 30)) ^ ((x >> 13) | (x << 19)) ^ ((x >> 22) | (x << 10))
  }

  /** sum1: rotations by 6, 11 and 25, combined by xor. */
  function BigSigma1(x: Word): Word {
    ((x >> 6) | (x << 26)) ^ ((x >> 11) | (x << 21)) ^ ((x >> 25) | (x << 7))
  }

  /** funct0 is the function sigma-0 of FIPS PUB 180-4, equation 4.6. */
  lemma SmallSigma0IsFips(x: Word)
    ensures SmallSigma0(x) == x.RotateRight(7) ^ x.RotateRight(18) ^ (x >> 3)
  {
  }

  /** funct1 is sigma-1, equation 4.7. */
  lemma SmallSigma1IsFips(x: Word)
    ensures SmallSigma1(x) == x.RotateRight(17) ^ x.RotateRight(19) ^ (x >> 10)
  {
  }

  /** sum0 is Sigma-0, equation 4.4. */
  lemma BigSigma0IsFips(x: Word)
    ensures BigSigma0(x) == x.RotateRight(2) ^ x.RotateRight(13) ^ x.RotateRight(22)
  {
  }

  /** sum1 is Sigma-1, equation 4.5. */
  lemma BigSigma1IsFips(x: Word)
    ensures BigSigma1(x) == x.RotateRight(6) ^ x.RotateRight(11) ^ x.RotateRight(25)
  {
  }

  /** The rotations written out in the four functions are rotate's. */
  lemma SigmasUseRotate(x: Word)
    ensures (x >> 7) | (x << 25) == Rotate(x, 7) && (x >> 18) | (x << 14) == Rotate(x, 18)
    ensures (x >> 17) | (x << 15) == Rotate(x, 17) && (x >> 19) | (x << 13) == Rotate(x, 19)
    ensures (x >> 2) | (x << 30) == Rotate(x, 2) && (x >> 13) | (x << 19) == Rotate(x, 13)
    ensures (x >> 22) | (x << 10) == Rotate(x, 22) && (x >> 6) | (x << 26) == Rotate(x, 6)
    ensures (x >> 11) | (x << 21) == Rotate(x, 11) && (x >> 25) | (x << 7) == Rotate(x, 25)
  {
  }

  /** choice. */
  function Choice(x: Word, y: Word, z: Word): Word {
    (x & y) ^ (!x & z)
  }

  /** choice takes each bit from `y` where `x` has a one and from `z` where it has a zero. */
  lemma ChoiceSelects(x: Word, y: Word, z: Word)
    ensures Choice(x, y, z) & x == y & x
    ensures Choice(x, y, z) & !x == z & !x
  {
  }

  /** majority. */
  function Majority(x: Word, y: Word, z: Word): Word {
    (x & y) ^ (x & z) ^ (y & z)
  }

  /** majority sets a bit exactly when it is set in at least two of the three words. */
  lemma MajorityVotes(x: Word, y: Word, z: Word)
    ensures Majority(x, y, z) == (x & y) | (x & z) | (y & z)
  {
  }

  /** The two words that agree outvote the third. */
  lemma MajorityOfAgreeing(x: Word, z: Word)
    ensures Majority(x, x, z) == x && Majority(x, z, x) == x && Majority(z, x, x) == x
  {
  }
}

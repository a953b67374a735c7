/** The DES key schedule (des.c: key_shift, pc_2, generate_key_schedule): the
    key is split by PC-1 into two 28-bit halves C and D, both halves are rotated
    left by one or two places before every round, and PC-2 picks the 48-bit
    round key from C || D. */
module KeySchedule {
  import opened DesTables
  import opened Permutations

  /** One pass of the loop in key_shift: the 28-bit half moves one place to the
      left and its bit 27 re-enters at bit 0. */
  function RotateOnce(half: bv64): bv64 {
    (0x0FFF_FFFF & (half << 1)) | (1 & (half >> 27))
  }

  /** `RotateOnce` applied `n` times, as the loop in key_shift does. */
  function RotateTimes(half: bv64, n: nat): bv64
    decreases n
  {
    if n == 0 then half else RotateTimes(RotateOnce(half), n - 1)
  }

  /** key_shift: the rotation before round `round` (0-based). */
  function KeyShift(half: bv64, round: nat): bv64
    requires round < 16
  {
    RotateTimes(half, Shifts[round])
  }

  /** Rotation of a 28-bit word to the left by `s` places, as FIPS PUB 46-3 describes the key shifts. */
  function RotateLeft28(half: bv64, s: bv7): (r: bv64)
    requires half >> 28 == 0 && s <= 28
    ensures r >> 28 == 0
  {
    ((half << s) | (half >> (28 - s))) & 0x0FFF_FFFF
  }

  /** KeyShift is the rotation by the round's entry of the shift schedule. */
  lemma KeyShiftRotates(half: bv64, round: nat)
    requires round < 16
    ensures KeyShift(half, round) == RotateLeft28(half & 0x0FFF_FFFF, Shifts[round] as bv7)
  {
    if Shifts[round] == 1 {
      assert KeyShift(half, round) == RotateOnce(half);
    } else {
      assert KeyShift(half, round) == RotateOnce(RotateOnce(half));
    }
  }

  lemma {:induction false} RotateTimesAdd(half: bv64, a: nat, b: nat)
    ensures RotateTimes(half, a + b) == RotateTimes(RotateTimes(half, a), b)
    decreases a
  {
    if a > 0 {
      RotateTimesAdd(RotateOnce(half), a - 1, b);
    }
  }

  lemma FourRotations(half: bv64)
    requires half >> 28 == 0
    ensures RotateTimes(half, 4) == RotateLeft28(half, 4)
  {
    var h1 := RotateOnce(half);
    var h2 := RotateOnce(h1);
    var h3 := RotateOnce(h2);
    assert RotateTimes(half, 4) == RotateTimes(h3, 1);
    assert RotateOnce(RotateOnce(RotateOnce(RotateOnce(half)))) == RotateLeft28(half, 4);
  }

  lemma SevenFourRotations(half: bv64)
    requires half >> 28 == 0
    ensures RotateLeft28(RotateLeft28(RotateLeft28(RotateLeft28(RotateLeft28(RotateLeft28(RotateLeft28(
              half, 4), 4), 4), 4), 4), 4), 4) == half
  {
  }

  /** Twenty-eight single rotations bring a 28-bit half back to where it started. */
  lemma FullTurn(half: bv64)
    requires half >> 28 == 0
    ensures RotateTimes(half, 28) == half
  {
    RotateByFours(half, 7);
    SevenFourRotations(half);
  }

  /** `RotateLeft28(., 4)` applied `k` times. */
  function Fours(half: bv64, k: nat): bv64
    requires half >> 28 == 0
    decreases k
  {
    if k == 0 then half else Fours(RotateLeft28(half, 4), k - 1)
  }

  /** Single rotations taken four at a time are rotations by four places. */
  lemma {:induction false} RotateByFours(half: bv64, k: nat)
    requires half >> 28 == 0
    ensures RotateTimes(half, 4 * k) == Fours(half, k)
    decreases k
  {
    if k > 0 {
      FourRotations(half);
      RotateTimesAdd(half, 4, 4 * (k - 1));
      RotateByFours(RotateLeft28(half, 4), k - 1);
    }
  }

  /** The two 28-bit halves of the key register. */
  datatype Register = Register(c: bv64, d: bv64)

  /** The register as pc_1_c and pc_1_d fill it from the key. */
  function InitialRegister(key: bv64): (reg: Register)
    ensures reg.c >> 28 == 0 && reg.d >> 28 == 0
  {
    Register(PermutedChoice1Left(key), PermutedChoice1Right(key))
  }

  /** The register after `rounds` passes of the loop in generate_key_schedule;
      pass `i` rotates both halves by key_shift(., i). */
  function RegisterAfter(start: Register, rounds: nat): Register
    requires rounds <= 16
  {
    if rounds == 0 then start
    else
      var prev := RegisterAfter(start, rounds - 1);
      Register(KeyShift(prev.c, rounds - 1), KeyShift(prev.d, rounds - 1))
  }

  /** pc_2: the round key selected from C || D. */
  function RoundKey(reg: Register): (k: bv64)
    ensures k >> 48 == 0
  {
    PermutedChoice2((reg.c << 28) | reg.d)
  }

  /** The sixteen round keys that grow out of a register: key `i` is taken
      after the `i + 1`-th rotation. */
  function RoundKeys(start: Register): (ks: seq<bv64>)
    ensures |ks| == 16
    ensures forall i :: 0 <= i < 16 ==> ks[i] >> 48 == 0
  {
    seq(16, i requires 0 <= i < 16 => RoundKey(RegisterAfter(start, i + 1)))
  }

  /** generate_key_schedule. */
  function Schedule(key: bv64): (ks: seq<bv64>)
    ensures |ks| == 16
    ensures forall i :: 0 <= i < 16 ==> ks[i] >> 48 == 0
  {
    RoundKeys(InitialRegister(key))
  }

  /** Total number of single rotations in the first `rounds` rounds. */
  function TotalShift(rounds: nat): nat
    requires rounds <= 16
  {
    if rounds == 0 then 0 else TotalShift(rounds - 1) + Shifts[rounds - 1]
  }

  /** After `rounds` rounds each half has been rotated by the running total of
      the shift schedule. */
  lemma {:induction false} RegisterRotatedByTotal(start: Register, rounds: nat)
    requires rounds <= 16
    ensures RegisterAfter(start, rounds)
            == Register(RotateTimes(start.c, TotalShift(rounds)), RotateTimes(start.d, TotalShift(rounds)))
  {
    if rounds > 0 {
      RegisterRotatedByTotal(start, rounds - 1);
      RotateTimesAdd(start.c, TotalShift(rounds - 1), Shifts[rounds - 1]);
      RotateTimesAdd(start.d, TotalShift(rounds - 1), Shifts[rounds - 1]);
    }
  }

  lemma TotalShiftIsFullTurn()
    ensures TotalShift(16) == 28
  {
    assert TotalShift(4) == 6;
    assert TotalShift(8) == 14;
    assert TotalShift(12) == 21;
  }

  /** The shift schedule adds up to one full turn of a 28-bit half, so the
      register ends where PC-1 put it. */
  lemma RegisterReturns(key: bv64)
    ensures RegisterAfter(InitialRegister(key), 16) == InitialRegister(key)
  {
    var start := InitialRegister(key);
    RegisterRotatedByTotal(start, 16);
    TotalShiftIsFullTurn();
    FullTurn(start.c);
    FullTurn(start.d);
  }

  /** The schedule does not depend on the key's parity bits. */
  lemma ScheduleIgnoresParity(key: bv64)
    ensures Schedule(key & !ParityBits) == Schedule(key)
  {
    PermutedChoice1IgnoresParity(key);
  }

  /** The four weak keys of DES: PC-1 fills each half with all zeros or all ones. */
  predicate WeakKey(key: bv64) {
    key == 0x0101_0101_0101_0101 || key == 0xFEFE_FEFE_FEFE_FEFE
    || key == 0xE0E0_E0E0_F1F1_F1F1 || key == 0x1F1F_1F1F_0E0E_0E0E
  }

  lemma {:induction false} RotateTimesFixed(half: bv64, n: nat)
    requires RotateOnce(half) == half
    ensures RotateTimes(half, n) == half
    decreases n
  {
    if n > 0 {
      RotateTimesFixed(half, n - 1);
    }
  }

  lemma {:induction false} RegisterAfterFixed(start: Register, rounds: nat)
    requires rounds <= 16
    requires RotateOnce(start.c) == start.c && RotateOnce(start.d) == start.d
    ensures RegisterAfter(start, rounds) == start
  {
    if rounds > 0 {
      RegisterAfterFixed(start, rounds - 1);
      RotateTimesFixed(start.c, Shifts[rounds - 1]);
      RotateTimesFixed(start.d, Shifts[rounds - 1]);
    }
  }

  lemma WeakKeyHalves(key: bv64)
    requires WeakKey(key)
    ensures RotateOnce(InitialRegister(key).c) == InitialRegister(key).c
    ensures RotateOnce(InitialRegister(key).d) == InitialRegister(key).d
  {
    var start := InitialRegister(key);
    assert start.c == 0 || start.c == 0x0FFF_FFFF;
    assert start.d == 0 || start.d == 0x0FFF_FFFF;
  }

  /** A weak key yields the same round key in all sixteen rounds. */
  lemma WeakKeyScheduleConstant(key: bv64)
    requires WeakKey(key)
    ensures forall i :: 0 <= i < 16 ==> Schedule(key)[i] == Schedule(key)[0]
  {
    var start := InitialRegister(key);
    WeakKeyHalves(key);
    forall i | 0 <= i < 16
      ensures Schedule(key)[i] == RoundKey(start)
    {
      RegisterAfterFixed(start, i + 1);
    }
  }
}

/** The DES block cipher of des.c: the round function f (e, input_key_xor,
    s_box_substitution, p), the sixteen Feistel rounds and des_encrypt /
    des_decrypt. All words are uint64_t in des.c and bv64 here. */
module Des {
  import opened DesTables
  import opened Permutations
  import opened KeySchedule

  /** One pass of the loop in input_key_xor: bit `n` of input xor bit `n` of key. */
  function XorBit(input: bv64, key: bv64, n: bv7): bv64
    requires n < 64
  {
    (((input >> n) & 1) ^ ((key >> n) & 1)) << n
  }

  /** input_key_xor: the 48-bit exclusive or, one bit per loop pass. */
  function InputKeyXor(input: bv64, key: bv64): (r: bv64)
    ensures r == (input ^ key) & 0xFFFF_FFFF_FFFF
  {
    XorBit(input, key, 47) | XorBit(input, key, 46) | XorBit(input, key, 45) | XorBit(input, key, 44) | XorBit(input, key, 43) | XorBit(input, key, 42) |
    XorBit(input, key, 41) | XorBit(input, key, 40) | XorBit(input, key, 39) | XorBit(input, key, 38) | XorBit(input, key, 37) | XorBit(input, key, 36) |
    XorBit(input, key, 35) | XorBit(input, key, 34) | XorBit(input, key, 33) | XorBit(input, key, 32) | XorBit(input, key, 31) | XorBit(input, key, 30) |
    XorBit(input, key, 29) | XorBit(input, key, 28) | XorBit(input, key, 27) | XorBit(input, key, 26) | XorBit(input, key, 25) | XorBit(input, key, 24) |
    XorBit(input, key, 23) | XorBit(input, key, 22) | XorBit(input, key, 21) | XorBit(input, key, 20) | XorBit(input, key, 19) | XorBit(input, key, 18) |
    XorBit(input, key, 17) | XorBit(input, key, 16) | XorBit(input, key, 15) | XorBit(input, key, 14) | XorBit(input, key, 13) | XorBit(input, key, 12) |
    XorBit(input, key, 11) | XorBit(input, key, 10) | XorBit(input, key, 9) | XorBit(input, key, 8) | XorBit(input, key, 7) | XorBit(input, key, 6) |
    XorBit(input, key, 5) | XorBit(input, key, 4) | XorBit(input, key, 3) | XorBit(input, key, 2) | XorBit(input, key, 1) | XorBit(input, key, 0)
  }

  /** small_chunks[i] of s_box_substitution: 6-bit group `i` of a 48-bit word,
      group 0 being the most significant. */
  function Chunk(x: bv64, i: nat): (c: bv8)
    requires i < 8
    ensures c < 64
  {
    ((x >> (42 - 6 * i) as bv7) & 63) as bv8
  }

  /** The S-box row of a chunk, as s_box_substitution computes it. */
  function Row(c: bv8): bv8 {
    ((c >> 5) << 1) | (c & 1)
  }

  /** The S-box column of a chunk, as s_box_substitution computes it. */
  function Column(c: bv8): bv8 {
    (c & !(1 << 5) & !1) >> 1
  }

  /** Row and column are the outer two bits and the middle four bits of the
      chunk (FIPS PUB 46-3), and together they give the chunk back. */
  lemma RowColumnOfChunk(c: bv8)
    requires c < 64
    ensures Row(c) == ((c >> 4) & 2) | (c & 1)
    ensures Column(c) == (c >> 1) & 0xF
    ensures Row(c) < 4 && Column(c) < 16
    ensures c == ((Row(c) & 2) << 4) | (Column(c) << 1) | (Row(c) & 1)
  {
  }

  lemma SBoxesShape()
    ensures |SBoxes| == 8
    ensures forall i :: 0 <= i < 8 ==> |SBoxes[i]| == 64
  {
  }

  /** S_PRIM_ARR[i][row * 16 + col]: the entry of S-box `i` for a chunk. */
  function SBoxEntry(i: nat, c: bv8): bv4
    requires i < 8 && c < 64
  {
    SBoxesShape();
    RowColumnOfChunk(c);
    SBoxes[i][(Row(c) * 16 + Column(c)) as int]
  }

  /** One pass of the second loop of s_box_substitution: shift the output up
      one nibble and put the S-box entry below it. */
  function ShiftIn(output: bv64, entry: bv4): bv64 {
    (output << 4) | entry as bv64
  }

  /** Eight entries shifted in one after the other: entry `i` lands in nibble
      `i` counted from the most significant of the low 32 bits. */
  function Pack(e0: bv4, e1: bv4, e2: bv4, e3: bv4, e4: bv4, e5: bv4, e6: bv4, e7: bv4): (r: bv64)
    ensures r >> 32 == 0
    ensures (r >> 28) & 0xF == e0 as bv64
    ensures (r >> 24) & 0xF == e1 as bv64
    ensures (r >> 20) & 0xF == e2 as bv64
    ensures (r >> 16) & 0xF == e3 as bv64
    ensures (r >> 12) & 0xF == e4 as bv64
    ensures (r >> 8) & 0xF == e5 as bv64
    ensures (r >> 4) & 0xF == e6 as bv64
    ensures (r >> 0) & 0xF == e7 as bv64
  {
    ShiftIn(ShiftIn(ShiftIn(ShiftIn(ShiftIn(ShiftIn(ShiftIn(ShiftIn(0, e0), e1), e2), e3), e4), e5), e6), e7)
  }

  /** s_box_substitution: eight S-box lookups, each shifted in below the previous ones.
      Nibble `i` of the result (0 = most significant) is S-box `i` applied to chunk `i`. */
  function SBoxSubstitution(x: bv64): (r: bv64)
    ensures r >> 32 == 0
  {
    Pack(SBoxEntry(0, Chunk(x, 0)), SBoxEntry(1, Chunk(x, 1)), SBoxEntry(2, Chunk(x, 2)), SBoxEntry(3, Chunk(x, 3)), SBoxEntry(4, Chunk(x, 4)), SBoxEntry(5, Chunk(x, 5)), SBoxEntry(6, Chunk(x, 6)), SBoxEntry(7, Chunk(x, 7)))
  }

  /** Nibble `i` of the S-box output (0 = most significant) is S-box `i`
      applied to chunk `i` of the input. */
  lemma SBoxSubstitutionNibbles(x: bv64)
    ensures (SBoxSubstitution(x) >> 28) & 0xF == SBoxEntry(0, Chunk(x, 0)) as bv64
    ensures (SBoxSubstitution(x) >> 24) & 0xF == SBoxEntry(1, Chunk(x, 1)) as bv64
    ensures (SBoxSubstitution(x) >> 20) & 0xF == SBoxEntry(2, Chunk(x, 2)) as bv64
    ensures (SBoxSubstitution(x) >> 16) & 0xF == SBoxEntry(3, Chunk(x, 3)) as bv64
    ensures (SBoxSubstitution(x) >> 12) & 0xF == SBoxEntry(4, Chunk(x, 4)) as bv64
    ensures (SBoxSubstitution(x) >> 8) & 0xF == SBoxEntry(5, Chunk(x, 5)) as bv64
    ensures (SBoxSubstitution(x) >> 4) & 0xF == SBoxEntry(6, Chunk(x, 6)) as bv64
    ensures (SBoxSubstitution(x) >> 0) & 0xF == SBoxEntry(7, Chunk(x, 7)) as bv64
  {
  }

  /** f: the cipher function of one round on the 32-bit right half. */
  function F(r: bv64, k: bv64): (out: bv64)
    ensures out >> 32 == 0
  {
    PermutationP(SBoxSubstitution(InputKeyXor(Expansion(r), k)))
  }

  /** The left and right halves l and r of des_encrypt. */
  datatype Halves = Halves(l: bv64, r: bv64)

  /** split_l_r: the high word becomes l and the low word r. */
  function Split(x: bv64): (h: Halves)
    ensures h.l >> 32 == 0 && h.r >> 32 == 0
  {
    Halves(x >> 32, x & 0xFFFF_FFFF)
  }

  /** The block handed to final_permutation after the last round: r << 32 | l,
      that is, the halves swapped back. */
  function Join(h: Halves): bv64 {
    (h.r << 32) | h.l
  }

  predicate Bounded(h: Halves) {
    h.l >> 32 == 0 && h.r >> 32 == 0
  }

  /** A round function of a Feistel network: the right half and the round key
      give the word mixed into the left half. */
  type RoundFunction = (bv64, bv64) -> bv64

  /** One pass of the loop in des_encrypt with round function `f`: l takes the
      old r, and r becomes l ^ f(r, k). */
  function Round(h: Halves, k: bv64, f: RoundFunction): (next: Halves)
    ensures next.l == h.r
  {
    Halves(h.r, h.l ^ f(h.r, k))
  }

  /** The rounds of des_encrypt, one per key, in the order given. */
  function Rounds(h: Halves, ks: seq<bv64>, f: RoundFunction): Halves
    decreases |ks|
  {
    if |ks| == 0 then h else Rounds(Round(h, ks[0], f), ks[1..], f)
  }

  /** The key sequence read backwards, as des_decrypt reads key_schedule[15 - i]. */
  function Reverse(ks: seq<bv64>): (rs: seq<bv64>)
    ensures |rs| == |ks|
    ensures forall i :: 0 <= i < |ks| ==> rs[i] == ks[|ks| - 1 - i]
  {
    seq(|ks|, i requires 0 <= i < |ks| => ks[|ks| - 1 - i])
  }

  /** The exchange of the two halves. */
  function Swap(h: Halves): (s: Halves)
    ensures s.l == h.r && s.r == h.l
  {
    Halves(h.r, h.l)
  }

  /** A round function whose output fits in 32 bits, as f does. */
  ghost predicate Narrow(f: RoundFunction) {
    forall a, k :: f(a, k) >> 32 == 0
  }

  lemma {:induction false} RoundsBounded(h: Halves, ks: seq<bv64>, f: RoundFunction)
    requires Bounded(h) && Narrow(f)
    ensures Bounded(Rounds(h, ks, f))
    decreases |ks|
  {
    if |ks| > 0 {
      RoundsBounded(Round(h, ks[0], f), ks[1..], f);
    }
  }

  lemma {:induction false} RoundsSnoc(h: Halves, ks: seq<bv64>, k: bv64, f: RoundFunction)
    ensures Rounds(h, ks + [k], f) == Round(Rounds(h, ks, f), k, f)
    decreases |ks|
  {
    if |ks| > 0 {
      assert (ks + [k])[1..] == ks[1..] + [k];
      RoundsSnoc(Round(h, ks[0], f), ks[1..], k, f);
    }
  }

  /** A Feistel round is undone by the same round on the swapped halves. */
  lemma RoundUndone(h: Halves, k: bv64, f: RoundFunction)
    ensures Round(Swap(Round(h, k, f)), k, f) == Swap(h)
  {
  }

  /** Running the rounds backwards with the keys reversed, on the swapped
      output, gives the swapped input: the Feistel structure inverts itself
      whatever the round function. */
  lemma {:induction false} RoundsUndone(h: Halves, ks: seq<bv64>, f: RoundFunction)
    ensures Rounds(Swap(Rounds(h, ks, f)), Reverse(ks), f) == Swap(h)
    decreases |ks|
  {
    if |ks| > 0 {
      var front := ks[..|ks| - 1];
      var k := ks[|ks| - 1];
      assert ks == front + [k];
      RoundsSnoc(h, front, k, f);
      var mid := Rounds(h, front, f);
      assert Reverse(ks) == [k] + Reverse(front);
      assert Reverse(ks)[1..] == Reverse(front);
      RoundUndone(mid, k, f);
      RoundsUndone(h, front, f);
    }
  }

  lemma FIsNarrow()
    ensures Narrow(F)
  {
  }

  /** The common body of des_encrypt and des_decrypt with the round keys in the order used. */
  function Cipher(data: bv64, ks: seq<bv64>): bv64 {
    FinalPermutation(Join(Rounds(Split(InitialPermutation(data)), ks, F)))
  }

  /** des_encrypt: the round keys in schedule order. */
  function Encrypt(data: bv64, key: bv64): bv64 {
    Cipher(data, Schedule(key))
  }

  /** des_decrypt: the round keys in reverse schedule order. */
  function Decrypt(data: bv64, key: bv64): bv64 {
    Cipher(data, Reverse(Schedule(key)))
  }

  lemma SplitJoin(h: Halves)
    requires Bounded(h)
    ensures Split(Join(h)) == Swap(h)
  {
  }

  lemma JoinSplit(x: bv64)
    ensures Join(Swap(Split(x))) == x
  {
  }

  /** Deciphering with the reversed key sequence undoes enciphering. */
  lemma CipherUndone(data: bv64, ks: seq<bv64>)
    ensures Cipher(Cipher(data, ks), Reverse(ks)) == data
  {
    var start := Split(InitialPermutation(data));
    var out := Rounds(start, ks, F);
    FIsNarrow();
    RoundsBounded(start, ks, F);
    InitialUndoesFinal(Join(out));
    SplitJoin(out);
    RoundsUndone(start, ks, F);
    JoinSplit(InitialPermutation(data));
    FinalUndoesInitial(data);
  }

  lemma ReverseReverse(ks: seq<bv64>)
    ensures Reverse(Reverse(ks)) == ks
  {
  }

  /** des_decrypt inverts des_encrypt under the same key. */
  lemma DecryptEncrypt(data: bv64, key: bv64)
    ensures Decrypt(Encrypt(data, key), key) == data
  {
    CipherUndone(data, Schedule(key));
  }

  /** des_encrypt inverts des_decrypt under the same key. */
  lemma EncryptDecrypt(data: bv64, key: bv64)
    ensures Encrypt(Decrypt(data, key), key) == data
  {
    CipherUndone(data, Reverse(Schedule(key)));
    ReverseReverse(Schedule(key));
  }

  /** The reversed schedule of a weak key is the schedule itself. */
  lemma WeakKeyReverseSchedule(key: bv64)
    requires WeakKey(key)
    ensures Reverse(Schedule(key)) == Schedule(key)
  {
    WeakKeyScheduleConstant(key);
  }

  /** Under a weak key, des_encrypt is its own inverse. */
  lemma WeakKeyInvolution(data: bv64, key: bv64)
    requires WeakKey(key)
    ensures Encrypt(Encrypt(data, key), key) == data
  {
    WeakKeyReverseSchedule(key);
    DecryptEncrypt(data, key);
  }
}

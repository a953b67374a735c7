/** The hash computation of sha.c (`sha256`, `sha256_file`): the padded
    message is cut into chunks of sixteen words, each chunk is expanded to a
    schedule of 64 words and mixed into eight working variables by 64 rounds,
    and the variables are added back into the running hash. The starting hash
    and the round constants live in sha.h, which is not part of this model;
    they are the values of sections 5.3.3 and 4.2.2 of FIPS PUB 180-4. */
module Sha256 {
  import opened ShaPrimitives
  import opened ShaPad

  /** K_ARR: the 64 round constants. */
  const K: seq<Word> := [
    0x428A_2F98, 0x7137_4491, 0xB5C0_FBCF, 0xE9B5_DBA5,
    0x3956_C25B, 0x59F1_11F1, 0x923F_82A4, 0xAB1C_5ED5,
    0xD807_AA98, 0x1283_5B01, 0x2431_85BE, 0x550C_7DC3,
    0x72BE_5D74, 0x80DE_B1FE, 0x9BDC_06A7, 0xC19B_F174,
    0xE49B_69C1, 0xEFBE_4786, 0x0FC1_9DC6, 0x240C_A1CC,
    0x2DE9_2C6F, 0x4A74_84AA, 0x5CB0_A9DC, 0x76F9_88DA,
    0x983E_5152, 0xA831_C66D, 0xB003_27C8, 0xBF59_7FC7,
    0xC6E0_0BF3, 0xD5A7_9147, 0x06CA_6351, 0x1429_2967,
    0x27B7_0A85, 0x2E1B_2138, 0x4D2C_6DFC, 0x5338_0D13,
    0x650A_7354, 0x766A_0ABB, 0x81C2_C92E, 0x9272_2C85,
    0xA2BF_E8A1, 0xA81A_664B, 0xC24B_8B70, 0xC76C_51A3,
    0xD192_E819, 0xD699_0624, 0xF40E_3585, 0x106A_A070,
    0x19A4_C116, 0x1E37_6C08, 0x2748_774C, 0x34B0_BCB5,
    0x391C_0CB3, 0x4ED8_AA4A, 0x5B9C_CA4F, 0x682E_6FF3,
    0x748F_82EE, 0x78A5_636F, 0x84C8_7814, 0x8CC7_0208,
    0x90BE_FFFA, 0xA450_6CEB, 0xBEF9_A3F7, 0xC671_78F2
  ]

  /** A new word of the message schedule from the words 16, 15, 7 and 2
      places back, summed in the order of sha.c (the recurrence of section
      6.2.2 of FIPS PUB 180-4 with its terms reordered). */
  function NextWord(w16: Word, w15: Word, w7: Word, w2: Word): Word {
    w16 + SmallSigma0(w15) + w7 + SmallSigma1(w2)
  }

  /** Word `t` of a schedule follows from the four words before it. */
  predicate Recurrence(w: seq<Word>, t: nat)
    requires 16 <= t < |w|
  {
    w[t] == NextWord(w[t - 16], w[t - 15], w[t - 7], w[t - 2])
  }

  /** The message schedule grown from a prefix of at least sixteen words up
      to 64 words. */
  function ExtendSchedule(w: seq<Word>): (r: seq<Word>)
    requires 16 <= |w| <= 64
    ensures |r| == 64 && r[..|w|] == w
    ensures forall t :: |w| <= t < 64 ==> Recurrence(r, t)
    decreases 64 - |w|
  {
    if |w| == 64 then w
    else
      var k := |w| - 16;
      var r := ExtendSchedule(w + [NextWord(w[k], w[k + 1], w[k + 9], w[k + 14])]);
      assert r[..|w| + 1][|w|] == r[|w|];
      assert Recurrence(r, |w|);
      r
  }

  /** The schedule of one chunk: the chunk itself, then 48 words each
      following from the ones before. */
  function Schedule(chunk: seq<Word>): (w: seq<Word>)
    requires |chunk| == 16
    ensures |w| == 64 && w[..16] == chunk
    ensures forall t :: 16 <= t < 64 ==> Recurrence(w, t)
  {
    ExtendSchedule(chunk)
  }

  /** The loop of sha256 that fills `chunk[16 .. 63]` in place. */
  method ComputeSchedule(block: seq<Word>) returns (chunk: seq<Word>)
    requires |block| == 16
    ensures chunk == Schedule(block)
  {
    chunk := block + seq(48, _ => 0);
    ghost var w := Schedule(block);
    var k := 0;
    while k < 48
      invariant k <= 48 && |chunk| == 64
      invariant chunk[..k + 16] == w[..k + 16]
    {
      assert Recurrence(w, k + 16);
      chunk := chunk[k + 16 := NextWord(chunk[k], chunk[k + 1], chunk[k + 9], chunk[k + 14])];
      assert chunk[..k + 17] == w[..k + 17];
      k := k + 1;
    }
  }

  /** The eight working variables a .. h. */
  datatype Registers = Registers(a: Word, b: Word, c: Word, d: Word, e: Word, f: Word, g: Word, h: Word)

  /** `uint32_t` addition, which wraps modulo 2^32. */
  function Add(x: Word, y: Word): Word {
    x + y
  }

  /** `temp1` of the round loop (T1 in section 6.2.2 of FIPS PUB 180-4): four
      `uint32_t` additions from the left. */
  function Temp1(e: Word, f: Word, g: Word, h: Word, k: Word, w: Word): Word {
    Add(Add(Add(Add(h, BigSigma1(e)), Choice(e, f, g)), k), w)
  }

  /** `temp2` of the round loop (T2 in section 6.2.2 of FIPS PUB 180-4). */
  function Temp2(a: Word, b: Word, c: Word): Word {
    BigSigma0(a) + Majority(a, b, c)
  }

  /** One pass of the round loop of sha256 with constant `k` and schedule
      word `w`: `a` and `e` take new values and the other variables move
      down by one. */
  function Round(s: Registers, k: Word, w: Word): (r: Registers)
    ensures r.b == s.a && r.c == s.b && r.d == s.c
    ensures r.f == s.e && r.g == s.f && r.h == s.g
  {
    var temp1 := Temp1(s.e, s.f, s.g, s.h, k, w);
    var temp2 := Temp2(s.a, s.b, s.c);
    Registers(Add(temp1, temp2), s.a, s.b, s.c, Add(s.d, temp1), s.e, s.f, s.g)
  }

  /** `K[j]`, the constant of round `j`. */
  function RoundConstant(j: nat): Word
    requires j < 64
  {
    K[j]
  }

  /** The first `t` rounds over the schedule `w`. */
  function Rounds(s: Registers, w: seq<Word>, t: nat): Registers
    requires |w| == 64 && t <= 64
  {
    if t == 0 then s else Round(Rounds(s, w, t - 1), RoundConstant(t - 1), w[t - 1])
  }

  /** `uint32_t` subtraction, which wraps modulo 2^32. */
  function Sub(x: Word, y: Word): Word {
    x - y
  }

  /** A round run backwards: b, c, d, f, g and h give back a, b, c, e, f and g;
      temp2 follows from b, c and d, then temp1 from a, d from e, and h from
      temp1 with its other four terms taken off. */
  function UnRound(r: Registers, k: Word, w: Word): Registers {
    var temp1 := Sub(r.a, Temp2(r.b, r.c, r.d));
    var h := Sub(Sub(Sub(Sub(temp1, w), k), Choice(r.f, r.g, r.h)), BigSigma1(r.f));
    Registers(r.b, r.c, r.d, Sub(r.e, temp1), r.f, r.g, r.h, h)
  }

  lemma AddSub(x: Word, y: Word)
    ensures Sub(Add(x, y), y) == x
  {
    assert Add(x, y) == x + y;
    assert Sub(x + y, y) == x;
  }

  lemma Temp1Sub(e: Word, f: Word, g: Word, h: Word, k: Word, w: Word)
    ensures Sub(Sub(Sub(Sub(Temp1(e, f, g, h, k, w), w), k), Choice(e, f, g)), BigSigma1(e)) == h
  {
    AddSub(Add(Add(Add(h, BigSigma1(e)), Choice(e, f, g)), k), w);
    AddSub(Add(Add(h, BigSigma1(e)), Choice(e, f, g)), k);
    AddSub(Add(h, BigSigma1(e)), Choice(e, f, g));
    AddSub(h, BigSigma1(e));
  }

  /** A round loses nothing: UnRound recovers the registers before it. */
  lemma RoundUndone(s: Registers, k: Word, w: Word)
    ensures UnRound(Round(s, k, w), k, w) == s
  {
    var temp1 := Temp1(s.e, s.f, s.g, s.h, k, w);
    var temp2 := Temp2(s.a, s.b, s.c);
    AddSub(temp1, temp2);
    AddSub(s.d, temp1);
    Temp1Sub(s.e, s.f, s.g, s.h, k, w);
  }

  /** The first `t` rounds run backwards. */
  function UnRounds(r: Registers, w: seq<Word>, t: nat): Registers
    requires |w| == 64 && t <= 64
    decreases t
  {
    if t == 0 then r else UnRounds(UnRound(r, RoundConstant(t - 1), w[t - 1]), w, t - 1)
  }

  /** The 64 rounds of a chunk are a bijection on the working variables. */
  lemma {:induction false} RoundsUndone(s: Registers, w: seq<Word>, t: nat)
    requires |w| == 64 && t <= 64
    ensures UnRounds(Rounds(s, w, t), w, t) == s
  {
    if t > 0 {
      RoundUndone(Rounds(s, w, t - 1), RoundConstant(t - 1), w[t - 1]);
      RoundsUndone(s, w, t - 1);
    }
  }

  /** HASH_ARR: the initial hash value, as the working variables a .. h take it. */
  const H0: Registers := Registers(
    0x6A09_E667, 0xBB67_AE85, 0x3C6E_F372, 0xA54F_F53A,
    0x510E_527F, 0x9B05_688C, 0x1F83_D9AB, 0x5BE0_CD19)

  /** A chunk of the padded message: sixteen words. */
  type Chunk = s: seq<Word> | |s| == 16 witness [0, 0, 0, 0, 0, 0, 0, 0, 0, 0, 0, 0, 0, 0, 0, 0]

  /** One chunk: 64 rounds starting from the running hash, then each working
      variable added back into its word of the hash. */
  function Compress(hash: Registers, chunk: Chunk): Registers {
    var w := Schedule(chunk);
    var r := Rounds(hash, w, |w|);
    Registers(Add(hash.a, r.a), Add(hash.b, r.b), Add(hash.c, r.c), Add(hash.d, r.d),
              Add(hash.e, r.e), Add(hash.f, r.f), Add(hash.g, r.g), Add(hash.h, r.h))
  }

  /** The hash after the chunks of `words` are folded in one after another
      by `compress`. */
  function Chain(hash: Registers, words: seq<Word>, compress: (Registers, Chunk) -> Registers): Registers
    requires |words| % 16 == 0
    decreases |words|
  {
    if |words| == 0 then hash else Chain(compress(hash, words[..16]), words[16..], compress)
  }

  /** Folding in the chunks of `x + y` is folding in those of `x`, then
      those of `y`. */
  lemma {:induction false} ChainAppend(hash: Registers, x: seq<Word>, y: seq<Word>,
                                       compress: (Registers, Chunk) -> Registers)
    requires |x| % 16 == 0 && |y| % 16 == 0
    ensures Chain(hash, x + y, compress) == Chain(Chain(hash, x, compress), y, compress)
    decreases |x|
  {
    if |x| > 0 {
      assert (x + y)[..16] == x[..16];
      assert (x + y)[16..] == x[16..] + y;
      ChainAppend(compress(hash, x[..16]), x[16..], y, compress);
    } else {
      assert x + y == y;
    }
  }

  /** The hash after chunk `i` is that chunk compressed into the hash of
      the chunks before it. */
  lemma ChainStep(hash: Registers, words: seq<Word>, i: nat, compress: (Registers, Chunk) -> Registers)
    requires 16 * (i + 1) <= |words|
    ensures Chain(hash, words[..16 * (i + 1)], compress)
            == compress(Chain(hash, words[..16 * i], compress), words[16 * i .. 16 * (i + 1)])
  {
    var prefix := words[..16 * i];
    var block := words[16 * i .. 16 * (i + 1)];
    assert words[..16 * (i + 1)] == prefix + block;
    ChainAppend(hash, prefix, block, compress);
    assert block[..16] == block && block[16..] == [];
  }

  /** The hash computation of sha256 over padded data. */
  function HashChunks(words: seq<Word>): Registers
    requires |words| % 16 == 0
  {
    Chain(H0, words, Compress)
  }

  /** The round loop of sha256 on the variables a .. h. */
  method RunRounds(start: Registers, chunk: seq<Word>) returns (r: Registers)
    requires |chunk| == 64
    ensures r == Rounds(start, chunk, |chunk|)
  {
    var a, b, c, d, e, f, g, h := start.a, start.b, start.c, start.d, start.e, start.f, start.g, start.h;
    var j := 0;
    while j < 64
      invariant j <= 64
      invariant Registers(a, b, c, d, e, f, g, h) == Rounds(start, chunk, j)
    {
      var temp1 := Temp1(e, f, g, h, K[j], chunk[j]);
      var temp2 := Temp2(a, b, c);
      h := g;
      g := f;
      f := e;
      e := Add(d, temp1);
      d := c;
      c := b;
      b := a;
      a := Add(temp1, temp2);
      j := j + 1;
    }
    r := Registers(a, b, c, d, e, f, g, h);
  }

  /** One pass of the chunk loop of sha256: the schedule, the working
      variables taken from HASH_ARR for the first chunk (which also resets
      the hash to HASH_ARR) and from the running hash after that, the rounds,
      and the add-back. */
  method CompressChunk(hashes: Registers, block: Chunk, first: bool) returns (next: Registers)
    ensures next == Compress(if first then H0 else hashes, block)
  {
    var chunk := ComputeSchedule(block);
    var start;
    var current := hashes;
    if first {
      start := H0;
      current := H0;
    } else {
      start := hashes;
    }
    var r := RunRounds(start, chunk);
    next := Registers(Add(current.a, r.a), Add(current.b, r.b), Add(current.c, r.c), Add(current.d, r.d),
                      Add(current.e, r.e), Add(current.f, r.f), Add(current.g, r.g), Add(current.h, r.h));
  }

  /** ChainStep for the hash computation of sha256. */
  lemma HashStep(words: seq<Word>, i: nat)
    requires 16 * (i + 1) <= |words|
    ensures Chain(H0, words[..16 * (i + 1)], Compress)
            == Compress(Chain(H0, words[..16 * i], Compress), words[16 * i .. 16 * (i + 1)])
  {
    ChainStep(H0, words, i, Compress);
  }

  /** `hashes` is the hash of the first `i` chunks of `words` (the array
      holds no hash yet before the first pass). */
  ghost predicate HashedPrefix(hashes: Registers, words: seq<Word>, i: nat)
    requires 16 * i <= |words|
  {
    i > 0 ==> hashes == Chain(H0, words[..16 * i], Compress)
  }

  /** Chunk `i` folded into the hash of the chunks before it. */
  method HashIteration(paddedData: seq<Word>, i: nat, hashes: Registers) returns (next: Registers)
    requires 16 * (i + 1) <= |paddedData| && HashedPrefix(hashes, paddedData, i)
    ensures HashedPrefix(next, paddedData, i + 1)
  {
    var curr := 16 * i;
    if i == 0 {
      assert paddedData[..curr] == [];
    }
    next := CompressChunk(hashes, paddedData[curr .. curr + 16], i == 0);
    HashStep(paddedData, i);
  }

  /** The chunk loop of sha256 over the padded data. */
  method HashPadded(paddedData: seq<Word>, numChunks: nat) returns (hashes: Registers)
    requires |paddedData| == 16 * numChunks && numChunks > 0
    ensures hashes == HashChunks(paddedData)
  {
    hashes := Registers(0, 0, 0, 0, 0, 0, 0, 0);
    var i := 0;
    while i < numChunks
      invariant i <= numChunks && HashedPrefix(hashes, paddedData, i)
    {
      hashes := HashIteration(paddedData, i, hashes);
      i := i + 1;
    }
    HashedAll(hashes, paddedData, i);
  }

  lemma HashedAll(hashes: Registers, words: seq<Word>, i: nat)
    requires 16 * i == |words| && i > 0 && HashedPrefix(hashes, words, i)
    ensures |words| % 16 == 0 && hashes == HashChunks(words)
  {
    assert words[..16 * i] == words;
  }

  /** The running hash as the array `hashes`: a .. h in order. */
  function DigestWords(r: Registers): seq<Word> {
    [r.a, r.b, r.c, r.d, r.e, r.f, r.g, r.h]
  }

  /** sha256 takes its chunk count from the length of the whole file, while pad
      packs only the bytes before the first zero byte: those `n` bytes always
      fit in the chunks allocated. */
  lemma ChunkCountFits(n: nat, fileLength: nat)
    requires n <= fileLength
    ensures Fits(n, ChunkCount(fileLength))
    ensures (16 * ChunkCount(fileLength)) % 16 == 0
  {
    WholeChunks(ChunkCount(fileLength));
  }

  /** `16 * c` words are `c` whole chunks. */
  lemma {:induction false} WholeChunks(c: nat)
    ensures (16 * c) % 16 == 0
    decreases c
  {
    if c > 0 {
      WholeChunks(c - 1);
    }
  }

  /** sha256 on the bytes of a file, as written: `fileLength / 64 + 1`
      chunks, the bytes up to the first zero byte, and each byte sign-extended. */
  function FileDigest(file: seq<bv8>): Registers {
    var n := CLength(file);
    ChunkCountFits(n, |file|);
    HashChunks(Padded(file[..n], ChunkCount(|file|), true))
  }

  /** SHA-256 of FIPS PUB 180-4 on a message of fewer than 2^61 bytes. */
  function FipsDigest(message: seq<bv8>): Registers
    requires 8 * |message| < Two64
  {
    CorrectedLengthWords(message);
    WholeChunks(FipsChunks(|message|));
    HashChunks(FipsPad(message))
  }

  /** sha256 with the three departures from FIPS PUB 180-4 corrected: every
      byte of the file, widened without sign extension, in as many chunks as
      section 5.1.1 asks for. */
  function CorrectedDigest(file: seq<bv8>): Registers
    requires 8 * |file| < Two64
  {
    CorrectedPadConforms(file);
    WholeChunks(FipsChunks(|file|));
    HashChunks(Padded(file, FipsChunks(|file|), false))
  }

  /** The corrected computation is SHA-256. */
  lemma CorrectedDigestIsFips(file: seq<bv8>)
    requires 8 * |file| < Two64
    ensures CorrectedDigest(file) == FipsDigest(file)
  {
    CorrectedPadConforms(file);
  }

  /** On a file without zero bytes, with every byte below 0x80 and a length
      that leaves room for the length field, sha256 as written computes
      SHA-256. */
  lemma FileDigestConforms(file: seq<bv8>)
    requires 8 * |file| < Two64 && |file| % 64 < 56
    requires forall i :: 0 <= i < |file| ==> 0 < file[i] < 0x80
    ensures FileDigest(file) == FipsDigest(file)
  {
    assert CLength(file) == |file|;
    assert file[..|file|] == file;
    AsWrittenPadConforms(file);
  }

  /** The bytes after the first zero byte do not reach the hash: only the
      chunk count still depends on the length of the file. */
  lemma FileDigestStopsAtZero(file: seq<bv8>, tail: seq<bv8>)
    requires CLength(file) < |file|
    requires ChunkCount(|file|) == ChunkCount(|file + tail|)
    ensures FileDigest(file + tail) == FileDigest(file)
  {
    var n := CLength(file);
    assert (file + tail)[..n] == file[..n];
    CLengthPrefix(file, tail);
  }

  /** strlen of a buffer that contains a zero byte is decided by the bytes up to it. */
  lemma {:induction false} CLengthPrefix(file: seq<bv8>, tail: seq<bv8>)
    requires CLength(file) < |file|
    ensures CLength(file + tail) == CLength(file)
  {
    if file[0] != 0 {
      assert (file + tail)[1..] == file[1..] + tail;
      CLengthPrefix(file[1..], tail);
    }
  }

  /** `(uint64_t)hi << 32 | lo`, as the result packing of sha256 forms a key. */
  function Join(hi: Word, lo: Word): bv64 {
    ((hi as bv64) << 32) | (lo as bv64)
  }

  /** The upper and lower halves of a 64-bit key. */
  function High(key: bv64): Word {
    (key >> 32) as Word
  }

  function Low(key: bv64): Word {
    (key & 0xFFFF_FFFF) as Word
  }

  lemma JoinSplit(hi: Word, lo: Word)
    ensures High(Join(hi, lo)) == hi && Low(Join(hi, lo)) == lo
  {
  }

  lemma SplitJoin(key: bv64)
    ensures Join(High(key), Low(key)) == key
  {
  }

  /** The result packing of sha256: key `i` holds hash words `2i` (upper
      half) and `2i + 1`. */
  function Keys(digest: Registers): (keys: seq<bv64>)
    ensures |keys| == 4
  {
    [Join(digest.a, digest.b), Join(digest.c, digest.d), Join(digest.e, digest.f), Join(digest.g, digest.h)]
  }

  /** The digest words a key set was made from. */
  function Unpack(keys: seq<bv64>): Registers
    requires |keys| == 4
  {
    Registers(High(keys[0]), Low(keys[0]), High(keys[1]), Low(keys[1]),
              High(keys[2]), Low(keys[2]), High(keys[3]), Low(keys[3]))
  }

  /** The packing loses nothing: the digest comes back from the keys. */
  lemma KeysUnpack(digest: Registers)
    ensures Unpack(Keys(digest)) == digest
  {
    JoinSplit(digest.a, digest.b);
    JoinSplit(digest.c, digest.d);
    JoinSplit(digest.e, digest.f);
    JoinSplit(digest.g, digest.h);
  }

  /** Every set of four keys is the packing of exactly one digest. */
  lemma UnpackKeys(keys: seq<bv64>)
    requires |keys| == 4
    ensures Keys(Unpack(keys)) == keys
  {
    SplitJoin(keys[0]);
    SplitJoin(keys[1]);
    SplitJoin(keys[2]);
    SplitJoin(keys[3]);
  }

  /** The loop of sha256 that packs the eight hash words into four keys. */
  method PackResult(hashes: seq<Word>) returns (result: seq<bv64>)
    requires |hashes| == 8
    ensures |result| == 4
    ensures forall i :: 0 <= i < 4 ==> High(result[i]) == hashes[2 * i] && Low(result[i]) == hashes[2 * i + 1]
  {
    result := [];
    var i := 0;
    while i < 4
      invariant i <= 4 && |result| == i
      invariant forall j :: 0 <= j < i ==> High(result[j]) == hashes[2 * j] && Low(result[j]) == hashes[2 * j + 1]
    {
      JoinSplit(hashes[i * 2], hashes[i * 2 + 1]);
      result := result + [Join(hashes[i * 2], hashes[i * 2 + 1])];
      i := i + 1;
    }
  }

  /** sha256: the file's bytes and length, pad, the chunk loop and the result
      packing. main.c takes the first three keys as the DES keys. */
  method Sha256Keys(file: seq<bv8>) returns (result: seq<bv64>)
    ensures result == Keys(FileDigest(file))
  {
    var fileLength := |file|;
    var numChunks := fileLength / 64 + 1;
    ChunkCountFits(CLength(file), fileLength);
    var paddedData := Pad(file, numChunks);
    var hashes := HashPadded(paddedData, numChunks);
    var words := DigestWords(hashes);
    result := PackResult(words);
    assert Unpack(result) == hashes by {
      assert words[0] == hashes.a && words[1] == hashes.b && words[2] == hashes.c && words[3] == hashes.d;
      assert words[4] == hashes.e && words[5] == hashes.f && words[6] == hashes.g && words[7] == hashes.h;
    }
    UnpackKeys(result);
  }
}

/** Message padding of sha.c (`pad`). The routine measures its input with
    strlen, packs the characters four to a word with the first one in the most
    significant byte, appends the byte 0x80 and zeros up to the end of the
    word that holds it, and then writes the bit length of the message as a
    64-bit number into the last two words of the `16 * chunkNum` word buffer.

    The packing is defined on the message itself (the bytes strlen counts),
    with a flag for how a byte is widened to a word; `FipsPad` is the padding
    of section 5.1.1 of FIPS PUB 180-4, the reference it is compared with. */
module ShaPad {
  import opened ShaPrimitives

  /** strlen: the number of bytes before the first zero byte. The buffer is
      taken to be followed by a zero byte. */
  function CLength(input: seq<bv8>): (n: nat)
    ensures n <= |input|
    ensures forall i :: 0 <= i < n ==> input[i] != 0
    ensures n < |input| ==> input[n] == 0
  {
    if |input| == 0 || input[0] == 0 then 0 else 1 + CLength(input[1..])
  }

  /** A byte as it is ORed into a word. C's `char` is signed, so pad widens a
      byte of 0x80 or more with ones in the three upper bytes (`signExtend`);
      an unsigned byte is widened with zeros. */
  function Widen(b: bv8, signExtend: bool): Word {
    if signExtend && b >= 0x80 then 0xFFFF_FF00 | b as Word else b as Word
  }

  /** The value the loop of pad ORs in at position `i`: the character, then
      the marker 128, then zeros. */
  function LoopByte(message: seq<bv8>, i: nat, signExtend: bool): Word {
    if i < |message| then Widen(message[i], signExtend) else if i == |message| then 0x80 else 0
  }

  /** One pass of the loop on the current word: shift left by a byte, OR in `v`. */
  function ShiftIn(w: Word, v: Word): Word {
    (w << 8) | v
  }

  /** Word `j` after the first `m` of its four positions went through the loop. */
  function PartialWord(message: seq<bv8>, j: nat, m: nat, signExtend: bool): Word
    requires m <= 4
  {
    if m == 0 then 0
    else ShiftIn(PartialWord(message, j, m - 1, signExtend), LoopByte(message, 4 * j + m - 1, signExtend))
  }

  lemma PartialStep(message: seq<bv8>, j: nat, m: nat, signExtend: bool)
    requires m < 4
    ensures PartialWord(message, j, m + 1, signExtend)
            == ShiftIn(PartialWord(message, j, m, signExtend), LoopByte(message, 4 * j + m, signExtend))
  {
  }

  /** Word `j` once the loop has passed over all four of its positions. */
  function LoopWord(message: seq<bv8>, j: nat, signExtend: bool): Word {
    PartialWord(message, j, 4, signExtend)
  }

  /** 2^32 and 2^64, the ranges of `uint32_t` and `uint64_t`. */
  const Two32: nat := 0x1_0000_0000
  const Two64: nat := 0x1_0000_0000_0000_0000

  /** The upper half of `plainLength = strlen(input) * 8`, a `uint64_t`. */
  function LengthHigh(n: nat): Word {
    ((8 * n % Two64) / Two32) as Word
  }

  /** The lower half of `plainLength`. */
  function LengthLow(n: nat): Word {
    (8 * n % Two32) as Word
  }

  /** What the caller of pad must ensure: every word the loop writes lies in
      the buffer of `16 * chunkNum` words. */
  predicate Fits(n: nat, chunkNum: nat) {
    n / 4 < 16 * chunkNum
  }

  /** The buffer pad returns for `message`, word by word: the two length
      words at the end win over whatever the loop wrote there. */
  function Padded(message: seq<bv8>, chunkNum: nat, signExtend: bool): (p: seq<Word>)
    requires Fits(|message|, chunkNum)
    ensures |p| == 16 * chunkNum
    ensures p[16 * chunkNum - 2] == LengthHigh(|message|) && p[16 * chunkNum - 1] == LengthLow(|message|)
  {
    var n := |message|;
    var size := 16 * chunkNum;
    seq(size, j requires 0 <= j < size =>
      if j == size - 2 then LengthHigh(n)
      else if j == size - 1 then LengthLow(n)
      else if j <= n / 4 then LoopWord(message, j, signExtend)
      else 0)
  }

  /** One position of the loop of pad: the word `output[blockNum]` is shifted
      left by a byte and the character, the marker (the first time past the
      end) or zero is ORed in. */
  method ShiftPosition(output: seq<Word>, blockNum: nat, input: seq<bv8>, n: nat, i: nat, onePadded: bool)
    returns (next: seq<Word>, nowPadded: bool)
    requires n <= |input| && blockNum < |output|
    requires onePadded == (i > n)
    ensures next == output[blockNum := ShiftIn(output[blockNum], LoopByte(input[..n], i, true))]
    ensures nowPadded == (i + 1 > n)
  {
    ghost var v := LoopByte(input[..n], i, true);
    next := output[blockNum := output[blockNum] << 8];
    nowPadded := onePadded;
    if i >= n {
      if !nowPadded {
        assert v == 128;
        nowPadded := !nowPadded;
        next := next[blockNum := next[blockNum] | 128];
      } else {
        assert v == 0;
        next := next[blockNum := next[blockNum] | 0];
      }
    } else {
      assert v == Widen(input[i], true);
      next := next[blockNum := next[blockNum] | Widen(input[i], true)];
    }
  }

  /** Index facts for one pass of the loop of pad: position `i` belongs to
      word `i / 4`, which is the current word or the next one. */
  lemma PositionArithmetic(i: nat, n: nat, blockNum: nat)
    requires i < n + (4 - n % 4)
    requires i == 0 ==> blockNum == 0
    requires i > 0 ==> blockNum == (i - 1) / 4
    ensures i / 4 == blockNum || i / 4 == blockNum + 1
    ensures i / 4 <= n / 4
    ensures i / 4 > blockNum ==> i == 4 * (blockNum + 1)
    ensures 4 * (i / 4) <= i < 4 * (i / 4) + 4
  {
  }

  /** The state of the loop of pad before position `i`: `onepadded` tells
      whether the marker is written, `blockNum` is the word of position
      `i - 1`, the words before it are complete, it holds the positions seen
      so far and the words after it are still zero. */
  ghost predicate LoopState(output: seq<Word>, blockNum: nat, onePadded: bool,
                            message: seq<bv8>, i: nat, size: nat)
  {
    var n := |message|;
    && i <= n + (4 - n % 4)
    && |output| == size
    && onePadded == (i > n)
    && (i == 0 ==> blockNum == 0)
    && (i > 0 ==> blockNum == (i - 1) / 4)
    && blockNum <= n / 4 < size
    && (i > 0 ==> output[blockNum] == PartialWord(message, blockNum, i - 4 * blockNum, true))
    && (i == 0 ==> output[0] == 0)
    && (forall j :: 0 <= j < blockNum ==> output[j] == LoopWord(message, j, true))
    && (forall j :: blockNum < j < size ==> output[j] == 0)
  }

  /** One pass of the loop of pad: `blockNum` moves on when position `i`
      starts a new word, and the position is shifted into that word. */
  method PadIteration(output: seq<Word>, blockNum: nat, onePadded: bool, input: seq<bv8>, n: nat, i: nat, size: nat)
    returns (output': seq<Word>, blockNum': nat, onePadded': bool)
    requires n <= |input| && i < n + (4 - n % 4)
    requires LoopState(output, blockNum, onePadded, input[..n], i, size)
    ensures LoopState(output', blockNum', onePadded', input[..n], i + 1, size)
  {
    ghost var message := input[..n];
    PositionArithmetic(i, n, blockNum);
    blockNum' := blockNum;
    if i / 4 > blockNum' {
      blockNum' := blockNum' + 1;
    }
    assert output[blockNum'] == PartialWord(message, blockNum', i - 4 * blockNum', true);
    PartialStep(message, blockNum', i - 4 * blockNum', true);
    output', onePadded' := ShiftPosition(output, blockNum', input, n, i, onePadded);
  }

  /** The loop of pad over positions `0 .. strlen + (4 - strlen % 4) - 1`.
      Every word it touches ends up holding four positions; the words after
      them stay zero. */
  method PackMessage(input: seq<bv8>, n: nat, size: nat) returns (output: seq<Word>)
    requires n <= |input| && n / 4 < size
    ensures |output| == size
    ensures forall j :: 0 <= j <= n / 4 ==> output[j] == LoopWord(input[..n], j, true)
    ensures forall j :: n / 4 < j < size ==> output[j] == 0
  {
    output := seq(size, _ => 0);
    var onePadded := false;
    var blockNum := 0;
    var i := 0;
    while i < n + (4 - n % 4)
      invariant LoopState(output, blockNum, onePadded, input[..n], i, size)
    {
      output, blockNum, onePadded := PadIteration(output, blockNum, onePadded, input, n, i, size);
      i := i + 1;
    }
    assert i - 4 * blockNum == 4;
  }

  /** pad: the message up to the first zero byte, packed, with its bit length
      in the last two words. Nothing after the first zero byte counts. */
  method Pad(input: seq<bv8>, chunkNum: nat) returns (output: seq<Word>)
    requires Fits(CLength(input), chunkNum)
    ensures output == Padded(input[..CLength(input)], chunkNum, true)
  {
    var size := chunkNum * 16;
    var n := CLength(input);
    output := PackMessage(input, n, size);
    var blockNum := size - 2;
    output := output[blockNum := LengthHigh(n)];
    output := output[blockNum + 1 := LengthLow(n)];
    ghost var padded := Padded(input[..n], chunkNum, true);
    forall j | 0 <= j < size
      ensures output[j] == padded[j]
    {
      if j < size - 2 && j > n / 4 {
        assert output[j] == 0;
      }
    }
  }

  /** The number of zero bytes section 5.1.1 of FIPS PUB 180-4 puts after the
      marker: the fewest that bring the length to 56 modulo 64. */
  function ZeroCount(n: nat): (k: nat)
    ensures (n + 1 + k) % 64 == 56 && k < 64
  {
    if n % 64 < 56 then 55 - n % 64 else 119 - n % 64
  }

  /** The padded message of section 5.1.1 up to the length field: the
      message, the byte 0x80, then zeros. */
  function FipsPadBytes(message: seq<bv8>): (bytes: seq<bv8>)
    ensures |bytes| == 64 * (FipsChunks(|message|) - 1) + 56
  {
    PadBytesLength(|message|);
    message + [0x80] + seq(ZeroCount(|message|), _ => 0)
  }

  lemma PadBytesLength(n: nat)
    ensures n + 1 + ZeroCount(n) == 64 * (FipsChunks(n) - 1) + 56
  {
    var q, r := n / 64, n % 64;
    assert n == 64 * q + r;
    if r < 56 {
      assert (n + 8) / 64 == q;
    } else {
      assert (n + 8) / 64 == q + 1;
    }
  }

  /** Four bytes read as a 32-bit word, first byte most significant, as
      section 3.1 of FIPS PUB 180-4 orders them. */
  function BigEndianWord(b0: bv8, b1: bv8, b2: bv8, b3: bv8): Word {
    ((b0 as Word) << 24) | ((b1 as Word) << 16) | ((b2 as Word) << 8) | (b3 as Word)
  }

  function BigEndianWords(bytes: seq<bv8>): (words: seq<Word>)
    requires |bytes| % 4 == 0
    ensures |words| * 4 == |bytes|
  {
    seq(|bytes| / 4, j requires 0 <= j < |bytes| / 4 =>
      BigEndianWord(bytes[4 * j], bytes[4 * j + 1], bytes[4 * j + 2], bytes[4 * j + 3]))
  }

  /** The padded message of section 5.1.1 of FIPS PUB 180-4 as the 32-bit
      words section 5.2.1 parses it into: the message, 0x80, zeros, and the
      bit length as a 64-bit number, high word first. */
  function FipsPad(message: seq<bv8>): seq<Word>
    requires 8 * |message| < Two64
  {
    var bits := 8 * |message|;
    assert |FipsPadBytes(message)| % 4 == 0;
    BigEndianWords(FipsPadBytes(message)) + [(bits / Two32) as Word, (bits % Two32) as Word]
  }

  /** The number of 512-bit blocks in the padded message of section 5.1.1. */
  function FipsChunks(n: nat): nat {
    (n + 8) / 64 + 1
  }

  /** Four bytes shifted in one after another end up in big-endian order. */
  lemma ShiftInBigEndian(b0: bv8, b1: bv8, b2: bv8, b3: bv8)
    ensures ShiftIn(ShiftIn(ShiftIn(ShiftIn(0, b0 as Word), b1 as Word), b2 as Word), b3 as Word)
            == BigEndianWord(b0, b1, b2, b3)
  {
  }

  /** Widened without sign extension, the value the loop ORs in at position
      `i` is the byte at `i` of the padding of section 5.1.1. */
  lemma LoopByteIsPadByte(message: seq<bv8>, i: nat)
    requires i < |FipsPadBytes(message)|
    ensures LoopByte(message, i, false) == FipsPadBytes(message)[i] as Word
  {
  }

  lemma LoopWordUnfolds(message: seq<bv8>, j: nat, signExtend: bool)
    ensures LoopWord(message, j, signExtend)
            == ShiftIn(ShiftIn(ShiftIn(ShiftIn(0, LoopByte(message, 4 * j, signExtend)),
                 LoopByte(message, 4 * j + 1, signExtend)), LoopByte(message, 4 * j + 2, signExtend)),
                 LoopByte(message, 4 * j + 3, signExtend))
  {
    PartialStep(message, j, 0, signExtend);
    PartialStep(message, j, 1, signExtend);
    PartialStep(message, j, 2, signExtend);
    PartialStep(message, j, 3, signExtend);
  }

  /** Without sign extension, word `j` of the loop is word `j` of the
      padding of section 5.1.1 read big-endian. */
  lemma UnsignedWordIsFips(message: seq<bv8>, j: nat)
    requires 4 * j + 3 < |FipsPadBytes(message)|
    ensures LoopWord(message, j, false)
            == BigEndianWord(FipsPadBytes(message)[4 * j], FipsPadBytes(message)[4 * j + 1],
                             FipsPadBytes(message)[4 * j + 2], FipsPadBytes(message)[4 * j + 3])
  {
    var bytes := FipsPadBytes(message);
    LoopWordUnfolds(message, j, false);
    LoopByteIsPadByte(message, 4 * j);
    LoopByteIsPadByte(message, 4 * j + 1);
    LoopByteIsPadByte(message, 4 * j + 2);
    LoopByteIsPadByte(message, 4 * j + 3);
    ShiftInBigEndian(bytes[4 * j], bytes[4 * j + 1], bytes[4 * j + 2], bytes[4 * j + 3]);
  }

  /** A word that lies wholly past the marker stays zero. */
  lemma LoopWordPastEnd(message: seq<bv8>, j: nat, signExtend: bool)
    requires 4 * j > |message|
    ensures LoopWord(message, j, signExtend) == 0
  {
    LoopWordUnfolds(message, j, signExtend);
  }

  /** The two length words: with fewer than 2^64 bits the `uint64_t` does
      not wrap, and its halves are the high and low words of the bit length. */
  lemma LengthWordsExact(n: nat)
    requires 8 * n < Two64
    ensures LengthHigh(n) == (8 * n / Two32) as Word
    ensures LengthLow(n) == (8 * n % Two32) as Word
  {
    SmallModulus(8 * n, Two64);
  }

  lemma SmallModulus(x: nat, m: nat)
    requires x < m
    ensures x % m == x
  {
  }

  lemma CorrectedMessageWord(message: seq<bv8>, j: nat)
    requires 8 * |message| < Two64
    requires j < 16 * FipsChunks(|message|) - 2
    ensures Fits(|message|, FipsChunks(|message|))
    ensures |FipsPad(message)| == 16 * FipsChunks(|message|)
    ensures Padded(message, FipsChunks(|message|), false)[j] == FipsPad(message)[j]
  {
    var n := |message|;
    assert |FipsPadBytes(message)| == 4 * (16 * FipsChunks(n) - 2);
    UnsignedWordIsFips(message, j);
    if j > n / 4 {
      LoopWordPastEnd(message, j, false);
    }
  }

  lemma CorrectedLengthWords(message: seq<bv8>)
    requires 8 * |message| < Two64
    ensures Fits(|message|, FipsChunks(|message|))
    ensures |FipsPad(message)| == 16 * FipsChunks(|message|)
    ensures Padded(message, FipsChunks(|message|), false)[16 * FipsChunks(|message|) - 2 ..]
            == FipsPad(message)[16 * FipsChunks(|message|) - 2 ..]
  {
    var n := |message|;
    assert |FipsPadBytes(message)| == 4 * (16 * FipsChunks(n) - 2);
    LengthWordsExact(n);
  }

  /** Packing bytes without sign extension, into the number of chunks of
      section 5.1.1, is exactly the padding of FIPS PUB 180-4. */
  lemma CorrectedPadConforms(message: seq<bv8>)
    requires 8 * |message| < Two64
    ensures Fits(|message|, FipsChunks(|message|))
    ensures Padded(message, FipsChunks(|message|), false) == FipsPad(message)
  {
    var size := 16 * FipsChunks(|message|);
    CorrectedLengthWords(message);
    forall j | 0 <= j < size
      ensures Padded(message, FipsChunks(|message|), false)[j] == FipsPad(message)[j]
    {
      if j < size - 2 {
        CorrectedMessageWord(message, j);
      } else {
        assert Padded(message, FipsChunks(|message|), false)[size - 2 ..][j - (size - 2)]
               == FipsPad(message)[size - 2 ..][j - (size - 2)];
      }
    }
  }

  /** For bytes below 0x80 sign extension changes nothing. */
  lemma {:induction false} SignExtensionHarmless(message: seq<bv8>, j: nat, m: nat)
    requires m <= 4
    requires forall i :: 0 <= i < |message| ==> message[i] < 0x80
    ensures PartialWord(message, j, m, true) == PartialWord(message, j, m, false)
  {
    if m > 0 {
      SignExtensionHarmless(message, j, m - 1);
    }
  }

  /** The number of chunks sha256 hands to pad: `fileLength / 64 + 1`. */
  function ChunkCount(fileLength: nat): (chunks: nat)
    ensures chunks <= FipsChunks(fileLength)
    ensures chunks == FipsChunks(fileLength) <==> fileLength % 64 < 56
  {
    fileLength / 64 + 1
  }

  /** For a message of bytes below 0x80 whose length leaves room for the
      length field, pad as written produces the padding of FIPS PUB 180-4. */
  lemma AsWrittenPadConforms(message: seq<bv8>)
    requires 8 * |message| < Two64 && |message| % 64 < 56
    requires forall i :: 0 <= i < |message| ==> message[i] < 0x80
    ensures Fits(|message|, ChunkCount(|message|))
    ensures Padded(message, ChunkCount(|message|), true) == FipsPad(message)
  {
    CorrectedPadConforms(message);
    var chunks := ChunkCount(|message|);
    forall j | 0 <= j < 16 * chunks
      ensures Padded(message, chunks, true)[j] == Padded(message, chunks, false)[j]
    {
      SignExtensionHarmless(message, j, 4);
    }
  }

  /** When the length modulo 64 is 56 or more, sha256's chunk count leaves no
      room for the length field: the word holding the marker is one of the two
      words the length overwrites, and the buffer is a chunk short. */
  lemma LengthOverwritesMarker(message: seq<bv8>, signExtend: bool)
    requires 8 * |message| < Two64 && |message| % 64 >= 56
    ensures Fits(|message|, ChunkCount(|message|))
    ensures |message| / 4 >= 16 * ChunkCount(|message|) - 2
    ensures |Padded(message, ChunkCount(|message|), signExtend)| + 16 == |FipsPad(message)|
  {
    PadBytesLength(|message|);
  }

  /** A byte of 0x80 or more is sign-extended: "a" followed by 0x80 packs to
      0xFF808000 where FIPS PUB 180-4 has 0x61808000. */
  lemma SignExtensionCorrupts()
    ensures Padded([0x61, 0x80], 1, true)[0] == 0xFF80_8000
    ensures Padded([0x61, 0x80], 1, false)[0] == 0x6180_8000
    ensures FipsPad([0x61, 0x80])[0] == 0x6180_8000
  {
    LoopWordUnfolds([0x61, 0x80], 0, true);
    LoopWordUnfolds([0x61, 0x80], 0, false);
  }

  /** strlen stops at a zero byte: of the bytes 0x61 0x00 0x62 pad sees only
      the first, and its first word differs from that of FIPS PUB 180-4. */
  lemma ZeroByteTruncates()
    ensures CLength([0x61, 0x00, 0x62]) == 1
    ensures Padded([0x61, 0x00, 0x62][..1], 1, true)[0] == 0x6180_0000
    ensures FipsPad([0x61, 0x00, 0x62])[0] == 0x6100_6280
  {
    assert [0x61, 0x00, 0x62][..1] == [0x61 as bv8];
    LoopWordUnfolds([0x61], 0, true);
  }

  /** The message "abc" fills one chunk: the three bytes and the marker in
      word 0, then zeros, then the bit length 24. */
  lemma AbcPadVector()
    ensures Padded([0x61, 0x62, 0x63], 1, true)
            == [0x6162_6380, 0, 0, 0, 0, 0, 0, 0, 0, 0, 0, 0, 0, 0, 0, 0x18]
  {
    var message: seq<bv8> := [0x61, 0x62, 0x63];
    LoopWordUnfolds(message, 0, true);
    assert LoopWord(message, 0, true) == 0x6162_6380;
    LengthWordsExact(3);
    SmallModulus(24, Two32);
  }
}

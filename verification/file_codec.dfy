/** The block layer of des_encrypt_file and des_decrypt_file (des.c): a file is
    cut into 8-byte blocks read as little-endian uint64_t words, the tail is
    padded into one last block, and on the way back the padding is removed from
    the last block. The block cipher is a parameter. The padding is the one of
    des.c (0xFF bytes, stripped while the low byte is 0xFF), or a corrected one
    in which each pad byte holds the pad length. */
module FileCodec {

  /** A word-to-word block cipher such as des_encrypt under a fixed key. */
  type BlockCipher = bv64 -> bv64

  /** The uint64_t that fread stores from eight bytes on a little-endian machine. */
  function LoadWord(b: seq<bv8>): bv64
    requires |b| == 8
  {
    (b[0] as bv64) | ((b[1] as bv64) << 8) | ((b[2] as bv64) << 16) | ((b[3] as bv64) << 24)
    | ((b[4] as bv64) << 32) | ((b[5] as bv64) << 40) | ((b[6] as bv64) << 48) | ((b[7] as bv64) << 56)
  }

  /** The eight bytes fwrite takes from a uint64_t on a little-endian machine. */
  function StoreWord(w: bv64): (b: seq<bv8>)
    ensures |b| == 8
    ensures b[0] == (w & 0xFF) as bv8
  {
    [(w & 0xFF) as bv8, ((w >> 8) & 0xFF) as bv8, ((w >> 16) & 0xFF) as bv8, ((w >> 24) & 0xFF) as bv8,
     ((w >> 32) & 0xFF) as bv8, ((w >> 40) & 0xFF) as bv8, ((w >> 48) & 0xFF) as bv8, ((w >> 56) & 0xFF) as bv8]
  }

  lemma LoadStore(w: bv64)
    ensures LoadWord(StoreWord(w)) == w
  {
  }

  lemma StoreLoad(b: seq<bv8>)
    requires |b| == 8
    ensures StoreWord(LoadWord(b)) == b
  {
  }

  /** `n` copies of the byte `v`. */
  function Fill(n: nat, v: bv8): (s: seq<bv8>)
    ensures |s| == n
    ensures forall i :: 0 <= i < n ==> s[i] == v
  {
    seq(n, _ => v)
  }

  /** The number of pad bytes des_encrypt_file adds to a tail of `tail < 8`
      bytes (remain_bytes): at least one, a whole block for an empty tail. */
  function PadLength(tail: nat): (count: nat)
    requires tail < 8
    ensures 1 <= count <= 8 && count + tail == 8
  {
    8 - tail
  }

  /** The padding of the last block. */
  datatype Padding =
    | OnesPadding   // des.c: pad bytes 0xFF, stripped while the low byte is 0xFF
    | CountPadding  // corrected: each pad byte holds the number of pad bytes

  /** The pad byte used when `count` pad bytes are needed. */
  function PadByte(padding: Padding, count: nat): bv8
    requires 1 <= count <= 8
  {
    match padding
    case OnesPadding => 0xFF
    case CountPadding => count as bv8
  }

  /** The mask loop of des_encrypt_file (there with pad byte 0xFF): `count`
      pad bytes shifted in from below. */
  function PaddingMask(count: nat, pad: bv8): bv64
    requires count <= 8
  {
    if count == 0 then 0 else (PaddingMask(count - 1, pad) << 8) | pad as bv64
  }

  lemma ShiftInByte(m: bv64, pad: bv8)
    ensures StoreWord((m << 8) | pad as bv64) == [pad] + StoreWord(m)[..7]
  {
  }

  lemma FillStep(s: seq<bv8>, count: nat, pad: bv8)
    requires |s| == 8 && 1 <= count <= 8
    ensures [pad] + (Fill(count - 1, pad) + s[..8 - (count - 1)])[..7] == Fill(count, pad) + s[..8 - count]
  {
  }

  /** The mask holds `count` pad bytes at the low end and zeros above. */
  lemma {:induction false} PaddingMaskBytes(count: nat, pad: bv8)
    requires count <= 8
    ensures StoreWord(PaddingMask(count, pad)) == Fill(count, pad) + Fill(8 - count, 0)
  {
    if count > 0 {
      PaddingMaskBytes(count - 1, pad);
      ShiftInByte(PaddingMask(count - 1, pad), pad);
      FillStep(Fill(8, 0), count, pad);
      assert Fill(8, 0)[..8 - (count - 1)] == Fill(9 - count, 0);
      assert Fill(8, 0)[..8 - count] == Fill(8 - count, 0);
    }
  }

  /** A uint64_t after fread has stored the bytes `got` into its low bytes and
      left the rest as they were: the partial read of the last block. */
  function ReadPartial(prior: bv64, got: seq<bv8>): (buffer: bv64)
    requires |got| < 8
    ensures StoreWord(buffer) == got + StoreWord(prior)[|got|..]
  {
    StoreLoad(got + StoreWord(prior)[|got|..]);
    LoadWord(got + StoreWord(prior)[|got|..])
  }

  /** A left shift by `8 * k` bits, taken one byte at a time; a shift by all
      eight bytes gives 0. */
  function ShiftBytes(x: bv64, k: nat): bv64
    requires k <= 8
  {
    if k == 0 then x else ShiftBytes(x, k - 1) << 8
  }

  lemma OrStep(a: bv64, c: bv64, pad: bv8)
    ensures ((a << 8) | pad as bv64) | (c << 8) == ((a | c) << 8) | pad as bv64
  {
  }

  /** The mask or'ed with the shifted buffer, built up one byte at a time. */
  function MaskOverShift(buffer: bv64, k: nat, pad: bv8): bv64
    requires k <= 8
  {
    if k == 0 then buffer else (MaskOverShift(buffer, k - 1, pad) << 8) | pad as bv64
  }

  lemma {:induction false} MaskOverShiftIs(buffer: bv64, k: nat, pad: bv8)
    requires k <= 8
    ensures MaskOverShift(buffer, k, pad) == PaddingMask(k, pad) | ShiftBytes(buffer, k)
  {
    if k > 0 {
      MaskOverShiftIs(buffer, k - 1, pad);
      OrStep(PaddingMask(k - 1, pad), ShiftBytes(buffer, k - 1), pad);
    }
  }

  lemma MaskStep(before: bv64, s: seq<bv8>, k: nat, pad: bv8)
    requires |s| == 8 && 1 <= k <= 8
    requires StoreWord(before) == Fill(k - 1, pad) + s[..8 - (k - 1)]
    ensures StoreWord((before << 8) | pad as bv64) == Fill(k, pad) + s[..8 - k]
  {
    ShiftInByte(before, pad);
    FillStep(s, k, pad);
  }

  /** The mask of `k` pad bytes or'ed with a word shifted up by `k` bytes:
      the `k` low bytes are pad bytes and the word's low `8 - k` bytes sit above them. */
  lemma {:induction false} MaskedShift(buffer: bv64, k: nat, pad: bv8)
    requires k <= 8
    ensures StoreWord(MaskOverShift(buffer, k, pad)) == Fill(k, pad) + StoreWord(buffer)[..8 - k]
  {
    if k > 0 {
      MaskedShift(buffer, k - 1, pad);
      MaskStep(MaskOverShift(buffer, k - 1, pad), StoreWord(buffer), k, pad);
    } else {
      assert StoreWord(buffer)[..8] == StoreWord(buffer);
    }
  }

  /** The last block of des_encrypt_file for the `|rest| < 8` trailing bytes
      `rest`, with `prior` the buffer as the previous fread left it: the mask of
      `8 - |rest|` pad bytes or'ed with the buffer shifted up by as many bytes.
      With no trailing bytes des.c shifts by 64 bits, which C leaves undefined;
      its mask is then all ones, so the block is all ones whatever the shift
      yields, as it is here. The block holds the pad bytes and then `rest`,
      whatever `prior` was. */
  function FinalBlock(prior: bv64, rest: seq<bv8>, padding: Padding): (block: bv64)
    requires |rest| < 8
    ensures StoreWord(block) == Fill(PadLength(|rest|), PadByte(padding, PadLength(|rest|))) + rest
  {
    var k := PadLength(|rest|);
    var pad := PadByte(padding, k);
    var buffer := ReadPartial(prior, rest);
    assert StoreWord(buffer)[..8 - k] == rest;
    PadOverBuffer(buffer, k, pad);
    PaddingMask(k, pad) | ShiftBytes(buffer, k)
  }

  lemma PadOverBuffer(buffer: bv64, k: nat, pad: bv8)
    requires k <= 8
    ensures StoreWord(PaddingMask(k, pad) | ShiftBytes(buffer, k)) == Fill(k, pad) + StoreWord(buffer)[..8 - k]
  {
    MaskedShift(buffer, k, pad);
    MaskOverShiftIs(buffer, k, pad);
  }

  /** The bytes left when the leading 0xFF bytes are dropped. */
  function TrimPadding(b: seq<bv8>): (t: seq<bv8>)
    ensures |t| <= |b|
    decreases |b|
  {
    if |b| > 0 && b[0] == 0xFF then TrimPadding(b[1..]) else b
  }

  /** TrimPadding keeps a suffix, everything it drops is 0xFF, and what it
      keeps does not start with 0xFF. */
  lemma {:induction false} TrimPaddingDrops(b: seq<bv8>)
    ensures TrimPadding(b) == b[|b| - |TrimPadding(b)|..]
    ensures forall i :: 0 <= i < |b| - |TrimPadding(b)| ==> b[i] == 0xFF
    ensures |TrimPadding(b)| > 0 ==> TrimPadding(b)[0] != 0xFF
    decreases |b|
  {
    if |b| > 0 && b[0] == 0xFF {
      TrimPaddingDrops(b[1..]);
    }
  }

  /** The low byte of a block, which the stripping loop tests. */
  function LowByte(d: bv64): bv64 {
    d & 0xFF
  }

  /** The block shifted one byte to the right, as the stripping loop drops its low byte. */
  function ShiftOut(d: bv64): bv64 {
    d >> 8
  }

  lemma ShiftOutByte(d: bv64)
    ensures StoreWord(ShiftOut(d)) == StoreWord(d)[1..] + [0]
  {
  }

  lemma DropStep(s: seq<bv8>, count: nat)
    requires count < |s|
    ensures (s[count..] + Fill(count, 0))[1..] + [0] == s[count + 1..] + Fill(count + 1, 0)
  {
  }

  /** One pass of the stripping loop keeps its invariant. */
  lemma StripStep(decrypted: bv64, d: bv64, count: nat)
    requires count <= 8 && LowByte(d) == 0xFF
    requires StoreWord(d) == StoreWord(decrypted)[count..] + Fill(count, 0)
    ensures count < 8
    ensures StoreWord(ShiftOut(d)) == StoreWord(decrypted)[count + 1..] + Fill(count + 1, 0)
    ensures TrimPadding(StoreWord(decrypted)[count..]) == TrimPadding(StoreWord(decrypted)[count + 1..])
  {
    if count == 8 {
      assert false;
    }
    ShiftOutByte(d);
    DropStep(StoreWord(decrypted), count);
    assert StoreWord(decrypted)[count..][1..] == StoreWord(decrypted)[count + 1..];
  }

  /** The stripping loop of des_decrypt_file on the last block: while the low
      byte is 0xFF, shift it out and count it. fwrite then writes the low
      `8 - count` bytes of the result, which are the block's bytes without
      their leading 0xFF bytes. */
  method StripPadding(decrypted: bv64) returns (d: bv64, count: nat)
    ensures count <= 8
    ensures StoreWord(d)[..8 - count] == TrimPadding(StoreWord(decrypted))
  {
    d := decrypted;
    count := 0;
    while LowByte(d) == 0xFF
      invariant count <= 8
      invariant StoreWord(d) == StoreWord(decrypted)[count..] + Fill(count, 0)
      invariant TrimPadding(StoreWord(decrypted)) == TrimPadding(StoreWord(decrypted)[count..])
      decreases 8 - count
    {
      StripStep(decrypted, d, count);
      d := ShiftOut(d);
      count := count + 1;
    }
    StripDone(decrypted, d, count);
  }

  /** When the stripping loop stops, the low `8 - count` bytes are the kept ones. */
  lemma StripDone(decrypted: bv64, d: bv64, count: nat)
    requires count <= 8 && LowByte(d) != 0xFF
    requires StoreWord(d) == StoreWord(decrypted)[count..] + Fill(count, 0)
    requires TrimPadding(StoreWord(decrypted)) == TrimPadding(StoreWord(decrypted)[count..])
    ensures StoreWord(d)[..8 - count] == TrimPadding(StoreWord(decrypted))
  {
    var kept := StoreWord(decrypted)[count..];
    assert StoreWord(d)[..8 - count] == kept;
    if count < 8 {
      assert kept[0] == StoreWord(d)[0] != 0xFF;
    }
  }

  /** The last block's bytes with the padding taken off. */
  function Unpad(padding: Padding, block: seq<bv8>): seq<bv8>
    requires |block| == 8
  {
    match padding
    case OnesPadding => TrimPadding(block)
    case CountPadding =>
      var count := block[0] as int;
      if 1 <= count <= 8 then block[count..] else block
  }

  /** Unpadding a padded tail: the counted padding gives the tail back, the
      0xFF padding gives it back without its leading 0xFF bytes. */
  lemma UnpadPad(padding: Padding, rest: seq<bv8>)
    requires |rest| < 8
    ensures Unpad(padding, Fill(PadLength(|rest|), PadByte(padding, PadLength(|rest|))) + rest)
            == if padding == CountPadding then rest else TrimPadding(rest)
  {
    if padding == OnesPadding {
      UnpadOnes(rest);
    } else {
      UnpadCount(rest);
    }
  }

  lemma UnpadOnes(rest: seq<bv8>)
    requires |rest| < 8
    ensures Unpad(OnesPadding, Fill(PadLength(|rest|), 0xFF) + rest) == TrimPadding(rest)
  {
    TrimFill(PadLength(|rest|), rest);
  }

  lemma UnpadCount(rest: seq<bv8>)
    requires |rest| < 8
    ensures Unpad(CountPadding, Fill(PadLength(|rest|), PadLength(|rest|) as bv8) + rest) == rest
  {
    var k := PadLength(|rest|);
    var block := Fill(k, k as bv8) + rest;
    SmallCount(k);
    assert block[0] as int == k;
    assert block[k..] == rest;
  }

  lemma SmallCount(k: nat)
    requires 1 <= k <= 8
    ensures (k as bv8) as int == k
  {
    match k
    case 1 =>
    case 2 =>
    case 3 =>
    case 4 =>
    case 5 =>
    case 6 =>
    case 7 =>
    case 8 =>
  }

  lemma {:induction false} TrimFill(n: nat, rest: seq<bv8>)
    ensures TrimPadding(Fill(n, 0xFF) + rest) == TrimPadding(rest)
  {
    if n > 0 {
      assert (Fill(n, 0xFF) + rest)[1..] == Fill(n - 1, 0xFF) + rest;
      TrimFill(n - 1, rest);
    } else {
      assert Fill(n, 0xFF) + rest == rest;
    }
  }

  /** The length of the whole blocks of a file of `n` bytes. */
  function WholeBlocks(n: nat): (whole: nat)
    ensures whole <= n < whole + 8
  {
    if n < 8 then 0 else 8 + WholeBlocks(n - 8)
  }

  /** des_encrypt_file on the bytes `data` with block cipher `enc`: every whole
      block enciphered, then the padded last block. `prior` is the buffer as
      the previous fread left it (0 at the start). */
  function EncodeBlocks(data: seq<bv8>, prior: bv64, enc: BlockCipher, padding: Padding): (out: seq<bv8>)
    ensures |out| == WholeBlocks(|data|) + 8
    decreases |data|
  {
    if |data| < 8 then StoreWord(enc(FinalBlock(prior, data, padding)))
    else
      var buffer := LoadWord(data[..8]);
      StoreWord(enc(buffer)) + EncodeBlocks(data[8..], buffer, enc, padding)
  }

  function EncodeFile(data: seq<bv8>, enc: BlockCipher, padding: Padding): (out: seq<bv8>)
    ensures |out| == WholeBlocks(|data|) + 8
    ensures |data| < |out| <= |data| + 8
  {
    EncodeBlocks(data, 0, enc, padding)
  }

  /** des_decrypt_file on the bytes `cipher` with block cipher `dec`: every
      whole block deciphered, the padding removed from the last one, and a
      trailing piece shorter than a block ignored. */
  function DecodeFile(cipher: seq<bv8>, dec: BlockCipher, padding: Padding): (out: seq<bv8>)
    ensures |cipher| < 8 ==> out == []
    ensures |cipher| >= 8 ==> WholeBlocks(|cipher|) - 8 <= |out| <= WholeBlocks(|cipher|)
    decreases |cipher|
  {
    if |cipher| < 8 then []
    else
      var block := StoreWord(dec(LoadWord(cipher[..8])));
      if |cipher| < 16 then Unpad(padding, block)
      else block + DecodeFile(cipher[8..], dec, padding)
  }

  /** `dec` undoes `enc`. */
  ghost predicate Inverse(enc: BlockCipher, dec: BlockCipher) {
    forall w :: dec(enc(w)) == w
  }

  /** The tail as unpadding leaves it. */
  function UnpaddedTail(tail: seq<bv8>, padding: Padding): seq<bv8> {
    if padding == CountPadding then tail else TrimPadding(tail)
  }

  /** What a round trip gives back: the whole blocks, and the tail as unpadding
      leaves it. */
  function Recovered(data: seq<bv8>, padding: Padding): (r: seq<bv8>)
    ensures padding == CountPadding ==> r == data
  {
    var whole := WholeBlocks(|data|);
    assert data == data[..whole] + data[whole..];
    data[..whole] + UnpaddedTail(data[whole..], padding)
  }

  lemma TailRoundTrip(data: seq<bv8>, prior: bv64, enc: BlockCipher, dec: BlockCipher, padding: Padding)
    requires Inverse(enc, dec) && |data| < 8
    ensures DecodeFile(EncodeBlocks(data, prior, enc, padding), dec, padding) == Recovered(data, padding)
  {
    var block := FinalBlock(prior, data, padding);
    var c := enc(block);
    assert EncodeBlocks(data, prior, enc, padding) == StoreWord(c);
    DecodeSingle(StoreWord(c), dec, padding);
    LoadStore(c);
    assert dec(c) == block;
    UnpadPad(padding, data);
    ShortRecovered(data, padding);
  }

  lemma DecodeSingle(cipher: seq<bv8>, dec: BlockCipher, padding: Padding)
    requires |cipher| == 8
    ensures DecodeFile(cipher, dec, padding) == Unpad(padding, StoreWord(dec(LoadWord(cipher))))
  {
    assert cipher[..8] == cipher;
  }

  lemma ShortRecovered(data: seq<bv8>, padding: Padding)
    requires |data| < 8
    ensures Recovered(data, padding) == UnpaddedTail(data, padding)
  {
    assert data[..0] + data[0..] == data;
  }

  lemma BlockRoundTrip(data: seq<bv8>, prior: bv64, enc: BlockCipher, dec: BlockCipher, padding: Padding)
    requires Inverse(enc, dec) && |data| >= 8
    ensures DecodeFile(EncodeBlocks(data, prior, enc, padding), dec, padding)
            == data[..8] + DecodeFile(EncodeBlocks(data[8..], LoadWord(data[..8]), enc, padding), dec, padding)
  {
    var buffer := LoadWord(data[..8]);
    var out := EncodeBlocks(data, prior, enc, padding);
    var later := EncodeBlocks(data[8..], buffer, enc, padding);
    assert out == StoreWord(enc(buffer)) + later;
    LoadStore(enc(buffer));
    StoreLoad(data[..8]);
    assert out[..8] == StoreWord(enc(buffer));
    assert out[8..] == later;
  }

  lemma {:induction false} BlocksRoundTrip(data: seq<bv8>, prior: bv64, enc: BlockCipher, dec: BlockCipher, padding: Padding)
    requires Inverse(enc, dec)
    ensures DecodeFile(EncodeBlocks(data, prior, enc, padding), dec, padding) == Recovered(data, padding)
    decreases |data|
  {
    if |data| < 8 {
      TailRoundTrip(data, prior, enc, dec, padding);
    } else {
      BlockRoundTrip(data, prior, enc, dec, padding);
      BlocksRoundTrip(data[8..], LoadWord(data[..8]), enc, dec, padding);
      RecoveredStep(data, padding);
    }
  }

  lemma RecoveredStep(data: seq<bv8>, padding: Padding)
    requires |data| >= 8
    ensures Recovered(data, padding) == data[..8] + Recovered(data[8..], padding)
  {
    var whole := WholeBlocks(|data|);
    var rest := data[8..];
    var u := UnpaddedTail(data[whole..], padding);
    assert rest[whole - 8..] == data[whole..];
    assert Recovered(rest, padding) == rest[..whole - 8] + u;
    assert rest[..whole - 8] == data[8..whole];
    assert data[..whole] == data[..8] + data[8..whole];
    assert Recovered(data, padding) == data[..whole] + u;
    ConcatAssociative(data[..8], data[8..whole], u);
  }

  lemma ConcatAssociative(a: seq<bv8>, b: seq<bv8>, c: seq<bv8>)
    ensures (a + b) + c == a + (b + c)
  {
  }

  /** Deciphering a file enciphered with the inverse block cipher gives the
      whole blocks back and the tail as unpadding leaves it. */
  lemma RoundTrip(data: seq<bv8>, enc: BlockCipher, dec: BlockCipher, padding: Padding)
    requires Inverse(enc, dec)
    ensures DecodeFile(EncodeFile(data, enc, padding), dec, padding) == Recovered(data, padding)
  {
    BlocksRoundTrip(data, 0, enc, dec, padding);
  }

  /** Dropping leading 0xFF bytes changes a sequence exactly when it starts with 0xFF. */
  lemma TrimUnchanged(t: seq<bv8>)
    ensures TrimPadding(t) == t <==> (|t| == 0 || t[0] != 0xFF)
  {
    if |t| > 0 && t[0] == 0xFF {
      assert |TrimPadding(t)| < |t|;
    }
  }

  lemma PrefixCancel(a: seq<bv8>, x: seq<bv8>, y: seq<bv8>)
    ensures a + x == a + y <==> x == y
  {
    if a + x == a + y {
      assert x == (a + x)[|a|..];
      assert y == (a + y)[|a|..];
    }
  }

  /** With the 0xFF padding of des.c a file comes back unchanged exactly when
      its length is a multiple of 8 or its last partial block does not start
      with the byte 0xFF. */
  lemma OnesRoundTripExact(data: seq<bv8>, enc: BlockCipher, dec: BlockCipher)
    requires Inverse(enc, dec)
    ensures DecodeFile(EncodeFile(data, enc, OnesPadding), dec, OnesPadding) == data
            <==> (WholeBlocks(|data|) == |data| || data[WholeBlocks(|data|)] != 0xFF)
  {
    RoundTrip(data, enc, dec, OnesPadding);
    RecoveredUnchanged(data);
  }

  lemma RecoveredUnchanged(data: seq<bv8>)
    ensures Recovered(data, OnesPadding) == data
            <==> (WholeBlocks(|data|) == |data| || data[WholeBlocks(|data|)] != 0xFF)
  {
    var whole := WholeBlocks(|data|);
    var tail := data[whole..];
    assert data == data[..whole] + tail;
    assert Recovered(data, OnesPadding) == data[..whole] + TrimPadding(tail);
    PrefixCancel(data[..whole], TrimPadding(tail), tail);
    TrimUnchanged(tail);
  }

  /** With the counted padding every file comes back unchanged. */
  lemma CountRoundTrip(data: seq<bv8>, enc: BlockCipher, dec: BlockCipher)
    requires Inverse(enc, dec)
    ensures DecodeFile(EncodeFile(data, enc, CountPadding), dec, CountPadding) == data
  {
    RoundTrip(data, enc, dec, CountPadding);
  }

  /** With the 0xFF padding of des.c, the one-byte file 0xFF and the empty file
      are enciphered alike, so no decipherer can tell them apart. */
  lemma OnesPaddingAmbiguous(enc: BlockCipher)
    ensures EncodeFile([0xFF], enc, OnesPadding) == EncodeFile([], enc, OnesPadding)
  {
    var a := FinalBlock(0, [0xFF], OnesPadding);
    var b := FinalBlock(0, [], OnesPadding);
    assert Fill(7, 0xFF) + [0xFF] == Fill(8, 0xFF) + [];
    LoadStore(a);
    LoadStore(b);
  }

  /** A tail and the tail without its leading 0xFF bytes fill the same
      8 bytes once 0xFF padding is put in front of them. */
  lemma PaddedTrimmed(rest: seq<bv8>)
    requires |rest| < 8
    ensures Fill(PadLength(|TrimPadding(rest)|), 0xFF) + TrimPadding(rest)
            == Fill(PadLength(|rest|), 0xFF) + rest
  {
    var t := TrimPadding(rest);
    var dropped := |rest| - |t|;
    TrimPaddingDrops(rest);
    assert rest == rest[..dropped] + t;
    assert rest[..dropped] == Fill(dropped, 0xFF);
    assert Fill(PadLength(|t|), 0xFF) == Fill(PadLength(|rest|), 0xFF) + Fill(dropped, 0xFF);
    ConcatAssociative(Fill(PadLength(|rest|), 0xFF), Fill(dropped, 0xFF), t);
  }

  /** With 0xFF padding, the last block does not change when the tail loses
      its leading 0xFF bytes. */
  lemma FinalBlockTrimmed(prior: bv64, rest: seq<bv8>)
    requires |rest| < 8
    ensures FinalBlock(prior, TrimPadding(rest), OnesPadding) == FinalBlock(prior, rest, OnesPadding)
  {
    var a := FinalBlock(prior, TrimPadding(rest), OnesPadding);
    var b := FinalBlock(prior, rest, OnesPadding);
    PaddedTrimmed(rest);
    assert StoreWord(a) == StoreWord(b);
    LoadStore(a);
    LoadStore(b);
  }

  /** With 0xFF padding, enciphering what a round trip recovers gives the
      same ciphertext as enciphering the file itself. */
  lemma {:induction false} EncodeRecovered(data: seq<bv8>, prior: bv64, enc: BlockCipher)
    ensures EncodeBlocks(Recovered(data, OnesPadding), prior, enc, OnesPadding)
            == EncodeBlocks(data, prior, enc, OnesPadding)
    decreases |data|
  {
    var r := Recovered(data, OnesPadding);
    if |data| < 8 {
      ShortRecovered(data, OnesPadding);
      FinalBlockTrimmed(prior, data);
    } else {
      RecoveredStep(data, OnesPadding);
      assert r[..8] == data[..8] && r[8..] == Recovered(data[8..], OnesPadding);
      EncodeRecovered(data[8..], LoadWord(data[..8]), enc);
    }
  }

  /** The bytes after the whole blocks. */
  function Tail(data: seq<bv8>): (tail: seq<bv8>)
    ensures |tail| < 8
  {
    data[WholeBlocks(|data|)..]
  }

  lemma {:induction false} WholeBlocksOfBlocks(n: nat)
    ensures WholeBlocks(WholeBlocks(n) + 8) == WholeBlocks(n) + 8
    decreases n
  {
    if n >= 8 {
      WholeBlocksOfBlocks(n - 8);
    }
  }

  /** The last block does not depend on what the buffer held before. */
  lemma FinalBlockIgnoresPrior(prior: bv64, rest: seq<bv8>, padding: Padding)
    requires |rest| < 8
    ensures FinalBlock(prior, rest, padding) == FinalBlock(0, rest, padding)
  {
    LoadStore(FinalBlock(prior, rest, padding));
    LoadStore(FinalBlock(0, rest, padding));
  }

  /** A block whose low byte is not 0xFF keeps all eight bytes through unpadding with 0xFF padding. */
  lemma UnpadKeepsBlock(w: bv64)
    requires w & 0xFF != 0xFF
    ensures |Unpad(OnesPadding, StoreWord(w))| == 8
  {
    TrimUnchanged(StoreWord(w));
  }

  /** Deciphering with a cipher `dec` that need not undo `enc` keeps every
      block, as long as the last block does not come out with a low byte 0xFF. */
  lemma {:induction false} DecodeKeepsLength(data: seq<bv8>, prior: bv64, enc: BlockCipher, dec: BlockCipher)
    requires dec(enc(FinalBlock(0, Tail(data), OnesPadding))) & 0xFF != 0xFF
    ensures |DecodeFile(EncodeBlocks(data, prior, enc, OnesPadding), dec, OnesPadding)| == WholeBlocks(|data|) + 8
    decreases |data|
  {
    if |data| < 8 {
      var c := enc(FinalBlock(prior, data, OnesPadding));
      FinalBlockIgnoresPrior(prior, data, OnesPadding);
      assert EncodeBlocks(data, prior, enc, OnesPadding) == StoreWord(c);
      DecodeSingle(StoreWord(c), dec, OnesPadding);
      LoadStore(c);
      UnpadKeepsBlock(dec(c));
    } else {
      var buffer := LoadWord(data[..8]);
      var out := EncodeBlocks(data, prior, enc, OnesPadding);
      var later := EncodeBlocks(data[8..], buffer, enc, OnesPadding);
      assert out == StoreWord(enc(buffer)) + later;
      assert out[8..] == later;
      assert Tail(data[8..]) == Tail(data);
      DecodeKeepsLength(data[8..], buffer, enc, dec);
    }
  }

  /** Three file passes composed as triple_des_encrypt_file does (encode with
      `e1`, decode with `d2`, encode with `e3`) and undone as
      triple_des_decrypt_file does (decode with `d3`, encode with `e2`, decode
      with `d1`). When the middle pass keeps every block, each outer pass adds
      a block of padding of its own, and the result is longer than the input,
      whatever the six ciphers are. */
  lemma ThreePassesGrow(data: seq<bv8>, e1: BlockCipher, d2: BlockCipher, e3: BlockCipher,
                        d3: BlockCipher, e2: BlockCipher, d1: BlockCipher)
    requires d2(e1(FinalBlock(0, Tail(data), OnesPadding))) & 0xFF != 0xFF
    ensures |DecodeFile(EncodeFile(DecodeFile(
               EncodeFile(DecodeFile(EncodeFile(data, e1, OnesPadding), d2, OnesPadding), e3, OnesPadding),
               d3, OnesPadding), e2, OnesPadding), d1, OnesPadding)| > |data|
  {
    var y := DecodeFile(EncodeFile(data, e1, OnesPadding), d2, OnesPadding);
    DecodeKeepsLength(data, 0, e1, d2);
    var z := EncodeFile(y, e3, OnesPadding);
    var x := DecodeFile(z, d3, OnesPadding);
    var v := EncodeFile(x, e2, OnesPadding);
    var r := DecodeFile(v, d1, OnesPadding);
    WholeBlocksOfBlocks(|data|);
    assert WholeBlocks(|y|) == |y| && |y| > |data|;
    WholeBlocksOfBlocks(|y|);
    assert WholeBlocks(|z|) == |z| == |y| + 8;
    assert |x| >= |y|;
    WholeBlocksAtLeast(|y|, |x|);
    assert |v| >= |z|;
    WholeBlocksAtLeast(|z|, |v|);
  }

  /** A length made of whole blocks that is at most `n` is at most the whole
      blocks of `n`. */
  lemma {:induction false} WholeBlocksAtLeast(m: nat, n: nat)
    requires WholeBlocks(m) == m && m <= n
    ensures m <= WholeBlocks(n)
    decreases m
  {
    if m >= 8 {
      WholeBlocksAtLeast(m - 8, n - 8);
    }
  }
}

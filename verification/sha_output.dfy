/** The output of sha256_file (sha.c): uint32_to_hex formats each hash word
    with "%08X", and the eight 8-character strings are written one after the
    other. */
module ShaOutput {
  import opened ShaPrimitives
  import opened Sha256

  /** The digits "%X" prints, most significant digit value first. */
  const HexDigits: string := "0123456789ABCDEF"

  predicate IsHexDigit(c: char) {
    c in HexDigits
  }

  predicate IsHexString(s: string) {
    forall i :: 0 <= i < |s| ==> IsHexDigit(s[i])
  }

  /** 16 to the power `n`. */
  function Pow16(n: nat): (p: nat)
    ensures p > 0
  {
    if n == 0 then 1 else 16 * Pow16(n - 1)
  }

  /** The value `v` written with exactly `width` upper-case hexadecimal digits,
      most significant first: "%0<width>X" when `v` fits, its low digits otherwise. */
  function HexDigitsOf(v: nat, width: nat): (s: string)
    ensures |s| == width && IsHexString(s)
  {
    if width == 0 then [] else HexDigitsOf(v / 16, width - 1) + [HexDigits[v % 16]]
  }

  /** uint32_to_hex: "%08X". */
  function Hex(w: Word): (s: string)
    ensures |s| == 8 && IsHexString(s)
  {
    HexDigitsOf(w as nat, 8)
  }

  /** The value of one hexadecimal digit. */
  function DigitValue(c: char): (d: nat)
    requires IsHexDigit(c)
    ensures d < 16 && HexDigits[d] == c
  {
    if '0' <= c <= '9' then c as nat - '0' as nat else c as nat - 'A' as nat + 10
  }

  /** Reads a string of hexadecimal digits, most significant first. */
  function ParseHex(s: string): (v: nat)
    requires IsHexString(s)
    ensures v < Pow16(|s|)
  {
    if s == [] then 0 else 16 * ParseHex(s[..|s| - 1]) + DigitValue(s[|s| - 1])
  }

  lemma DivMod16(p: nat, d: nat)
    requires d < 16
    ensures (16 * p + d) / 16 == p && (16 * p + d) % 16 == d
  {
  }

  lemma DigitValueOf(d: nat)
    requires d < 16
    ensures DigitValue(HexDigits[d]) == d
  {
  }

  /** A value that fits in `width` digits is read back from them. */
  lemma {:induction false} ParseHexDigits(v: nat, width: nat)
    requires v < Pow16(width)
    ensures ParseHex(HexDigitsOf(v, width)) == v
  {
    if width > 0 {
      var s := HexDigitsOf(v, width);
      assert s[..width - 1] == HexDigitsOf(v / 16, width - 1);
      DigitValueOf(v % 16);
      ParseHexDigits(v / 16, width - 1);
    }
  }

  /** A string of digits is what printing its value with as many digits gives. */
  lemma {:induction false} HexDigitsParse(s: string)
    requires IsHexString(s)
    ensures HexDigitsOf(ParseHex(s), |s|) == s
  {
    if s != [] {
      var front := s[..|s| - 1];
      assert IsHexString(front);
      DivMod16(ParseHex(front), DigitValue(s[|s| - 1]));
      HexDigitsParse(front);
    }
  }

  lemma Pow16Eight()
    ensures Pow16(8) == 0x1_0000_0000
  {
  }

  /** Eight digits hold every 32-bit word, so "%08X" never truncates and
      never pads beyond eight characters: the word is read back exactly. */
  lemma HexRoundTrip(w: Word)
    ensures ParseHex(Hex(w)) == w as nat
  {
    Pow16Eight();
    ParseHexDigits(w as nat, 8);
  }

  /** Every eight hexadecimal digits are the output of uint32_to_hex for one word. */
  lemma HexOnto(s: string)
    requires |s| == 8 && IsHexString(s)
    ensures ParseHex(s) < 0x1_0000_0000 && HexDigitsOf(ParseHex(s), 8) == s
  {
    Pow16Eight();
    HexDigitsParse(s);
  }

  /** What the output loop of sha256_file writes for a sequence of hash
      words: each word as eight hexadecimal digits, in order. */
  function HexConcat(words: seq<Word>): (s: string)
    ensures |s| == 8 * |words| && IsHexString(s)
  {
    if words == [] then [] else HexConcat(words[..|words| - 1]) + Hex(words[|words| - 1])
  }

  /** Characters `8i` to `8i + 7` of the output are word `i`. */
  lemma {:induction false} HexConcatSlice(words: seq<Word>, i: nat)
    requires i < |words|
    ensures HexConcat(words)[8 * i..8 * i + 8] == Hex(words[i])
  {
    var front := words[..|words| - 1];
    var prefix := HexConcat(front);
    assert HexConcat(words) == prefix + Hex(words[|words| - 1]);
    if i < |words| - 1 {
      assert 8 * i + 8 <= |prefix|;
      assert HexConcat(words)[8 * i..8 * i + 8] == prefix[8 * i..8 * i + 8];
      HexConcatSlice(front, i);
    } else {
      assert 8 * i == |prefix|;
    }
  }

  /** The output loop of sha256_file. */
  method HexOutput(hashes: seq<Word>) returns (out: string)
    requires |hashes| == 8
    ensures out == HexConcat(hashes)
  {
    out := [];
    var i := 0;
    while i < 8
      invariant i <= 8 && out == HexConcat(hashes[..i])
    {
      assert hashes[..i + 1][..i] == hashes[..i];
      out := out + Hex(hashes[i]);
      i := i + 1;
    }
    assert hashes[..8] == hashes;
  }

  /** The written digest determines the hash words: word `i` is the value of
      characters `8i` to `8i + 7`. */
  lemma HexConcatRecovers(words: seq<Word>, i: nat)
    requires i < |words|
    ensures IsHexString(HexConcat(words)[8 * i..8 * i + 8])
    ensures ParseHex(HexConcat(words)[8 * i..8 * i + 8]) == words[i] as nat
  {
    HexConcatSlice(words, i);
    HexRoundTrip(words[i]);
  }

  /** sha256_file: the digest of the file as the 64 characters it writes. */
  method Sha256FileOutput(file: seq<bv8>) returns (out: string)
    ensures out == HexConcat(DigestWords(FileDigest(file)))
  {
    var fileLength := |file|;
    var numChunks := fileLength / 64 + 1;
    ChunkCountFits(ShaPad.CLength(file), fileLength);
    var paddedData := ShaPad.Pad(file, numChunks);
    var hashes := HashPadded(paddedData, numChunks);
    out := HexOutput(DigestWords(hashes));
  }
}

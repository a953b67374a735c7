# c-3des in Dafny

A model of the two cryptographic engines of c-3des. Each is modelled bit for bit on
fixed-width words, with the file I/O stripped away.

- **DES** (des.c). The model covers:
  - the bit-selection permutations IP, IP^-1, E, P, PC-1 and PC-2;
  - the key schedule;
  - the round function f and the sixteen-round Feistel network;
  - `des_encrypt` and `des_decrypt`;
  - the block layer of `des_encrypt_file` and `des_decrypt_file`;
  - the three-pass composition of `triple_des_encrypt_file` and `triple_des_decrypt_file`.
- **SHA-256** (sha.c). The model covers:
  - `rotate`, `funct0`, `funct1`, `sum0`, `sum1`, `choice` and `majority`;
  - `pad`;
  - the message schedule and the compression loop of `sha256`, which `sha256_file` duplicates and which is modelled once;
  - the packing of the digest into four 64-bit keys;
  - the hexadecimal output of `sha256_file` through `uint32_to_hex`.

The tables of des.h and the constants of sha.h are not part of this model. The S-boxes, the
bit-selection tables and the shift schedule are the values of FIPS PUB 46-3. K and the
initial hash value are the values of sections 4.2.2 and 5.3.3 of FIPS PUB 180-4.

Modules, one concept each:

- `DesTables`: the S-boxes and the shift schedule.
- `Permutations`: each table-driven permutation loop, written out position by position
  with its constant shifts. It also defines the inverses of IP, P, PC-1 and PC-2.
- `KeySchedule`: `key_shift`, `pc_2` and `generate_key_schedule` as a register of two
  28-bit halves.
- `Des`: `input_key_xor`, `s_box_substitution`, `f`, `split_l_r` and the Feistel network.
  The network is generic in its round function. `l_r_xor` is the `^` in `Round`.
- `DesVectors`: the known-answer values of `run_tests` in main.c.
- `FileCodec`: the block layer of the file functions, with the block cipher as a
  parameter. Blocks are little-endian `uint64_t` words, as `fread` fills them on the
  machines the program targets. The padding is either the one the code uses or a
  corrected one in which every pad byte holds the pad length.
- `DesFile`: the file functions and the triple-DES compositions, built from the codec
  and DES.
- `ShaPrimitives`, `ShaPad`, `Sha256`, `ShaOutput`: the SHA-256 side. `ShaPad` also holds
  a reference padding written from section 5.1.1 of FIPS PUB 180-4.

File contents are byte sequences. Where the C code reads a file, the model takes the
file's bytes as a parameter.

## Model

| member | source | states |
|---|---|---|
| Permutations.Expansion | des.c:95-101 | the expansion E of a half block fits in 48 bits |
| Permutations.ExpansionWindows | des.c:95-101 | each of the eight 6-bit groups of E is a window of the 32-bit half rotated right (the E table of FIPS PUB 46-3) |
| Permutations.PermutationP | des.c:129-135 | p yields a 32-bit word |
| Permutations.PermutationPInvertible | des.c:129-135 | on 32-bit words, p is undone by the inverse permutation |
| Permutations.PermutationPOnto | des.c:129-135 | every 32-bit word is an output of p |
| Permutations.PermutedChoice1Left | des.c:21-28 | pc_1_c yields a 28-bit half |
| Permutations.PermutedChoice1Right | des.c:30-36 | pc_1_d yields a 28-bit half |
| Permutations.PermutedChoice1IgnoresParity | des.c:21-36 | PC-1 does not read the eight parity bits of the key |
| Permutations.PermutedChoice1Invertible | des.c:21-36 | PC-1 loses nothing but the parity bits: the key without its parity bits is recovered from C and D |
| Permutations.PermutedChoice1Onto | des.c:21-36 | every pair of 28-bit halves is produced by some key |
| Permutations.PermutedChoice2 | des.c:45-54 | pc_2 yields a 48-bit round key |
| Permutations.PermutedChoice2IgnoresDropped | des.c:45-54 | pc_2 does not read the eight register bits its table leaves out (positions 9, 18, 22, 25, 35, 38, 43 and 54) |
| Permutations.PermutedChoice2Invertible | des.c:45-54 | pc_2 loses nothing but those eight bits: the register restricted to the selected bits is recovered from the round key |
| Permutations.PermutedChoice2Onto | des.c:45-54 | every 48-bit word is the pc_2 output of some register |
| Permutations.FinalUndoesInitial | des.c:143-149 | final_permutation undoes initial_permutation on every block |
| Permutations.InitialUndoesFinal | des.c:80-86 | initial_permutation undoes final_permutation on every block |
| Permutations.InitialPermutation | des.c:80-86 | initial_permutation, bit by bit from the IP table; its inverse is final_permutation (Permutations.FinalUndoesInitial, Permutations.InitialUndoesFinal) |
| Permutations.FinalPermutation | des.c:143-149 | final_permutation, bit by bit from the IP^-1 table; it undoes IP and IP undoes it (Permutations.FinalUndoesInitial, Permutations.InitialUndoesFinal) |
| KeySchedule.RotateLeft28 | des.c:38-43 | a 28-bit rotation stays within 28 bits |
| KeySchedule.KeyShiftRotates | des.c:38-43 | key_shift rotates the 28-bit half left by the round's entry of the shift schedule |
| KeySchedule.KeyShift | des.c:38-43 | key_shift, the loop of single rotations; it is the 28-bit rotation by the schedule entry (KeySchedule.KeyShiftRotates) and the sixteen shifts make a full turn (KeySchedule.RegisterReturns) |
| KeySchedule.FullTurn | des.c:38-43 | 28 single rotations bring a 28-bit half back to itself |
| KeySchedule.InitialRegister | des.c:56-58 | both halves taken from the key by PC-1 are 28-bit words |
| KeySchedule.RoundKey | des.c:65 | each round key is a 48-bit word |
| KeySchedule.Schedule | des.c:56-69 | generate_key_schedule returns sixteen keys, each below 2^48 |
| KeySchedule.RegisterRotatedByTotal | des.c:56-69 | after round r each half is the PC-1 half rotated by the running total of the shift schedule |
| KeySchedule.RegisterReturns | des.c:56-69 | after the sixteenth round the register holds the PC-1 halves again |
| KeySchedule.ScheduleIgnoresParity | des.c:56-69 | keys that differ only in parity bits have the same schedule |
| KeySchedule.WeakKeyScheduleConstant | des.c:56-69 | for the four weak keys all sixteen round keys are equal |
| Des.InputKeyXor | des.c:103-109 | the bitwise loop computes (input ^ key) restricted to 48 bits |
| Des.Chunk | des.c:115-117 | each small chunk is a 6-bit value |
| Des.RowColumnOfChunk | des.c:119-121 | row is the outer two bits and column the middle four bits of the chunk; row < 4 and column < 16, so row * 16 + col < 64; together they give the chunk back |
| Des.Pack | des.c:119-124 | the eighth entry shifted in lands in the low nibble and the first in nibble 7; the result fits in 32 bits |
| Des.SBoxSubstitution | des.c:111-127 | s_box_substitution yields a 32-bit word |
| Des.SBoxSubstitutionNibbles | des.c:111-127 | nibble i of the output (from the top) is S-box i applied to 6-bit chunk i of the input |
| Des.F | des.c:137-139 | f yields a 32-bit word |
| Des.Split | des.c:88-93 | both halves of split_l_r are 32-bit words |
| Des.SplitJoin | des.c:88-93 | splitting r << 32 \| l gives the halves back, exchanged |
| Des.JoinSplit | des.c:88-93 | joining the exchanged halves of split_l_r(x) gives x back |
| Des.RoundsBounded | des.c:160-164 | with a 32-bit round function the halves stay 32-bit through every round |
| Des.Round | des.c:160-164 | one round: l takes the old r, r becomes l ^ f(r, k) with l_r_xor; applied to its swapped output it gives the swapped input back (Des.RoundUndone) |
| Des.RoundUndone | des.c:160-164 | a Feistel round applied to its own swapped output gives the swapped input back |
| Des.RoundsUndone | des.c:160-164 | the rounds run with the keys reversed on the swapped output give the swapped input back, for any key sequence and any round function |
| Des.CipherUndone | des.c:153-183 | the cipher body under the reversed key sequence undoes the cipher body |
| Des.Cipher | des.c:153-167 | IP, split, the rounds, r << 32 \| l and FP; under the reversed keys it is undone (Des.CipherUndone) |
| Des.DecryptEncrypt | des.c:153-183 | des_decrypt(des_encrypt(m, k), k) == m for every block and key |
| Des.EncryptDecrypt | des.c:153-183 | des_encrypt(des_decrypt(c, k), k) == c for every block and key |
| Des.Encrypt | des.c:153-167 | des_encrypt: the cipher body with the schedule in order; des_decrypt inverts it (Des.DecryptEncrypt) |
| Des.Decrypt | des.c:169-183 | des_decrypt: the cipher body with the schedule reversed; des_encrypt inverts it (Des.EncryptDecrypt) |
| Des.WeakKeyReverseSchedule | des.c:169-183 | for a weak key the reversed schedule that des_decrypt reads equals the schedule |
| Des.WeakKeyInvolution | des.c:153-183 | under a weak key des_encrypt is its own inverse |
| DesVectors.InitialPermutationVector | main.c:22-29 | IP of the test block is 14699974583363760298; its halves are 3422604543 and 4037734570 |
| DesVectors.PermutedChoice1Vector | main.c:31-37 | PC-1 of the test key gives 252496559 and 89548687 |
| DesVectors.KeyShiftVector | main.c:39-47 | key_shift(., 1) gives 236557663 and 179097374, and pc_2 of these gives 29699430183026 |
| DesVectors.ScheduleVector | main.c:49-66 | the sixteen round keys of the test key are the values run_tests expects |
| DesVectors.FinalPermutationVector | main.c:76-82 | r << 32 \| l after round 16 is 742207273711055412, and its final permutation is 9648983453391827973 |
| FileCodec.LoadStore | des.c:202-204 | a word written as eight bytes and read back is unchanged |
| FileCodec.StoreLoad | des.c:202-204 | eight bytes read as a word and written back are unchanged |
| FileCodec.PadLength | des.c:207-208 | between 1 and 8 pad bytes complete the tail to 8 bytes |
| FileCodec.PaddingMaskBytes | des.c:207-211 | the mask loop produces count pad bytes in the low byte positions and zeros above them |
| FileCodec.ReadPartial | des.c:202 | the fread in the loop condition that fails on the short tail leaves the tail bytes over the first bytes of the stale buffer and keeps the rest (the fread at des.c:213 then reads nothing) |
| FileCodec.FinalBlock | des.c:207-216 | the last plaintext block is the pad bytes followed by the tail bytes, whatever the buffer held before |
| FileCodec.FinalBlockIgnoresPrior | des.c:202-214 | the last block does not depend on what the buffer held before the short read: the shift discards it |
| FileCodec.FinalBlockTrimmed | des.c:207-214 | with 0xFF padding, a tail and the same tail without its leading 0xFF bytes give the same last block |
| FileCodec.EncodeRecovered | des.c:185-222 | with 0xFF padding, enciphering what a round trip recovers gives the same ciphertext as enciphering the file |
| FileCodec.TrimPaddingDrops | des.c:244-251 | the stripped block is a suffix of the block; every dropped byte is 0xFF and the first kept byte is not 0xFF |
| FileCodec.TrimUnchanged | des.c:244-251 | stripping changes nothing exactly when the block is empty or its low byte is not 0xFF |
| FileCodec.Unpad | des.c:244-251 | the last block with its padding taken off: every low 0xFF byte for the padding of des.c; it gives back the trimmed tail (FileCodec.UnpadOnes) |
| FileCodec.StripPadding | des.c:244-251 | the stripping loop removes at most 8 bytes, and the 8 - count bytes that fwrite writes are the block without its low 0xFF bytes |
| FileCodec.WholeBlocks | des.c:198-205 | the whole-block part of a length is at most the length and at most 7 below it |
| FileCodec.EncodeFile | des.c:185-222 | the ciphertext has one block per whole block plus the padded last block, so it is always longer than the input and at most 8 bytes longer |
| FileCodec.DecodeFile | des.c:224-259 | a ciphertext shorter than a block decodes to nothing; otherwise the output keeps every block but the last and at most 8 bytes of the last |
| FileCodec.RoundTrip | des.c:185-259 | with inverse block ciphers, decoding the encoding gives the whole blocks back together with the tail as unpadding leaves it |
| FileCodec.OnesRoundTripExact | des.c:185-259 | with the 0xFF padding the round trip is exact if and only if the length is a multiple of 8 or the first tail byte is not 0xFF |
| FileCodec.RecoveredUnchanged | des.c:207-216 | the recovered data equals the data under the same condition |
| FileCodec.CountRoundTrip | des.c:185-259 | with the corrected padding every file round-trips exactly |
| FileCodec.OnesPaddingAmbiguous | des.c:207-216 | the one-byte file [0xFF] and the empty file have the same encoding |
| FileCodec.DecodeKeepsLength | des.c:224-259 | when the decrypted padding block does not have 0xFF as its low byte, decoding the encoding returns all of its bytes, the padding block included |
| FileCodec.ThreePassesGrow | des.c:261-289 | when the middle pass leaves a last block that does not end in 0xFF, the three-pass encoding followed by the three-pass decoding returns more bytes than it was given |
| DesFile.EncryptFile | des.c:185-222 | des_encrypt_file writes the whole blocks plus one padded block |
| DesFile.DecryptFile | des.c:224-259 | des_decrypt_file keeps all but at most 8 bytes of its input's whole blocks |
| DesFile.DesInverse | des.c:153-183 | des_decrypt under a key is the inverse of des_encrypt under that key |
| DesFile.DesInverseBack | des.c:153-183 | des_encrypt under a key is the inverse of des_decrypt under that key |
| DesFile.FileRoundTrip | des.c:185-259 | decrypting an encrypted file gives it back if and only if its length is a multiple of 8 or its first tail byte is not 0xFF |
| DesFile.FileLosesByte | des.c:207-216 | the file [0xFF] comes back empty |
| DesFile.TripleEncryptFile | des.c:261-274 | des_encrypt_file under key1, des_decrypt_file under key2, des_encrypt_file under key3; with one key it is single DES (DesFile.TripleSameKey) |
| DesFile.TripleDecryptFile | des.c:276-289 | des_decrypt_file under key3, des_encrypt_file under key2, des_decrypt_file under key1; it returns a longer file than the one encrypted under the condition of DesFile.TripleRoundTripGrows |
| DesFile.TripleRoundTripGrows | des.c:261-289 | under the same condition as ThreePassesGrow, triple_des_decrypt_file does not give back what triple_des_encrypt_file was given: the result is longer |
| DesFile.TripleSameKey | des.c:261-274 | with three equal keys, triple_des_encrypt_file writes exactly what des_encrypt_file writes under that key (and so what single DES writes for the recovered data) |
| DesFile.TripleBlockRoundTrip | des.c:266-268 | the EDE composition on a block is undone by the DED composition (NIST SP 800-67) |
| DesFile.TripleInverse | des.c:276-289 | the block-level triple decryption is the inverse of the triple encryption |
| DesFile.TripleEncryptFileFixed | des.c:261-274 | the corrected triple DES pads once: whole blocks plus one block |
| DesFile.TripleFixedRoundTrip | des.c:261-289 | the corrected triple DES gives every file back as the padding allows, and exactly with the corrected padding |
| ShaPrimitives.RotateUndone | sha.c:25-27 | for 0 < s < 32, rotate(rotate(x, s), 32 - s) == x |
| ShaPrimitives.RotateIsRotateRight | sha.c:25-27 | for 0 < s < 32, rotate is the rotation to the right by s |
| ShaPrimitives.Rotate | sha.c:25-27 | rotate: (input >> shift) \| (input << (32 - shift)); it is the right rotation (ShaPrimitives.RotateIsRotateRight) and the rotation by 32 - shift undoes it (ShaPrimitives.RotateUndone) |
| ShaPrimitives.SmallSigma0IsFips | sha.c:29-34 | funct0 is sigma-0 of FIPS PUB 180-4 (rotations by 7 and 18, shift by 3) |
| ShaPrimitives.SmallSigma1IsFips | sha.c:36-41 | funct1 is sigma-1 (rotations by 17 and 19, shift by 10) |
| ShaPrimitives.BigSigma0IsFips | sha.c:43-45 | sum0 is Sigma-0 (rotations by 2, 13 and 22) |
| ShaPrimitives.BigSigma1IsFips | sha.c:47-49 | sum1 is Sigma-1 (rotations by 6, 11 and 25) |
| ShaPrimitives.SigmasUseRotate | sha.c:29-49 | every rotation inside the four functions is a call of rotate |
| ShaPrimitives.ChoiceSelects | sha.c:55-57 | choice takes y's bit where x has a one and z's bit where x has a zero |
| ShaPrimitives.Choice | sha.c:55-57 | choice; it selects y where x is set and z elsewhere (ShaPrimitives.ChoiceSelects) |
| ShaPrimitives.MajorityVotes | sha.c:51-53 | majority sets a bit exactly when at least two of the three words have it set |
| ShaPrimitives.MajorityOfAgreeing | sha.c:51-53 | when two arguments agree, majority returns their value |
| ShaPrimitives.Majority | sha.c:51-53 | majority; it is the bitwise two-of-three vote (ShaPrimitives.MajorityVotes) |
| ShaPad.CLength | sha.c:67 | strlen is the index of the first zero byte, or the buffer length when there is none |
| ShaPad.Padded | sha.c:59-89 | pad returns 16 * chunkNum words, and the last two always hold the high and low halves of 8 * strlen |
| ShaPad.ShiftPosition | sha.c:71-81 | one loop pass shifts the current word by a byte and ORs in the sign-extended character, the marker 128 the first time past the end, or zero |
| ShaPad.PadIteration | sha.c:67-82 | one loop pass keeps the invariant: finished words hold four positions, the current word holds the positions seen so far, the later words are zero |
| ShaPad.PackMessage | sha.c:60-82 | after the loop, word j holds positions 4j to 4j+3 for every j up to strlen / 4, and every later word is zero |
| ShaPad.Pad | sha.c:59-89 | pad returns the buffer Padded describes, for the bytes before the first zero byte |
| ShaPad.ShiftInBigEndian | sha.c:71-80 | four bytes shifted in one after another form the big-endian word of section 3.1 of FIPS PUB 180-4 |
| ShaPad.LoopByteIsPadByte | sha.c:72-81 | without sign extension, the loop's value at each position is the byte of the FIPS padded message |
| ShaPad.UnsignedWordIsFips | sha.c:67-82 | without sign extension, each word the loop writes is the big-endian word of the FIPS padded message |
| ShaPad.LoopWordPastEnd | sha.c:62-64 | words past the marker stay zero |
| ShaPad.LengthWordsExact | sha.c:84-86 | below 2^64 bits the length words are the high and low halves of the exact bit length |
| ShaPad.CorrectedPadConforms | sha.c:59-89 | with the FIPS chunk count and unsigned bytes, pad is the padding of section 5.1.1 of FIPS PUB 180-4 |
| ShaPad.SignExtensionHarmless | sha.c:80 | when every byte is below 0x80, sign extension changes no word |
| ShaPad.ChunkCount | sha.c:96 | num_chunks is at most the FIPS chunk count, and equal to it exactly when the length mod 64 is below 56 |
| ShaPad.AsWrittenPadConforms | sha.c:59-89 | pad with num_chunks is the FIPS padding when every byte is below 0x80 and the length mod 64 is below 56 |
| ShaPad.LengthOverwritesMarker | sha.c:83-86 | when the length mod 64 is 56 or more, the loop reaches one of the last two words, which the length then overwrites, and the buffer is one chunk short of FIPS |
| ShaPad.SignExtensionCorrupts | sha.c:80 | for "a" followed by 0x80, the first word is 0xFF808000 where FIPS has 0x61808000 |
| ShaPad.ZeroByteTruncates | sha.c:67 | for "a", 0, "b", only "a" is padded: the first word is 0x61800000 where FIPS has 0x61006280 |
| ShaPad.AbcPadVector | sha.c:59-89 | "abc" pads to 0x61626380, thirteen zero words, 0, 0x18 |
| Sha256.ExtendSchedule | sha.c:141-144 | the extension keeps the words it is given and makes every later word follow the schedule recurrence |
| Sha256.Schedule | sha.c:141-144 | W[0..15] are the chunk words, and W[t] = W[t-16] + sigma0(W[t-15]) + W[t-7] + sigma1(W[t-2]) mod 2^32 for 16 <= t < 64 |
| Sha256.ComputeSchedule | sha.c:138-144 | the in-place loop computes that schedule |
| Sha256.Round | sha.c:173-184 | one pass of the round loop: b, c, d, f, g, h take the old a, b, c, e, f, g; the backward round recovers the registers (Sha256.RoundUndone) |
| Sha256.RoundUndone | sha.c:173-184 | a round is a bijection on the working variables: the backward round recovers the registers before it |
| Sha256.RoundsUndone | sha.c:173-184 | the 64 rounds run backwards recover the registers they started from |
| Sha256.ChainAppend | sha.c:136-193 | hashing the chunks of x + y is hashing y from the hash of x |
| Sha256.ChainStep | sha.c:136-193 | the hash after i + 1 chunks is the compression of chunk i into the hash after i chunks |
| Sha256.RunRounds | sha.c:173-184 | the round loop computes the 64 rounds |
| Sha256.Compress | sha.c:137-192 | one chunk: the schedule, 64 rounds from the running hash, and the add-back; the chunk loop applies it to every chunk (Sha256.HashPadded) |
| Sha256.CompressChunk | sha.c:136-192 | one pass of the chunk loop compresses the chunk into the initial hash for the first chunk and into the running hash otherwise |
| Sha256.HashIteration | sha.c:136-193 | one pass of the chunk loop extends the hash from i chunks to i + 1 chunks |
| Sha256.HashPadded | sha.c:136-193 | the chunk loop computes the chained compression of every chunk of the padded data |
| Sha256.ChunkCountFits | sha.c:96 | for the chunk count taken from the file length, every word pad writes lies inside its buffer |
| Sha256.CorrectedDigestIsFips | sha.c:91-201 | with the corrected padding the digest is SHA-256 of FIPS PUB 180-4 |
| Sha256.FileDigestConforms | sha.c:91-201 | sha256 computes the FIPS digest when every byte is in 1..127 and the length mod 64 is below 56 |
| Sha256.FileDigestStopsAtZero | sha.c:67 | bytes after a zero byte do not change the digest, as long as the chunk count stays the same |
| Sha256.JoinSplit | sha.c:195-199 | the two words packed into a key come back as its high and low halves |
| Sha256.SplitJoin | sha.c:195-199 | every key is the packing of its two halves |
| Sha256.KeysUnpack | sha.c:195-199 | the eight digest words come back out of the four keys |
| Sha256.UnpackKeys | sha.c:195-199 | every four keys are the packing of the eight words they hold |
| Sha256.PackResult | sha.c:195-199 | key i has hashes[2i] as its high half and hashes[2i+1] as its low half |
| Sha256.Sha256Keys | sha.c:91-201 | sha256 returns the four keys packed from the digest of the file |
| Sha256.FileDigest | sha.c:91-201 | sha256 as written: fileLength / 64 + 1 chunks, the bytes before the first zero, sign-extended; equal to the FIPS digest under the conditions of Sha256.FileDigestConforms |
| ShaOutput.HexDigitsOf | sha.c:20-23 | the rendering has exactly the requested width and only uppercase hex digits |
| ShaOutput.Hex | sha.c:20-23 | uint32_to_hex writes 8 uppercase hex digits |
| ShaOutput.HexRoundTrip | sha.c:20-23 | reading the 8 digits back gives the word |
| ShaOutput.HexOnto | sha.c:20-23 | every 8-digit uppercase hex string is the rendering of exactly one word |
| ShaOutput.ParseHexDigits | sha.c:20-23 | rendering a value below 16^width and reading it back gives the value |
| ShaOutput.HexDigitsParse | sha.c:20-23 | reading a hex string and rendering it at the same width gives the string |
| ShaOutput.HexConcat | sha.c:316-321 | the output for n words has 8n hex digits |
| ShaOutput.HexConcatSlice | sha.c:316-321 | characters 8i to 8i+7 of the output are the rendering of word i |
| ShaOutput.HexConcatRecovers | sha.c:316-321 | every word can be read back from its 8 characters of the output |
| ShaOutput.HexOutput | sha.c:316-321 | the output loop writes the eight renderings one after another |
| ShaOutput.Sha256FileOutput | sha.c:204-322 | sha256_file writes the 64-character uppercase hex rendering of the digest |

## Left out

- File I/O: fopen, fread, fwrite, fseek, ftell, open and write are not modelled. Files are byte sequences.
- The -1 return when a file cannot be opened is not modelled.
- The `.tmp` directory handling of the triple-DES functions is not modelled.
- main.c's argument dispatch and its `assert` helper are not modelled. The `run_tests` values are stated as lemmas.
- `pbin`, `print_key_schedule` and `err` only print or exit, so they are not modelled.
- `malloc` sizing and leaks are not modelled.
- Host byte order beyond the little-endian word mapping of the file blocks is not modelled.
- `strlen` on a buffer without a terminating zero is undefined behaviour: `sha256` allocates exactly the file length. The model takes the end of the buffer as the terminator.
- `char` is taken to be signed, as on the usual x86 targets. An unsigned `char` is the `signExtend == false` case, which the model also covers.
- FileCodec.ReadPartial: the model assumes the failing fread of des.c:202 copies the tail bytes into the buffer. The C standard (section 7.21.8.1 of ISO/IEC 9899:2011) leaves a partially read element indeterminate; the C libraries the program targets copy the bytes.
- des_encrypt_file shifts by 64 bits when the length is a multiple of 8. This is undefined behaviour; the all-ones mask covers the whole block whatever that shift yields, and the model uses the mask.
- `int` and `uint64_t` overflow of lengths for files of 2^31 bytes or more is not modelled. The FIPS statements require a bit length below 2^64.
- `ShaPrimitives.Rotate` takes the shift as an unsigned 32-bit word between 1 and 31. Those are the only values sha.c passes to `rotate`.
- The full `des_encrypt` known answer of run_tests (main.c:68-90) is not proved. Evaluating 128 S-box lookups on constants is beyond the verifier's budget. Decryption inverting encryption is proved for every block and key instead, as are the first and last steps of that run.
- No complete SHA-256 digest test vector is proved, for the same reason. The padding of "abc" is proved, and the digest equals the FIPS digest under the stated conditions.
- DesVectors.ScheduleVector states the keys index by index rather than as one sequence equality, which keeps the proof small.

## Findings

| source | as written | input that shows it | evidently intended | confidence | as-written member | corrected member |
|---|---|---|---|---|---|---|
| des.c:207-216, 244-251 | the last block is padded with 0xFF bytes, and decryption strips every 0xFF byte at the start of the last block (the low-order bytes of the word), so a tail that begins with 0xFF loses those bytes | the one-byte file [0xFF] encrypts exactly like the empty file and comes back empty | a padding that decryption can tell apart from data, such as pad bytes that hold the pad length | not executed | FileCodec.OnesPaddingAmbiguous, DesFile.FileLosesByte | FileCodec.CountRoundTrip, DesFile.TripleFixedRoundTrip |
| des.c:261-289 | every pass of triple DES is a full file encryption or decryption, so each encrypting pass adds its own padding block | any file for which the middle pass leaves a last block whose low byte is not 0xFF | triple_des_decrypt_file gives back what triple_des_encrypt_file was given | not executed | DesFile.TripleRoundTripGrows | DesFile.TripleFixedRoundTrip |
| sha.c:80 | `output[blockNum] \|= input[i]` ORs a sign-extended `char` | "a" followed by 0x80: the first word is 0xFF808000 | the byte is ORed in as an unsigned value, giving 0x61808000 | not executed | ShaPad.SignExtensionCorrupts | ShaPad.CorrectedPadConforms, Sha256.CorrectedDigestIsFips |
| sha.c:96 | `num_chunks = fileLength / 64 + 1` | a 56-byte message: the length words overwrite the marker word, and FIPS needs a second chunk | one more chunk when the length mod 64 is 56 or more | not executed | ShaPad.LengthOverwritesMarker | ShaPad.CorrectedPadConforms, Sha256.CorrectedDigestIsFips |
| sha.c:67, 84 | the message length is `strlen(input)` on a binary file buffer | "a", 0, "b": only "a" is hashed | the whole file is hashed, with length fileLength | not executed | ShaPad.ZeroByteTruncates, Sha256.FileDigestStopsAtZero | ShaPad.CorrectedPadConforms, Sha256.CorrectedDigest |

/** des_encrypt_file, des_decrypt_file, triple_des_encrypt_file and
    triple_des_decrypt_file (des.c) on file contents, with DES as the block
    cipher of the file codec; and a corrected triple DES that applies the
    three DES passes to every block under one padding. */
module DesFile {
  import opened KeySchedule
  import opened Des
  import opened FileCodec

  /** des_encrypt under `key` as a block cipher of the file codec. */
  function EncryptWith(key: bv64): BlockCipher {
    w => Encrypt(w, key)
  }

  /** des_decrypt under `key` as a block cipher of the file codec. */
  function DecryptWith(key: bv64): BlockCipher {
    w => Decrypt(w, key)
  }

  /** des_encrypt_file: the file contents enciphered block by block under `key`. */
  function EncryptFile(data: seq<bv8>, key: bv64): (out: seq<bv8>)
    ensures |out| == WholeBlocks(|data|) + 8
  {
    EncodeFile(data, EncryptWith(key), OnesPadding)
  }

  /** des_decrypt_file: the file contents deciphered block by block under `key`. */
  function DecryptFile(cipher: seq<bv8>, key: bv64): (out: seq<bv8>)
    ensures |cipher| < 8 ==> out == []
    ensures |cipher| >= 8 ==> WholeBlocks(|cipher|) - 8 <= |out| <= WholeBlocks(|cipher|)
  {
    DecodeFile(cipher, DecryptWith(key), OnesPadding)
  }

  /** des_decrypt_file's block cipher undoes des_encrypt_file's under one key. */
  lemma DesInverse(key: bv64)
    ensures Inverse(EncryptWith(key), DecryptWith(key))
  {
    forall w: bv64 ensures Decrypt(Encrypt(w, key), key) == w {
      DecryptEncrypt(w, key);
    }
  }

  /** And des_encrypt_file's undoes des_decrypt_file's. */
  lemma DesInverseBack(key: bv64)
    ensures Inverse(DecryptWith(key), EncryptWith(key))
  {
    forall w: bv64 ensures Encrypt(Decrypt(w, key), key) == w {
      EncryptDecrypt(w, key);
    }
  }

  /** des_decrypt_file undoes des_encrypt_file exactly when the file length is
      a multiple of 8 or the last partial block does not start with 0xFF. */
  lemma FileRoundTrip(data: seq<bv8>, key: bv64)
    ensures DecryptFile(EncryptFile(data, key), key) == data
            <==> (WholeBlocks(|data|) == |data| || data[WholeBlocks(|data|)] != 0xFF)
  {
    DesInverse(key);
    OnesRoundTripExact(data, EncryptWith(key), DecryptWith(key));
  }

  /** The one-byte file 0xFF comes back empty. */
  lemma FileLosesByte(key: bv64)
    ensures DecryptFile(EncryptFile([0xFF], key), key) == []
  {
    DesInverse(key);
    OnesPaddingAmbiguous(EncryptWith(key));
    RoundTrip([], EncryptWith(key), DecryptWith(key), OnesPadding);
    assert Recovered([], OnesPadding) == [];
  }

  /** triple_des_encrypt_file: encrypt the file under key1, decrypt that file
      under key2, encrypt the result under key3. */
  function TripleEncryptFile(data: seq<bv8>, key1: bv64, key2: bv64, key3: bv64): seq<bv8> {
    EncryptFile(DecryptFile(EncryptFile(data, key1), key2), key3)
  }

  /** triple_des_decrypt_file: decrypt the file under key3, encrypt that file
      under key2, decrypt the result under key1. */
  function TripleDecryptFile(cipher: seq<bv8>, key1: bv64, key2: bv64, key3: bv64): seq<bv8> {
    DecryptFile(EncryptFile(DecryptFile(cipher, key3), key2), key1)
  }

  /** The last block of des_encrypt_file for `data`, before encryption. */
  function PaddedLastBlock(data: seq<bv8>): bv64 {
    FinalBlock(0, Tail(data), OnesPadding)
  }

  /** When the middle pass leaves the last block with a low byte other than
      0xFF, its output keeps all of its blocks, so the outer passes each add
      a padding block of their own, and triple_des_decrypt_file returns more
      bytes than triple_des_encrypt_file was given. */
  lemma TripleRoundTripGrows(data: seq<bv8>, key1: bv64, key2: bv64, key3: bv64)
    requires DecryptWith(key2)(EncryptWith(key1)(PaddedLastBlock(data))) & 0xFF != 0xFF
    ensures |TripleDecryptFile(TripleEncryptFile(data, key1, key2, key3), key1, key2, key3)| > |data|
  {
    ThreePassesGrow(data, EncryptWith(key1), DecryptWith(key2), EncryptWith(key3),
                    DecryptWith(key3), EncryptWith(key2), DecryptWith(key1));
  }

  /** With one key in all three passes, triple_des_encrypt_file is
      des_encrypt_file of what des_decrypt_file recovers, and that is
      des_encrypt_file of the file itself. */
  lemma TripleSameKey(data: seq<bv8>, key: bv64)
    ensures TripleEncryptFile(data, key, key, key) == EncryptFile(Recovered(data, OnesPadding), key)
    ensures TripleEncryptFile(data, key, key, key) == EncryptFile(data, key)
  {
    DesInverse(key);
    RoundTrip(data, EncryptWith(key), DecryptWith(key), OnesPadding);
    EncodeRecovered(data, 0, EncryptWith(key));
  }

  /** The corrected triple DES: the three DES passes applied to every block. */
  function TripleEncryptBlock(w: bv64, key1: bv64, key2: bv64, key3: bv64): bv64 {
    Encrypt(Decrypt(Encrypt(w, key1), key2), key3)
  }

  function TripleDecryptBlock(w: bv64, key1: bv64, key2: bv64, key3: bv64): bv64 {
    Decrypt(Encrypt(Decrypt(w, key3), key2), key1)
  }

  lemma TripleBlockRoundTrip(w: bv64, key1: bv64, key2: bv64, key3: bv64)
    ensures TripleDecryptBlock(TripleEncryptBlock(w, key1, key2, key3), key1, key2, key3) == w
  {
    DecryptEncrypt(Decrypt(Encrypt(w, key1), key2), key3);
    EncryptDecrypt(Encrypt(w, key1), key2);
    DecryptEncrypt(w, key1);
  }

  function TripleEncryptWith(key1: bv64, key2: bv64, key3: bv64): BlockCipher {
    w => TripleEncryptBlock(w, key1, key2, key3)
  }

  function TripleDecryptWith(key1: bv64, key2: bv64, key3: bv64): BlockCipher {
    w => TripleDecryptBlock(w, key1, key2, key3)
  }

  lemma TripleInverse(key1: bv64, key2: bv64, key3: bv64)
    ensures Inverse(TripleEncryptWith(key1, key2, key3), TripleDecryptWith(key1, key2, key3))
  {
    forall w: bv64 ensures TripleDecryptBlock(TripleEncryptBlock(w, key1, key2, key3), key1, key2, key3) == w {
      TripleBlockRoundTrip(w, key1, key2, key3);
    }
  }

  /** Corrected triple_des_encrypt_file: one pass of the file codec with the
      three-key block cipher and the given padding. */
  function TripleEncryptFileFixed(data: seq<bv8>, key1: bv64, key2: bv64, key3: bv64, padding: Padding): (out: seq<bv8>)
    ensures |out| == WholeBlocks(|data|) + 8
  {
    EncodeFile(data, TripleEncryptWith(key1, key2, key3), padding)
  }

  function TripleDecryptFileFixed(cipher: seq<bv8>, key1: bv64, key2: bv64, key3: bv64, padding: Padding): seq<bv8> {
    DecodeFile(cipher, TripleDecryptWith(key1, key2, key3), padding)
  }

  /** The corrected triple DES recovers a file as well as the padding allows;
      with the counted padding, every file exactly. */
  lemma TripleFixedRoundTrip(data: seq<bv8>, key1: bv64, key2: bv64, key3: bv64, padding: Padding)
    ensures TripleDecryptFileFixed(TripleEncryptFileFixed(data, key1, key2, key3, padding), key1, key2, key3, padding)
            == Recovered(data, padding)
    ensures padding == CountPadding
            ==> TripleDecryptFileFixed(TripleEncryptFileFixed(data, key1, key2, key3, padding), key1, key2, key3, padding) == data
  {
    TripleInverse(key1, key2, key3);
    RoundTrip(data, TripleEncryptWith(key1, key2, key3), TripleDecryptWith(key1, key2, key3), padding);
  }
}

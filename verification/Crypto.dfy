/**
 Symmetric encryption of a session: PKCS padding and CBC chaining around an
 abstract 16-byte block permutation.

 CBC follows section 6.2 of NIST SP 800-38A; the padding is that of section 6.3
 of RFC 5652 with a 16-byte block.
 */
module Crypto {
  import opened Wrappers
  import opened Octets
  import opened Sequences

  const AES_BLOCK_LENGTH: nat := 16
  const AES_IV_LENGTH: nat := 16

  type Block = b: Bytes | |b| == 16 witness seq(16, _ => 0)

  /** A block cipher: for each key, `enc` and `dec` map blocks to blocks. */
  datatype BlockCipher = BlockCipher(enc: (Bytes, Block) -> Block, dec: (Bytes, Block) -> Block)

  ghost predicate Inverse(c: BlockCipher) {
    forall k: Bytes, b: Block :: c.dec(k, c.enc(k, b)) == b
  }

  /** AES with its internals left out: any family of invertible block maps. */
  type Aes = c: BlockCipher | Inverse(c) witness BlockCipher((k, b) => b, (k, b) => b)

  /** The key sizes aes.NewCipher accepts. */
  predicate AesKeySize(n: nat) { n == 16 || n == 24 || n == 32 }

  function XorBlock(a: Block, b: Block): Block {
    seq(16, i requires 0 <= i < 16 => Xor(a[i], b[i]))
  }

  lemma XorBlockCancels(a: Block, b: Block)
    ensures XorBlock(XorBlock(a, b), b) == a
  {
    hide Xor;
    forall i | 0 <= i < 16 ensures XorBlock(XorBlock(a, b), b)[i] == a[i] {
      XorCancels(a[i], b[i]);
    }
  }

  // ---------------------------------------------------------------- padding

  function PKCS5Padding(input: Bytes, blockSize: nat): (r: Bytes)
    requires blockSize > 0
    ensures |r| % blockSize == 0
    ensures |input| < |r| <= |input| + blockSize
    ensures input <= r
    ensures forall i | |input| <= i < |r| :: r[i] as int == (|r| - |input|) % 256
  {
    var padding := blockSize - |input| % blockSize;
    PadLength(|input|, blockSize);
    input + seq(padding, _ => (padding % 256) as Byte)
  }

  lemma PadLength(n: nat, m: nat)
    requires m > 0
    ensures (n + (m - n % m)) % m == 0
  {
    var q := n / m;
    assert n + (m - n % m) == (q + 1) * m;
    MultipleMod(q + 1, m);
  }

  lemma MultipleMod(q: nat, m: nat)
    requires m > 0
    ensures (q * m) % m == 0
  {
    var d, r := (q * m) / m, (q * m) % m;
    assert (q - d) * m == r;
    BelowOneMultiple(q - d, m);
  }

  lemma BelowOneMultiple(k: int, m: nat)
    requires 0 <= k * m < m
    ensures k == 0
  {
  }

  /** The unpadding of SymmetricDecrypt: only the last byte is looked at, and a
      count longer than the message yields the empty message. */
  function Unpad(padded: Bytes): Bytes
    requires |padded| > 0
  {
    var padding := padded[|padded| - 1] as int;
    if padding > |padded| then [] else padded[..|padded| - padding]
  }

  lemma UnpadInvertsPad(input: Bytes)
    ensures Unpad(PKCS5Padding(input, AES_BLOCK_LENGTH)) == input
  {
    var padded := PKCS5Padding(input, AES_BLOCK_LENGTH);
    var n := 16 - |input| % 16;
    assert padded[|padded| - 1] as int == n;
  }

  // ---------------------------------------------------------------- CBC

  ghost function CbcEncrypt(c: Aes, key: Bytes, iv: Block, plain: Bytes): (r: Bytes)
    requires |plain| % 16 == 0
    ensures |r| == |plain|
    decreases |plain|
  {
    if plain == [] then []
    else
      var y := c.enc(key, XorBlock(plain[..16], iv));
      y + CbcEncrypt(c, key, y, plain[16..])
  }

  ghost function CbcDecrypt(c: Aes, key: Bytes, iv: Block, cipher: Bytes): (r: Bytes)
    requires |cipher| % 16 == 0
    ensures |r| == |cipher|
    decreases |cipher|
  {
    if cipher == [] then []
    else XorBlock(c.dec(key, cipher[..16]), iv) + CbcDecrypt(c, key, cipher[..16], cipher[16..])
  }

  lemma {:induction false} CbcRoundTrip(c: Aes, key: Bytes, iv: Block, plain: Bytes)
    requires |plain| % 16 == 0
    ensures CbcDecrypt(c, key, iv, CbcEncrypt(c, key, iv, plain)) == plain
    decreases |plain|
  {
    if plain != [] {
      var x := XorBlock(plain[..16], iv);
      var y := c.enc(key, x);
      var cipher := CbcEncrypt(c, key, iv, plain);
      assert cipher[..16] == y && cipher[16..] == CbcEncrypt(c, key, y, plain[16..]);
      XorBlockCancels(plain[..16], iv);
      CbcRoundTrip(c, key, y, plain[16..]);
    }
  }

  /** Only the first block of a decryption depends on the IV. */
  lemma CbcWrongIv(c: Aes, key: Bytes, iv: Block, other: Block, cipher: Bytes)
    requires |cipher| % 16 == 0 && |cipher| > 0
    ensures var good := CbcDecrypt(c, key, iv, cipher);
            var bad := CbcDecrypt(c, key, other, cipher);
            && bad[16..] == good[16..]
            && forall i | 0 <= i < 16 :: bad[i] == Xor(Xor(good[i], iv[i]), other[i])
  {
    var d := c.dec(key, cipher[..16]);
    var good, bad := XorBlock(d, iv), XorBlock(d, other);
    var rest := CbcDecrypt(c, key, cipher[..16], cipher[16..]);
    assert CbcDecrypt(c, key, iv, cipher) == good + rest;
    assert CbcDecrypt(c, key, other, cipher) == bad + rest;
    forall i | 0 <= i < 16 ensures bad[i] == Xor(Xor(good[i], iv[i]), other[i]) {
      XorCancels(d[i], iv[i]);
    }
  }

  /** The n-th block of a message. */
  function BlockAt(s: Bytes, n: nat): (b: Block)
    requires 16 * n + 16 <= |s|
  {
    s[16 * n..16 * n + 16]
  }

  /** The equations of the mode: the first block is encrypted under the IV, every other one
      under the ciphertext block before it. */
  lemma {:induction false} CbcEquations(c: Aes, key: Bytes, iv: Block, plain: Bytes, n: nat)
    requires |plain| % 16 == 0 && 16 * n + 16 <= |plain|
    ensures var cipher := CbcEncrypt(c, key, iv, plain);
            BlockAt(cipher, n) == c.enc(key, XorBlock(BlockAt(plain, n), if n == 0 then iv else BlockAt(cipher, n - 1)))
    decreases n
  {
    var cipher := CbcEncrypt(c, key, iv, plain);
    var y := c.enc(key, XorBlock(plain[..16], iv));
    assert cipher[..16] == y && cipher[16..] == CbcEncrypt(c, key, y, plain[16..]);
    hide CbcEncrypt, XorBlock;
    if n > 0 {
      CbcEquations(c, key, y, plain[16..], n - 1);
      NextBlock(plain, n);
      NextBlock(cipher, n);
      if n > 1 {
        NextBlock(cipher, n - 1);
      }
    }
  }

  lemma NextBlock(s: Bytes, n: nat)
    requires n > 0 && 16 * n + 16 <= |s|
    ensures BlockAt(s, n) == BlockAt(s[16..], n - 1)
  {
  }

  // ------------------------------------------- SymmetricEncrypt, SymmetricDecrypt

  /** What SymmetricEncrypt returns. A key aes.NewCipher refuses leaves a nil block,
      and an IV that is not one block long stops NewCBCEncrypter. */
  ghost function Encrypted(c: Aes, key: Bytes, nonce: Bytes, plaintext: Bytes): Result<Bytes> {
    if !AesKeySize(|key|) || |nonce| != 16 then Panic
    else Ok(CbcEncrypt(c, key, nonce, PKCS5Padding(plaintext, AES_BLOCK_LENGTH)))
  }

  /** What SymmetricDecrypt returns; its second result is the length of the first. */
  ghost function Decrypted(c: Aes, key: Bytes, nonce: Bytes, ciphertext: Bytes): Result<Bytes> {
    if |key| != |nonce| || |key| == 0 || |ciphertext| % |key| != 0 then Panic
    else if ciphertext == [] then Ok([])
    else if !AesKeySize(|key|) || |nonce| != 16 then Panic
    else Ok(Unpad(CbcDecrypt(c, key, nonce, ciphertext)))
  }

  method StoreBlock(dst: array<Byte>, n: nat, block: Block)
    requires n + 16 <= dst.Length
    modifies dst
    ensures dst[..n + 16] == old(dst[..n]) + block
  {
    forall i | n <= i < n + 16 {
      dst[i] := block[i - n];
    }
  }

  lemma EncryptBlock(c: Aes, key: Bytes, iv: Block, src: Bytes, n: nat)
    requires |src| % 16 == 0 && n % 16 == 0 && n < |src|
    ensures var y := c.enc(key, XorBlock(src[n..n + 16], iv));
            CbcEncrypt(c, key, iv, src[n..]) == y + CbcEncrypt(c, key, y, src[n + 16..])
  {
    assert src[n..][..16] == src[n..n + 16] && src[n..][16..] == src[n + 16..];
  }

  lemma DecryptBlock(c: Aes, key: Bytes, iv: Block, src: Bytes, n: nat)
    requires |src| % 16 == 0 && n % 16 == 0 && n < |src|
    ensures var y := src[n..n + 16];
            CbcDecrypt(c, key, iv, src[n..]) == XorBlock(c.dec(key, y), iv) + CbcDecrypt(c, key, y, src[n + 16..])
  {
    assert src[n..][..16] == src[n..n + 16] && src[n..][16..] == src[n + 16..];
  }

  /** The part of cbc.CryptBlocks that encrypts: the output buffer is filled block by
      block, each ciphertext block being the IV of the next. */
  method CryptBlocksEncrypt(c: Aes, key: Bytes, nonce: Block, dst: array<Byte>, src: Bytes)
    requires |src| % 16 == 0 && dst.Length == |src|
    modifies dst
    ensures dst[..] == CbcEncrypt(c, key, nonce, src)
  {
    assert src[|src|..] == [] && CbcEncrypt(c, key, nonce, []) == [];
    hide CbcEncrypt, XorBlock;
    var iv, n := nonce, 0;
    while n < |src|
      invariant 0 <= n <= |src| && n % 16 == 0
      invariant dst[..n] + CbcEncrypt(c, key, iv, src[n..]) == CbcEncrypt(c, key, nonce, src)
    {
      var y := c.enc(key, XorBlock(src[n..n + 16], iv));
      EncryptBlock(c, key, iv, src, n);
      ghost var done := dst[..n];
      StoreBlock(dst, n, y);
      Concat(done, y, CbcEncrypt(c, key, y, src[n + 16..]));
      iv, n := y, n + 16;
    }
    assert dst[..n] == dst[..];
  }

  method CryptBlocksDecrypt(c: Aes, key: Bytes, nonce: Block, dst: array<Byte>, src: Bytes)
    requires |src| % 16 == 0 && dst.Length == |src|
    modifies dst
    ensures dst[..] == CbcDecrypt(c, key, nonce, src)
  {
    assert src[|src|..] == [] && CbcDecrypt(c, key, nonce, []) == [];
    hide CbcDecrypt, XorBlock;
    var iv: Block, n := nonce, 0;
    while n < |src|
      invariant 0 <= n <= |src| && n % 16 == 0
      invariant dst[..n] + CbcDecrypt(c, key, iv, src[n..]) == CbcDecrypt(c, key, nonce, src)
    {
      var y: Block := src[n..n + 16];
      var x := XorBlock(c.dec(key, y), iv);
      DecryptBlock(c, key, iv, src, n);
      ghost var done := dst[..n];
      StoreBlock(dst, n, x);
      Concat(done, x, CbcDecrypt(c, key, y, src[n + 16..]));
      iv, n := y, n + 16;
    }
    assert dst[..n] == dst[..];
  }

  method SymmetricEncrypt(c: Aes, key: Bytes, nonce: Bytes, plaintext: Bytes) returns (r: Result<Bytes>)
    ensures r == Encrypted(c, key, nonce, plaintext)
  {
    if !AesKeySize(|key|) || |nonce| != 16 {
      return Panic;
    }
    var padded := PKCS5Padding(plaintext, AES_BLOCK_LENGTH);
    var ciphertext := new Byte[|padded|];
    CryptBlocksEncrypt(c, key, nonce, ciphertext, padded);
    r := Ok(ciphertext[..]);
  }

  method SymmetricDecrypt(c: Aes, key: Bytes, nonce: Bytes, ciphertext: Bytes) returns (r: Result<Bytes>)
    ensures r == Decrypted(c, key, nonce, ciphertext)
  {
    if |key| != |nonce| {
      return Panic;
    }
    if |key| == 0 || |ciphertext| % |key| != 0 {
      return Panic;
    }
    if |ciphertext| == 0 {
      return Ok([]);
    }
    if !AesKeySize(|key|) || |nonce| != 16 {
      return Panic;
    }
    var plaintext := new Byte[|ciphertext|];
    CryptBlocksDecrypt(c, key, nonce, plaintext, ciphertext);
    var padding := plaintext[plaintext.Length - 1] as int;
    if padding > plaintext.Length {
      return Ok([]);
    }
    r := Ok(plaintext[..plaintext.Length - padding]);
  }

  // ---------------------------------------------------------------- laws

  /** Which sizes stop the two: encryption takes an AES key and a 16-byte IV; decryption a
      key as long as the IV that divides the length of the message, and for a message that
      is not empty only 16 bytes of each. */
  lemma SizesExactly(c: Aes, key: Bytes, nonce: Bytes, text: Bytes)
    ensures Encrypted(c, key, nonce, text).Ok? <==> (|key| == 16 || |key| == 24 || |key| == 32) && |nonce| == 16
    ensures Decrypted(c, key, nonce, text).Ok? <==>
              || (|key| == 16 && |nonce| == 16 && |text| % 16 == 0)
              || (text == [] && |key| == |nonce| && key != [])
    ensures Decrypted(c, key, nonce, text).Ok? && text == [] ==> Decrypted(c, key, nonce, text).value == []
  {
  }

  /** Whenever encryption succeeds, decrypting under the same key and IV gives the
      plaintext back exactly when the key is 16 bytes long: the check that key and IV
      have the same length stops SymmetricDecrypt for the longer AES keys. */
  lemma RoundTrip(c: Aes, key: Bytes, nonce: Bytes, plaintext: Bytes)
    requires Encrypted(c, key, nonce, plaintext).Ok?
    ensures var sent := Encrypted(c, key, nonce, plaintext).value;
            Decrypted(c, key, nonce, sent) == (if |key| == 16 then Ok(plaintext) else Panic)
  {
    var padded := PKCS5Padding(plaintext, AES_BLOCK_LENGTH);
    if |key| == 16 {
      CbcRoundTrip(c, key, nonce, padded);
      UnpadInvertsPad(plaintext);
    }
  }

  /** Of any whole blocks, padded as they may be, decryption returns what is left when as many
      bytes are cut off as the last one says, nothing when these are more than there are. */
  lemma AnyPadding(c: Aes, key: Block, iv: Block, blocks: Bytes)
    requires |blocks| % 16 == 0 && blocks != []
    ensures var last := blocks[|blocks| - 1] as int;
            Decrypted(c, key, iv, CbcEncrypt(c, key, iv, blocks))
            == Ok(if last <= |blocks| then blocks[..|blocks| - last] else [])
  {
    CbcRoundTrip(c, key, iv, blocks);
    hide CbcEncrypt, CbcDecrypt;
  }

  /** The ciphertext length is the least multiple of 16 above the plaintext length. */
  lemma CiphertextLength(c: Aes, key: Bytes, nonce: Bytes, plaintext: Bytes)
    requires Encrypted(c, key, nonce, plaintext).Ok?
    ensures var n := |Encrypted(c, key, nonce, plaintext).value|;
            && n % 16 == 0 && |plaintext| < n
            && forall m: nat | m % 16 == 0 && |plaintext| < m :: n <= m
  {
  }

  /** Decrypting two or more blocks under another IV returns a message of the same
      length that differs in its first block only, by the XOR of the two IVs. The size
      test of the receive loop therefore cannot tell the IVs apart. */
  lemma WrongIvLocality(c: Aes, key: Block, iv: Block, other: Block, cipher: Bytes)
    requires |cipher| % 16 == 0 && |cipher| >= 32
    ensures var good := Decrypted(c, key, iv, cipher);
            var bad := Decrypted(c, key, other, cipher);
            && good.Ok? && bad.Ok? && |bad.value| == |good.value|
            && forall i | 0 <= i < |good.value| ::
                 bad.value[i] == if i < 16 then Xor(Xor(good.value[i], iv[i]), other[i]) else good.value[i]
  {
    CbcWrongIv(c, key, iv, other, cipher);
    var good, bad := CbcDecrypt(c, key, iv, cipher), CbcDecrypt(c, key, other, cipher);
    forall i | 16 <= i < |cipher| ensures bad[i] == good[i] {
      assert bad[16..][i - 16] == good[16..][i - 16];
    }
  }

  /** A single block is the case where the IV decides the size: the padding count read
      is the true one XORed with the last bytes of the two IVs. */
  lemma WrongIvOneBlock(c: Aes, key: Block, iv: Block, other: Block, plain: Bytes)
    requires |plain| < 16
    ensures var sent := Encrypted(c, key, iv, plain).value;
            var pad := Xor(Xor((16 - |plain|) as Byte, iv[15]), other[15]);
            var bad := Decrypted(c, key, other, sent);
            && |sent| == 16 && bad.Ok?
            && |bad.value| == (if pad as int > 16 then 0 else 16 - pad as int)
            && forall i | 0 <= i < |bad.value| && i < |plain| :: bad.value[i] == Xor(Xor(plain[i], iv[i]), other[i])
  {
    var padded := PKCS5Padding(plain, AES_BLOCK_LENGTH);
    OneBlockPadded(plain);
    var sent := CbcEncrypt(c, key, iv, padded);
    CbcRoundTrip(c, key, iv, padded);
    CbcWrongIv(c, key, iv, other, sent);
    hide CbcEncrypt, CbcDecrypt, PKCS5Padding;
    assert Encrypted(c, key, iv, plain) == Ok(sent);
    var raw := CbcDecrypt(c, key, other, sent);
    assert raw[15] == Xor(Xor(padded[15], iv[15]), other[15]);
    assert Decrypted(c, key, other, sent) == Ok(Unpad(raw));
  }

  lemma OneBlockPadded(plain: Bytes)
    requires |plain| < 16
    ensures var padded := PKCS5Padding(plain, AES_BLOCK_LENGTH);
            && |padded| == 16 && padded[15] == (16 - |plain|) as Byte
            && forall i | 0 <= i < |plain| :: padded[i] == plain[i]
  {
  }
}

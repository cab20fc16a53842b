/**
 PKCS#7 padding (section 6.3 of RFC 5652) and the CBC envelope IV || ciphertext around it.
 The block cipher and Base64 are parameters known only by their round trips.
 */
module AesCbc {
  import opened Options

  type Byte = x: int | 0 <= x < 256

  type Bytes = seq<Byte>

  datatype CryptoError =
    | DataEmpty | InvalidPadding | CiphertextTooShort | CiphertextNotMultipleOfBlock | Base64Invalid

  const AES_BLOCK := 16

  // ---------------------------------------------------------------- padding

  /** The last byte says how many bytes were added, and all added bytes say the same. */
  ghost predicate IsPadded(padded: Bytes, data: Bytes, blockSize: int)
    requires blockSize >= 1
  {
    && |padded| % blockSize == 0
    && |data| < |padded| <= |data| + blockSize
    && padded[..|data|] == data
    && forall i | |data| <= i < |padded| :: padded[i] == (|padded| - |data|) % 256
  }

  function Padding(data: Bytes, blockSize: int): (r: Bytes)
    requires blockSize >= 1
    ensures |r| == |data| + (blockSize - |data| % blockSize)
  {
    var n := blockSize - |data| % blockSize;
    data + seq(n, _ => n % 256)
  }

  function Unpadding(data: Bytes, blockSize: int): Result<Bytes, CryptoError> {
    if data == [] then Err(DataEmpty)
    else
      var n := data[|data| - 1];
      if n == 0 || n > |data| || n > blockSize then Err(InvalidPadding)
      else if forall i | |data| - n <= i < |data| :: data[i] == n then Ok(data[..|data| - n])
      else Err(InvalidPadding)
  }

  /** The builtin copy: src goes to dst from index at on. */
  method Copy(dst: array<Byte>, at: nat, src: Bytes)
    requires at + |src| <= dst.Length
    modifies dst
    ensures dst[..at] == old(dst[..at]) && dst[at..at + |src|] == src
    ensures dst[at + |src|..] == old(dst[at + |src|..])
  {
    for i := 0 to |src|
      invariant dst[..at] == old(dst[..at]) && dst[at..at + i] == src[..i]
      invariant dst[at + |src|..] == old(dst[at + |src|..])
    {
      dst[at + i] := src[i];
    }
  }

  method Pkcs7Padding(data: Bytes, blockSize: int) returns (result: array<Byte>)
    requires blockSize >= 1
    ensures fresh(result) && result[..] == Padding(data, blockSize)
  {
    var padding := blockSize - |data| % blockSize;
    var padByte: Byte := padding % 256;
    result := new Byte[|data| + padding](_ => 0);
    Copy(result, 0, data);
    for i := |data| to result.Length
      invariant result[..|data|] == data
      invariant forall k | |data| <= k < i :: result[k] == padByte
    {
      result[i] := padByte;
    }
  }

  method Pkcs7Unpadding(data: Bytes, blockSize: int) returns (r: Result<Bytes, CryptoError>)
    ensures r == Unpadding(data, blockSize)
  {
    var length := |data|;
    if length == 0 { return Err(DataEmpty); }
    var padding := data[length - 1];
    if padding == 0 || padding > length || padding > blockSize { return Err(InvalidPadding); }
    for i := 0 to padding
      invariant forall k | length - i <= k < length :: data[k] == padding
    {
      if data[length - 1 - i] != padding { return Err(InvalidPadding); }
    }
    return Ok(data[..length - padding]);
  }

  /** Padding to a multiple: |data| + (b - |data| mod b) is a multiple of b. */
  lemma PaddedLength(n: nat, b: int)
    requires b >= 1
    ensures (n + (b - n % b)) % b == 0
  {
    var q := n / b;
    assert n + (b - n % b) == (q + 1) * b;
    MultipleHasNoRemainder(q + 1, b);
  }

  lemma MultipleHasNoRemainder(q: int, b: int)
    requires b >= 1
    ensures (q * b) % b == 0
  {
    var r := (q * b) % b;
    var d := q - (q * b) / b;
    assert d * b == r;
    assert d >= 1 ==> d * b >= b;
    assert d <= -1 ==> d * b <= -b;
  }

  lemma PaddingIsPadded(data: Bytes, blockSize: int)
    requires blockSize >= 1
    ensures IsPadded(Padding(data, blockSize), data, blockSize)
  {
    PaddedLength(|data|, blockSize);
  }

  /** Unpadding undoes padding for every input exactly when the block size is at most 255,
      so that the padding length fits its byte. */
  lemma RoundTripIff(blockSize: int)
    requires blockSize >= 1
    ensures (forall data: Bytes :: Unpadding(Padding(data, blockSize), blockSize) == Ok(data)) <==> blockSize <= 255
  {
    if blockSize <= 255 {
      forall data: Bytes ensures Unpadding(Padding(data, blockSize), blockSize) == Ok(data) {
        RoundTrip(data, blockSize);
      }
    } else {
      var p := Padding([], blockSize);
      assert p[|p| - 1] == blockSize % 256;
      assert Unpadding(p, blockSize) != Ok([]);
    }
  }

  lemma RoundTrip(data: Bytes, blockSize: int)
    requires 1 <= blockSize <= 255
    ensures Unpadding(Padding(data, blockSize), blockSize) == Ok(data)
  {
    var p := Padding(data, blockSize);
    var n := blockSize - |data| % blockSize;
    assert p[|p| - 1] == n;
    assert p[..|p| - n] == data;
  }

  /** A block-aligned input is accepted exactly when it is the padding of some plaintext,
      and that plaintext is unique and is what unpadding returns. */
  lemma AcceptedIffPadding(data: Bytes, blockSize: int)
    requires 1 <= blockSize <= 255 && |data| % blockSize == 0
    ensures Unpadding(data, blockSize).Ok? <==> exists p: Bytes :: Padding(p, blockSize) == data
    ensures forall p: Bytes | Padding(p, blockSize) == data :: Unpadding(data, blockSize) == Ok(p)
  {
    forall p: Bytes | Padding(p, blockSize) == data ensures Unpadding(data, blockSize) == Ok(p) {
      RoundTrip(p, blockSize);
    }
    var u := Unpadding(data, blockSize);
    if u.Ok? {
      var n := data[|data| - 1];
      RemainderOfRest(|data|, n, blockSize);
      assert Padding(u.value, blockSize) == data;
    }
  }

  /** Taking n of 1..b off a multiple of b leaves b - n over, or nothing when n is b. */
  lemma RemainderOfRest(total: int, n: int, b: int)
    requires b >= 1 && total % b == 0 && 1 <= n <= b && n <= total
    ensures (total - n) % b == b - n || (n == b && (total - n) % b == 0)
    ensures b - (total - n) % b == n
  {
    var q := total / b;
    assert total - n == (q - 1) * b + (b - n);
    var r := (total - n) % b;
    var d := (total - n) / b - (q - 1);
    assert d * b == (b - n) - r;
    assert d >= 1 ==> d * b >= b;
    assert d <= -1 ==> d * b <= -b;
  }

  // ---------------------------------------------------------------- the envelope

  /** CBC CryptBlocks under a fixed key, by IV, and the standard Base64 codec. */
  datatype Primitives = Primitives(
    encrypt: (Bytes, Bytes) -> Bytes, decrypt: (Bytes, Bytes) -> Bytes,
    encode: Bytes -> string, decode: string -> Option<Bytes>)

  /** On whole blocks the two directions keep the length and undo each other; Base64
      decodes what it encodes. */
  ghost predicate Sound(c: Primitives) {
    && (forall iv: Bytes, d: Bytes | |iv| == AES_BLOCK && |d| % AES_BLOCK == 0 ::
          |c.encrypt(iv, d)| == |d| && c.decrypt(iv, c.encrypt(iv, d)) == d)
    && (forall iv: Bytes, d: Bytes | |iv| == AES_BLOCK && |d| % AES_BLOCK == 0 ::
          |c.decrypt(iv, d)| == |d| && c.encrypt(iv, c.decrypt(iv, d)) == d)
    && (forall d: Bytes :: c.decode(c.encode(d)) == Some(d))
  }

  /** The envelope of a plaintext under a random IV. */
  function Seal(c: Primitives, plaintext: Bytes, iv: Bytes): Bytes {
    iv + c.encrypt(iv, Padding(plaintext, AES_BLOCK))
  }

  function Open(c: Primitives, envelope: Bytes): Result<Bytes, CryptoError> {
    if |envelope| < AES_BLOCK then Err(CiphertextTooShort)
    else CbcDecrypt(c, envelope[..AES_BLOCK], envelope[AES_BLOCK..])
  }

  function CbcDecrypt(c: Primitives, iv: Bytes, payload: Bytes): Result<Bytes, CryptoError> {
    if |payload| == 0 || |payload| % AES_BLOCK != 0 then Err(CiphertextNotMultipleOfBlock)
    else Unpadding(c.decrypt(iv, payload), AES_BLOCK)
  }

  lemma EncryptKeepsLength(c: Primitives, iv: Bytes, d: Bytes)
    requires Sound(c) && |iv| == AES_BLOCK && |d| % AES_BLOCK == 0
    ensures |c.encrypt(iv, d)| == |d| && c.decrypt(iv, c.encrypt(iv, d)) == d
  {
  }

  method EncryptCBC(c: Primitives, plaintext: Bytes, iv: Bytes) returns (text: string)
    requires |iv| == AES_BLOCK && Sound(c)
    ensures text == c.encode(Seal(c, plaintext, iv))
    ensures exists p: Bytes :: IsPadded(p, plaintext, 16) && text == c.encode(iv + c.encrypt(iv, p))
  {
    PaddingIsPadded(plaintext, AES_BLOCK);
    PaddedLength(|plaintext|, AES_BLOCK);
    EncryptKeepsLength(c, iv, Padding(plaintext, AES_BLOCK));
    hide Sound;
    var padded := Pkcs7Padding(plaintext, AES_BLOCK);
    var ciphertext := new Byte[|iv| + padded.Length](_ => 0);
    var blocks := c.encrypt(iv, padded[..]);
    Copy(ciphertext, 0, iv);
    Copy(ciphertext, |iv|, blocks);
    assert ciphertext[..] == iv + blocks;
    return c.encode(ciphertext[..]);
  }

  /** A block-aligned input of at least one block unpads to data exactly when it is data with
      its padding, by the definition of padding itself. */
  lemma UnpaddingIffPadded(padded: Bytes, data: Bytes, blockSize: int)
    requires 1 <= blockSize <= 255 && |padded| % blockSize == 0
    ensures Unpadding(padded, blockSize) == Ok(data) <==> IsPadded(padded, data, blockSize)
    ensures Unpadding(padded, blockSize) == Err(DataEmpty) <==> padded == []
  {
    if IsPadded(padded, data, blockSize) {
      var n := |padded| - |data|;
      assert padded[|padded| - 1] == n;
      assert padded[..|padded| - n] == data;
    }
  }

  /** Decryption succeeds with data exactly when the text decodes to a 16-byte IV and one or
      more whole blocks that decrypt, under that IV, to data with its padding. */
  method DecryptCBC(c: Primitives, text: string) returns (r: Result<Bytes, CryptoError>)
    ensures r == if c.decode(text).None? then Err(Base64Invalid) else Open(c, c.decode(text).value)
    ensures Sound(c) ==> forall data: Bytes ::
              r == Ok(data) <==>
                && c.decode(text).Some?
                && var e := c.decode(text).value;
                && |e| >= 32 && |e| % 16 == 0 && IsPadded(c.decrypt(e[..16], e[16..]), data, 16)
  {
    if Sound(c) && c.decode(text).Some? { OpensIffPadded(c, c.decode(text).value); }
    hide Sound;
    var data := c.decode(text);
    if data.None? { return Err(Base64Invalid); }
    var encrypted := data.value;
    if |encrypted| < AES_BLOCK { return Err(CiphertextTooShort); }
    var iv, payload := encrypted[..AES_BLOCK], encrypted[AES_BLOCK..];
    if |payload| == 0 || |payload| % AES_BLOCK != 0 { return Err(CiphertextNotMultipleOfBlock); }
    r := Pkcs7Unpadding(c.decrypt(iv, payload), AES_BLOCK);
  }

  lemma OpensIffPadded(c: Primitives, e: Bytes)
    requires Sound(c)
    ensures forall data: Bytes :: Open(c, e) == Ok(data) <==>
              |e| >= 32 && |e| % 16 == 0 && IsPadded(c.decrypt(e[..16], e[16..]), data, 16)
  {
    if |e| >= 32 && |e| % 16 == 0 {
      var plain := c.decrypt(e[..16], e[16..]);
      DecryptKeepsLength(c, e[..16], e[16..]);
      forall data: Bytes ensures Open(c, e) == Ok(data) <==> IsPadded(plain, data, 16) {
        UnpaddingIffPadded(plain, data, 16);
      }
    }
  }

  lemma DecryptKeepsLength(c: Primitives, iv: Bytes, d: Bytes)
    requires Sound(c) && |iv| == AES_BLOCK && |d| % AES_BLOCK == 0
    ensures |c.decrypt(iv, d)| == |d|
  {
  }

  /** Decrypting what was encrypted gives the plaintext back, for every plaintext and IV. */
  lemma OpenInvertsSeal(c: Primitives, plaintext: Bytes, iv: Bytes)
    requires Sound(c) && |iv| == AES_BLOCK
    ensures Open(c, Seal(c, plaintext, iv)) == Ok(plaintext)
    ensures c.decode(c.encode(Seal(c, plaintext, iv))) == Some(Seal(c, plaintext, iv))
  {
    var padded := Padding(plaintext, AES_BLOCK);
    PaddedLength(|plaintext|, AES_BLOCK);
    EncryptKeepsLength(c, iv, padded);
    var e := Seal(c, plaintext, iv);
    assert e[..AES_BLOCK] == iv && e[AES_BLOCK..] == c.encrypt(iv, padded);
    RoundTrip(plaintext, AES_BLOCK);
  }

  /** Bytes are accepted exactly when they are the envelope of some plaintext under some IV;
      both are then determined by the bytes. */
  lemma OpensIffSealed(c: Primitives, e: Bytes)
    requires Sound(c)
    ensures Open(c, e).Ok? <==>
              exists p: Bytes, iv: Bytes :: |iv| == AES_BLOCK && Seal(c, p, iv) == e
    ensures forall p: Bytes, iv: Bytes | |iv| == AES_BLOCK && Seal(c, p, iv) == e ::
              Open(c, e) == Ok(p) && iv == e[..AES_BLOCK]
  {
    forall p: Bytes, iv: Bytes | |iv| == AES_BLOCK && Seal(c, p, iv) == e
      ensures Open(c, e) == Ok(p) && |e| >= AES_BLOCK && iv == e[..AES_BLOCK]
    {
      OpenInvertsSeal(c, p, iv);
    }
    var o := Open(c, e);
    if o.Ok? {
      var iv, payload := e[..AES_BLOCK], e[AES_BLOCK..];
      var plain := c.decrypt(iv, payload);
      AcceptedIffPadding(plain, AES_BLOCK);
      assert Padding(o.value, AES_BLOCK) == plain;
      assert Seal(c, o.value, iv) == e;
    }
  }
}

/**
 * Media encryption: PKCS #7 padding (section 6.3 of RFC 5652) and the ECB mode
 * (section 6.1 of NIST SP 800-38A) over a block cipher that is any family of
 * bijections on 16-byte blocks.
 */
module MediaCipher {

  newtype Byte = x: int | 0 <= x < 0x100

  type Bytes = seq<Byte>

  const BLOCK := 16

  datatype Result = Success(bytes: Bytes) | KeyMustBe16Bytes

  /** The block cipher: what it does to a block under a key, and the inverse. */
  datatype Cipher = Cipher(encrypt: (Bytes, Bytes) -> Bytes, decrypt: (Bytes, Bytes) -> Bytes)

  ghost predicate IsBlockCipher(c: Cipher) {
    forall key: Bytes, b: Bytes :: |key| == BLOCK && |b| == BLOCK ==>
      && |c.encrypt(key, b)| == BLOCK && |c.decrypt(key, b)| == BLOCK
      && c.decrypt(key, c.encrypt(key, b)) == b
      && c.encrypt(key, c.decrypt(key, b)) == b
  }

  function Repeat(x: Byte, n: nat): (r: Bytes)
    ensures |r| == n && forall i :: 0 <= i < n ==> r[i] == x
  {
    seq(n, _ => x)
  }

  function PadLength(n: nat): (p: nat)
    ensures 1 <= p <= BLOCK && (n + p) % BLOCK == 0
  {
    BLOCK - n % BLOCK
  }

  function Pad(data: Bytes): (padded: Bytes)
    ensures |padded| % BLOCK == 0 && |data| < |padded| <= |data| + BLOCK
  {
    data + Repeat(PadLength(|data|) as Byte, PadLength(|data|))
  }

  /** Only the last byte is looked at; a value that is no padding length leaves the bytes as they are. */
  function Unpad(data: Bytes): Bytes {
    if data == [] then data
    else
      var n := data[|data| - 1] as nat;
      if 0 < n <= BLOCK && n <= |data| then data[..|data| - n] else data
  }

  /** `chunks(16)`, with a short last chunk filled up with zeros. */
  function Blocks(data: Bytes): (blocks: seq<Bytes>)
    ensures forall i :: 0 <= i < |blocks| ==> |blocks[i]| == BLOCK
  {
    if data == [] then []
    else if |data| < BLOCK then [data + Repeat(0, BLOCK - |data|)]
    else [data[..BLOCK]] + Blocks(data[BLOCK..])
  }

  function Joined(blocks: seq<Bytes>): Bytes {
    if blocks == [] then [] else blocks[0] + Joined(blocks[1..])
  }

  function Each(f: (Bytes, Bytes) -> Bytes, key: Bytes, blocks: seq<Bytes>): (r: seq<Bytes>)
    ensures |r| == |blocks| && forall i :: 0 <= i < |blocks| ==> r[i] == f(key, blocks[i])
  {
    seq(|blocks|, i requires 0 <= i < |blocks| => f(key, blocks[i]))
  }

  /** The mode of operation: cut into blocks, replace each by its image, join. */
  function Ecb(f: (Bytes, Bytes) -> Bytes, key: Bytes, data: Bytes): Bytes {
    Joined(Each(f, key, Blocks(data)))
  }

  function Encrypted(c: Cipher, key: Bytes, data: Bytes): Result {
    if |key| != BLOCK then KeyMustBe16Bytes
    else Success(Ecb(c.encrypt, key, Pad(data)))
  }

  function Decrypted(c: Cipher, key: Bytes, data: Bytes): Result {
    if |key| != BLOCK then KeyMustBe16Bytes
    else Success(Unpad(Ecb(c.decrypt, key, data)))
  }

  /** Replace every block by its image, in place. */
  method TransformInPlace(blocks: array<Bytes>, f: (Bytes, Bytes) -> Bytes, key: Bytes)
    modifies blocks
    ensures blocks[..] == Each(f, key, old(blocks[..]))
  {
    for i := 0 to blocks.Length
      invariant forall j :: 0 <= j < i ==> blocks[j] == f(key, old(blocks[j]))
      invariant forall j :: i <= j < blocks.Length ==> blocks[j] == old(blocks[j])
    {
      blocks[i] := f(key, blocks[i]);
    }
  }

  method ToArray(blocks: seq<Bytes>) returns (a: array<Bytes>)
    ensures fresh(a) && a[..] == blocks
  {
    a := new Bytes[|blocks|](i requires 0 <= i < |blocks| => blocks[i]);
  }

  method EncryptEcb(c: Cipher, key: Bytes, data: Bytes) returns (r: Result)
    requires IsBlockCipher(c)
    ensures r == Encrypted(c, key, data)
    ensures r.Success? ==> |r.bytes| % BLOCK == 0 && |data| < |r.bytes| <= |data| + BLOCK
    ensures r.Success? ==> Decrypted(c, key, r.bytes) == Success(data)
  {
    if |key| != BLOCK {
      return KeyMustBe16Bytes;
    }
    var padLen := BLOCK - |data| % BLOCK;
    var padded := data + Repeat(padLen as Byte, padLen);
    assert padded == Pad(data);
    var blocks := ToArray(Blocks(padded));
    TransformInPlace(blocks, c.encrypt, key);
    r := Success(Joined(blocks[..]));
    EncryptionIsSound(c, key, data);
  }

  lemma EncryptionIsSound(c: Cipher, key: Bytes, data: Bytes)
    requires IsBlockCipher(c) && |key| == BLOCK
    ensures var r := Encrypted(c, key, data);
      && |r.bytes| % BLOCK == 0 && |data| < |r.bytes| <= |data| + BLOCK
      && Decrypted(c, key, r.bytes) == Success(data)
  {
    CiphertextLength(c, key, data);
    DecryptOfEncrypt(c, key, data);
  }

  method DecryptEcb(c: Cipher, key: Bytes, data: Bytes) returns (r: Result)
    requires IsBlockCipher(c)
    ensures r == Decrypted(c, key, data)
  {
    if |key| != BLOCK {
      return KeyMustBe16Bytes;
    }
    var blocks := ToArray(Blocks(data));
    TransformInPlace(blocks, c.decrypt, key);
    assert blocks[..] == Each(c.decrypt, key, Blocks(data));
    var result := Joined(blocks[..]);
    PlainIsWholeBlocks(c, key, data);
    UnpadCases(result);
    hide Unpad, Ecb, Joined, Blocks, Each;
    if |result| > 0 {
      var padLen := result[|result| - 1] as nat;
      if padLen > 0 && padLen <= BLOCK {
        var len := |result| - padLen;
        result := result[..len];
      }
    }
    r := Success(result);
  }

  /** What decryption joins is empty or at least one block long. */
  lemma PlainIsWholeBlocks(c: Cipher, key: Bytes, data: Bytes)
    requires IsBlockCipher(c) && |key| == BLOCK
    ensures var plain := Joined(Each(c.decrypt, key, Blocks(data)));
      plain == Ecb(c.decrypt, key, data) && (plain == [] || |plain| >= BLOCK)
  {
    WholeBlocks(Each(c.decrypt, key, Blocks(data)));
  }

  lemma UnpadCases(plain: Bytes)
    ensures plain == [] ==> Unpad(plain) == plain
    ensures |plain| >= BLOCK ==>
      var n := plain[|plain| - 1] as nat;
      Unpad(plain) == if 0 < n <= BLOCK then plain[..|plain| - n] else plain
  {
  }

  // ----- Cutting into blocks and joining them -----

  lemma {:induction false} JoinedLength(blocks: seq<Bytes>)
    requires forall i :: 0 <= i < |blocks| ==> |blocks[i]| == BLOCK
    ensures |Joined(blocks)| == BLOCK * |blocks|
  {
    if blocks == [] {
    } else {
      JoinedLength(blocks[1..]);
    }
  }

  lemma WholeBlocks(blocks: seq<Bytes>)
    requires forall i :: 0 <= i < |blocks| ==> |blocks[i]| == BLOCK
    ensures Joined(blocks) != [] ==> |Joined(blocks)| >= BLOCK
  {
  }

  lemma {:induction false} JoinedBlocks(data: Bytes)
    requires |data| % BLOCK == 0
    ensures Joined(Blocks(data)) == data
  {
    if data == [] {
    } else {
      JoinedBlocks(data[BLOCK..]);
      assert data == data[..BLOCK] + data[BLOCK..];
    }
  }

  lemma {:induction false} BlocksOfJoined(blocks: seq<Bytes>)
    requires forall i :: 0 <= i < |blocks| ==> |blocks[i]| == BLOCK
    ensures Blocks(Joined(blocks)) == blocks
  {
    if blocks == [] {
    } else {
      var all := Joined(blocks);
      BlocksOfJoined(blocks[1..]);
      assert all[..BLOCK] == blocks[0] && all[BLOCK..] == Joined(blocks[1..]);
    }
  }

  lemma {:induction false} JoinedAt(blocks: seq<Bytes>, i: nat)
    requires i < |blocks| && forall j :: 0 <= j < |blocks| ==> |blocks[j]| == BLOCK
    ensures BLOCK * i + BLOCK <= |Joined(blocks)|
    ensures Joined(blocks)[BLOCK * i..BLOCK * i + BLOCK] == blocks[i]
  {
    JoinedLength(blocks);
    if i == 0 {
    } else {
      JoinedAt(blocks[1..], i - 1);
      var all, rest := Joined(blocks), Joined(blocks[1..]);
      assert all == blocks[0] + rest;
      assert all[BLOCK * i..BLOCK * i + BLOCK] == rest[BLOCK * (i - 1)..BLOCK * (i - 1) + BLOCK];
    }
  }

  /** `g` undoes `f` on blocks under `key`. */
  ghost predicate Undoes(f: (Bytes, Bytes) -> Bytes, g: (Bytes, Bytes) -> Bytes, key: Bytes) {
    forall b: Bytes :: |b| == BLOCK ==> |f(key, b)| == BLOCK && g(key, f(key, b)) == b
  }

  /** On whole blocks the mode keeps the length. */
  lemma EcbLength(f: (Bytes, Bytes) -> Bytes, key: Bytes, data: Bytes)
    requires |data| % BLOCK == 0 && forall b: Bytes :: |b| == BLOCK ==> |f(key, b)| == BLOCK
    ensures |Ecb(f, key, data)| == |data| == BLOCK * |Blocks(data)|
  {
    JoinedBlocks(data);
    JoinedLength(Blocks(data));
    JoinedLength(Each(f, key, Blocks(data)));
  }

  /** On whole blocks the mode with the inverse cipher undoes the mode. */
  lemma EcbInverse(f: (Bytes, Bytes) -> Bytes, g: (Bytes, Bytes) -> Bytes, key: Bytes, data: Bytes)
    requires |data| % BLOCK == 0 && Undoes(f, g, key)
    ensures Ecb(g, key, Ecb(f, key, data)) == data
  {
    BlocksOfJoined(Each(f, key, Blocks(data)));
    assert Each(g, key, Each(f, key, Blocks(data))) == Blocks(data);
    JoinedBlocks(data);
  }

  // ----- The laws -----

  /** The padding is one to sixteen bytes that all hold their own number, up to the next multiple of 16. */
  lemma PaddingIs(data: Bytes)
    ensures var padded, p := Pad(data), |Pad(data)| - |data|;
      && |padded| % 16 == 0 && 1 <= p <= 16
      && padded[..|data|] == data
      && forall i :: |data| <= i < |padded| ==> padded[i] as int == p
  {
  }

  lemma UnpadOfPad(data: Bytes)
    ensures Unpad(Pad(data)) == data
  {
  }

  /** Both directions refuse a key exactly when it is not 16 bytes long. */
  lemma KeysAre16Bytes(c: Cipher, key: Bytes, data: Bytes)
    ensures Encrypted(c, key, data).KeyMustBe16Bytes? <==> |key| != 16
    ensures Decrypted(c, key, data).KeyMustBe16Bytes? <==> |key| != 16
  {
  }

  /** Decrypting an encryption gives the data back, for every 16-byte key and all data. */
  lemma DecryptOfEncrypt(c: Cipher, key: Bytes, data: Bytes)
    requires IsBlockCipher(c) && |key| == BLOCK
    ensures Encrypted(c, key, data).Success?
    ensures Decrypted(c, key, Encrypted(c, key, data).bytes) == Success(data)
  {
    EcbInverse(c.encrypt, c.decrypt, key, Pad(data));
    UnpadOfPad(data);
  }

  /** The ciphertext length is the next multiple of 16 strictly above the data length. */
  lemma CiphertextLength(c: Cipher, key: Bytes, data: Bytes)
    requires IsBlockCipher(c) && |key| == 16
    ensures var n := |Encrypted(c, key, data).bytes|;
      n % 16 == 0 && |data| < n <= |data| + 16
  {
    EcbLength(c.encrypt, key, Pad(data));
  }

  /** Every ciphertext block depends on the key and on the padded block in its own place only. */
  lemma BlockwiseEncryption(c: Cipher, key: Bytes, data: Bytes, i: nat)
    requires IsBlockCipher(c) && |key| == BLOCK && BLOCK * i < |Pad(data)|
    ensures BLOCK * i + BLOCK <= |Pad(data)| == |Encrypted(c, key, data).bytes|
    ensures Encrypted(c, key, data).bytes[BLOCK * i..BLOCK * i + BLOCK]
         == c.encrypt(key, Pad(data)[BLOCK * i..BLOCK * i + BLOCK])
  {
    var blocks := Blocks(Pad(data));
    EcbLength(c.encrypt, key, Pad(data));
    JoinedBlocks(Pad(data));
    JoinedAt(blocks, i);
    JoinedAt(Each(c.encrypt, key, blocks), i);
  }

  /** The last byte is a padding length, and that many last bytes all hold it. */
  ghost predicate WellPadded(plain: Bytes) {
    plain != [] &&
    var n := plain[|plain| - 1] as nat;
    1 <= n <= BLOCK && n <= |plain| && forall i :: |plain| - n <= i < |plain| ==> plain[i] as nat == n
  }

  lemma PadOfUnpad(plain: Bytes)
    requires |plain| % BLOCK == 0
    ensures Pad(Unpad(plain)) == plain <==> WellPadded(plain)
  {
  }

  /**
   * Decryption accepts every input.  It loses nothing, so that encrypting again
   * restores the input, exactly when the input is a whole number of blocks and
   * the bytes under it end in proper padding.
   */
  lemma WhenDecryptionIsFaithful(c: Cipher, key: Bytes, data: Bytes)
    requires IsBlockCipher(c) && |key| == BLOCK
    ensures Encrypted(c, key, Decrypted(c, key, data).bytes) == Success(data) <==>
      |data| % BLOCK == 0 && WellPadded(Ecb(c.decrypt, key, data))
  {
    var plain := Ecb(c.decrypt, key, data);
    var again := Pad(Unpad(plain));
    EcbLength(c.encrypt, key, again);
    EcbInverse(c.encrypt, c.decrypt, key, again);
    if |data| % BLOCK == 0 {
      EcbLength(c.decrypt, key, data);
      EcbInverse(c.decrypt, c.encrypt, key, data);
      PadOfUnpad(plain);
    }
  }

  /** A single byte is no ciphertext, but decrypts like the block that it and 15 zeros make; encrypting does not give it back. */
  lemma OneByteExample(c: Cipher, key: Bytes, x: Byte)
    requires IsBlockCipher(c) && |key| == BLOCK
    ensures Decrypted(c, key, [x]) == Decrypted(c, key, [x] + Repeat(0, 15))
    ensures Encrypted(c, key, Decrypted(c, key, [x]).bytes) != Success([x])
  {
    var block := [x] + Repeat(0, 15);
    assert block[..BLOCK] == block && block[BLOCK..] == [];
    assert Blocks(block) == [block] + Blocks([]);
    assert Blocks([x]) == Blocks(block);
    WhenDecryptionIsFaithful(c, key, [x]);
  }
}

/**
  RSA_PAD of MTProto ("Presenting proof of work; server authentication"): 144 bytes of data
  are padded, reversed, hashed, encrypted under a temporary key and wrapped into one RSA block.
 */
module RsaPad {
  import opened Bin
  import opened BigEndian
  import opened Crypto

  const DATA_LIMIT := 144
  const PADDED := 192
  const HASHED := 224
  const TEMP_KEY := 32
  const RSA_LEN := 256

  datatype PublicKey = PublicKey(n: nat, e: nat)

  datatype PrivateKey = PrivateKey(n: nat, d: nat)

  /** A modulus that fits one 256-byte block, as every 2048-bit key has. */
  ghost predicate ValidPublic(k: PublicKey)
  {
    0 < k.n <= Pow256(RSA_LEN)
  }

  /** The private key undoes the public one on every number below the modulus. */
  ghost predicate KeyPair(pub: PublicKey, priv: PrivateKey)
  {
    && ValidPublic(pub) && priv.n == pub.n
    && forall m: nat :: m < pub.n ==> ModExp(ModExp(m, pub.e, pub.n), priv.d, pub.n) == m
  }

  // ---------------------------------------------------------------- the layout

  function HashedData(c: Primitives, padded: seq<Byte>, tempKey: seq<Byte>): seq<Byte>
  {
    Reversed(padded) + c.sha256(tempKey + padded)
  }

  function AesPart(c: Primitives, padded: seq<Byte>, tempKey: seq<Byte>): seq<Byte>
  {
    c.igeEncrypt(tempKey, Zeros(32), HashedData(c, padded, tempKey))
  }

  /** temp_key_xor + aes_encrypted. */
  function Block(c: Primitives, padded: seq<Byte>, tempKey: seq<Byte>): seq<Byte>
  {
    Xor(tempKey, c.sha256(AesPart(c, padded, tempKey))) + AesPart(c, padded, tempKey)
  }

  function RsaEncrypt(data: seq<Byte>, key: PublicKey): seq<Byte>
    requires key.n > 0
  {
    BE(RSA_LEN, ModExp(FromBE(data), key.e, key.n))
  }

  function RsaDecrypt(data: seq<Byte>, key: PrivateKey): Option<seq<Byte>>
    requires key.n > 0
  {
    FillBytes(RSA_LEN, ModExp(FromBE(data), key.d, key.n))
  }

  /** The data inside a decrypted block, if its hash matches. */
  function Open(c: Primitives, block: seq<Byte>): Option<seq<Byte>>
    requires |block| == RSA_LEN
  {
    var aes := block[TEMP_KEY..];
    var tempKey := Xor(block[..TEMP_KEY], c.sha256(aes));
    var plain := c.igeDecrypt(tempKey, Zeros(32), aes);
    if |plain| < PADDED then None
    else
      var padded := Reversed(plain[..PADDED]);
      if plain[PADDED..] == c.sha256(tempKey + padded) then Some(padded) else None
  }

  function Decode(c: Primitives, data: seq<Byte>, key: PrivateKey): Option<seq<Byte>>
    requires key.n > 0
  {
    match RsaDecrypt(data, key)
    case None => None
    case Some(block) => Open(c, block)
  }

  // ---------------------------------------------------------------- opening what was sealed

  lemma BlockLength(c: Primitives, padded: seq<Byte>, tempKey: seq<Byte>)
    requires Lawful(c) && |padded| == PADDED && |tempKey| == TEMP_KEY
    ensures |HashedData(c, padded, tempKey)| == HASHED == |AesPart(c, padded, tempKey)|
    ensures |Block(c, padded, tempKey)| == RSA_LEN
  {
    assert IgeInverse(c, tempKey, Zeros(32), HashedData(c, padded, tempKey));
  }

  lemma OpenBlock(c: Primitives, padded: seq<Byte>, tempKey: seq<Byte>)
    requires Lawful(c) && |padded| == PADDED && |tempKey| == TEMP_KEY
    ensures |Block(c, padded, tempKey)| == RSA_LEN
    ensures Open(c, Block(c, padded, tempKey)) == Some(padded)
  {
    BlockLength(c, padded, tempKey);
    var aes, block := AesPart(c, padded, tempKey), Block(c, padded, tempKey);
    var mask := c.sha256(aes);
    assert block[TEMP_KEY..] == aes && block[..TEMP_KEY] == Xor(tempKey, mask);
    XorInverse(tempKey, mask);
    var hashed := HashedData(c, padded, tempKey);
    assert IgeInverse(c, tempKey, Zeros(32), hashed);
    assert hashed[..PADDED] == Reversed(padded);
    assert hashed[PADDED..] == c.sha256(tempKey + padded);
    ReversedInverse(padded);
  }

  /** A block opens exactly when it was sealed under some temporary key, and then to what was sealed. */
  lemma OpenExact(c: Primitives, block: seq<Byte>, padded: seq<Byte>)
    requires Lawful(c) && |block| == RSA_LEN
    ensures Open(c, block) == Some(padded) <==>
            |padded| == PADDED && exists tempKey :: |tempKey| == TEMP_KEY && block == Block(c, padded, tempKey)
  {
    if Open(c, block) == Some(padded) {
      var aes := block[TEMP_KEY..];
      var mask := c.sha256(aes);
      var tempKey := Xor(block[..TEMP_KEY], mask);
      assert IgeInverse(c, tempKey, Zeros(32), aes);
      var plain := c.igeDecrypt(tempKey, Zeros(32), aes);
      ReversedInverse(plain[..PADDED]);
      assert plain == HashedData(c, padded, tempKey);
      XorInverse(block[..TEMP_KEY], mask);
      assert block == block[..TEMP_KEY] + aes;
      assert block == Block(c, padded, tempKey);
    }
    if |padded| == PADDED && exists tempKey :: |tempKey| == TEMP_KEY && block == Block(c, padded, tempKey) {
      var tempKey :| |tempKey| == TEMP_KEY && block == Block(c, padded, tempKey);
      OpenBlock(c, padded, tempKey);
    }
  }

  /** A block below the modulus comes back from RSA byte for byte, leading zeros included. */
  lemma RsaRoundTrip(block: seq<Byte>, pub: PublicKey, priv: PrivateKey)
    requires KeyPair(pub, priv) && |block| == RSA_LEN && FromBE(block) < pub.n
    ensures |RsaEncrypt(block, pub)| == RSA_LEN
    ensures RsaDecrypt(RsaEncrypt(block, pub), priv) == Some(block)
  {
    var m := FromBE(block);
    BEInverse(RSA_LEN, ModExp(m, pub.e, pub.n));
    FromBEInverse(block);
  }

  /** Whatever the padding and the temporary key, the server recovers the padded data. */
  lemma RoundTrip(c: Primitives, pub: PublicKey, priv: PrivateKey, padded: seq<Byte>, tempKey: seq<Byte>)
    requires Lawful(c) && KeyPair(pub, priv) && |padded| == PADDED && |tempKey| == TEMP_KEY
    requires FromBE(Block(c, padded, tempKey)) < pub.n
    ensures Decode(c, RsaEncrypt(Block(c, padded, tempKey), pub), priv) == Some(padded)
  {
    OpenBlock(c, padded, tempKey);
    RsaRoundTrip(Block(c, padded, tempKey), pub, priv);
  }

  // ---------------------------------------------------------------- the client

  /** The `k`-th temporary key a random stream offers. */
  function TempKey(random: seq<Byte>, k: nat): seq<Byte>
    requires TEMP_KEY * k + TEMP_KEY <= |random|
  {
    random[TEMP_KEY * k..TEMP_KEY * k + TEMP_KEY]
  }

  predicate Usable(c: Primitives, padded: seq<Byte>, random: seq<Byte>, k: nat, n: nat)
  {
    TEMP_KEY * k + TEMP_KEY <= |random| && FromBE(Block(c, padded, TempKey(random, k))) < n
  }

  /** `k` is the first temporary key whose block is below the modulus. */
  ghost predicate FirstUsable(c: Primitives, padded: seq<Byte>, random: seq<Byte>, k: nat, n: nat)
  {
    Usable(c, padded, random, k, n) && forall j :: 0 <= j < k ==> !Usable(c, padded, random, j, n)
  }

  /** Data and padding fill 192 bytes; the rest of the stream supplies temporary keys. */
  ghost predicate Sealed(c: Primitives, data: seq<Byte>, key: PublicKey, random: seq<Byte>, r: seq<Byte>)
    requires key.n > 0
  {
    && |data| <= 144 && 192 - |data| <= |random|
    && SealedFrom(c, data + random[..192 - |data|], key, random[192 - |data|..], r)
  }

  ghost predicate SealedFrom(c: Primitives, padded: seq<Byte>, key: PublicKey, random: seq<Byte>, r: seq<Byte>)
    requires key.n > 0
  {
    exists k :: SealedWith(c, padded, key, random, k, r)
  }

  ghost predicate SealedWith(c: Primitives, padded: seq<Byte>, key: PublicKey, random: seq<Byte>, k: nat, r: seq<Byte>)
    requires key.n > 0
  {
    FirstUsable(c, padded, random, k, key.n) && r == RsaEncrypt(Block(c, padded, TempKey(random, k)), key)
  }

  /** What the retries return for a stream: the encrypted block of the first temporary key that fits, and the rest. */
  function Retried(c: Primitives, padded: seq<Byte>, key: PublicKey, random: seq<Byte>): Option<(seq<Byte>, seq<Byte>)>
    requires key.n > 0
  {
    if |random| < TEMP_KEY then None
    else
      var block := Block(c, padded, random[..TEMP_KEY]);
      if FromBE(block) < key.n then Some((RsaEncrypt(block, key), random[TEMP_KEY..]))
      else Retried(c, padded, key, random[TEMP_KEY..])
  }

  /** `RSAPad` as a function of the random stream: the sealed data and what is left of the stream. */
  function SealOf(c: Primitives, data: seq<Byte>, key: PublicKey, random: seq<Byte>): Option<(seq<Byte>, seq<Byte>)>
    requires key.n > 0
  {
    if |data| > DATA_LIMIT || |random| < PADDED - |data| then None
    else Retried(c, data + random[..PADDED - |data|], key, random[PADDED - |data|..])
  }

  method SealWithRetries(c: Primitives, padded: seq<Byte>, key: PublicKey, random: RandomSource)
    returns (r: Option<seq<Byte>>)
    requires Lawful(c) && ValidPublic(key) && |padded| == PADDED
    modifies random
    ensures r.Some? ==> SealedFrom(c, padded, key, old(random.data), r.value)
    ensures r.None? ==> forall k :: 0 <= k ==> !Usable(c, padded, old(random.data), k, key.n)
    ensures match Retried(c, padded, key, old(random.data))
            case Some((sealed, rest)) => r == Some(sealed) && random.data == rest
            case None => r.None?
  {
    var reversed := new Byte[PADDED](i requires 0 <= i < PADDED => padded[i]);
    assert reversed[..] == padded;
    ReverseBytes(reversed, 0, PADDED);
    assert reversed[..] == Reversed(padded);
    RetriedExact(c, padded, key, random.data);
    r := Retry(c, padded, reversed, key, random);
  }

  method Retry(c: Primitives, padded: seq<Byte>, reversed: array<Byte>, key: PublicKey, random: RandomSource)
    returns (r: Option<seq<Byte>>)
    requires key.n > 0 && reversed[..] == Reversed(padded)
    modifies random
    ensures match Retried(c, padded, key, old(random.data))
            case Some((sealed, rest)) => r == Some(sealed) && random.data == rest
            case None => r.None?
  {
    ghost var stream := random.data;
    while true
      invariant Retried(c, padded, key, stream) == Retried(c, padded, key, random.data)
      decreases |random.data|
    {
      var tempKey := random.ReadFull(TEMP_KEY);
      if tempKey.None? { return None; }
      r := TryTempKey(c, padded, reversed, key, tempKey.value);
      if r.Some? { return; }
    }
  }

  /** The retries find exactly the first temporary key that fits. */
  lemma {:induction false} RetriedExact(c: Primitives, padded: seq<Byte>, key: PublicKey, random: seq<Byte>)
    requires key.n > 0
    ensures match Retried(c, padded, key, random)
            case Some((sealed, _)) => SealedFrom(c, padded, key, random, sealed)
            case None => forall k :: 0 <= k ==> !Usable(c, padded, random, k, key.n)
    decreases |random|
  {
    if |random| >= TEMP_KEY {
      assert TempKey(random, 0) == random[..TEMP_KEY];
      if Usable(c, padded, random, 0, key.n) {
        assert SealedWith(c, padded, key, random, 0, RsaEncrypt(Block(c, padded, random[..TEMP_KEY]), key));
      } else {
        RetriedExact(c, padded, key, random[TEMP_KEY..]);
        var later := Retried(c, padded, key, random[TEMP_KEY..]);
        if later.Some? {
          LaterSealed(c, padded, key, random, later.value.0);
        } else {
          forall k: nat ensures !Usable(c, padded, random, k, key.n) {
            if k > 0 { LaterUsable(c, padded, random, k - 1, key.n); }
          }
        }
      }
    }
  }

  lemma LaterUsable(c: Primitives, padded: seq<Byte>, random: seq<Byte>, k: nat, n: nat)
    requires |random| >= TEMP_KEY
    ensures Usable(c, padded, random[TEMP_KEY..], k, n) <==> Usable(c, padded, random, k + 1, n)
    ensures Usable(c, padded, random, k + 1, n) ==> TempKey(random[TEMP_KEY..], k) == TempKey(random, k + 1)
  {
    if TEMP_KEY * (k + 1) + TEMP_KEY <= |random| {
      assert random[TEMP_KEY..][TEMP_KEY * k..TEMP_KEY * k + TEMP_KEY] ==
             random[TEMP_KEY * (k + 1)..TEMP_KEY * (k + 1) + TEMP_KEY];
    }
  }

  /** If the first key does not fit, the first later one that fits is the first of all. */
  lemma LaterSealed(c: Primitives, padded: seq<Byte>, key: PublicKey, random: seq<Byte>, r: seq<Byte>)
    requires key.n > 0 && |random| >= TEMP_KEY && !Usable(c, padded, random, 0, key.n)
    requires SealedFrom(c, padded, key, random[TEMP_KEY..], r)
    ensures SealedFrom(c, padded, key, random, r)
  {
    var k: nat :| SealedWith(c, padded, key, random[TEMP_KEY..], k, r);
    LaterUsable(c, padded, random, k, key.n);
    forall j: nat | j < k + 1 ensures !Usable(c, padded, random, j, key.n) {
      if j > 0 { LaterUsable(c, padded, random, j - 1, key.n); }
    }
    assert SealedWith(c, padded, key, random, k + 1, r);
  }

  /** One pass of the retry loop: the encrypted block, if its value is below the modulus. */
  method TryTempKey(c: Primitives, padded: seq<Byte>, reversed: array<Byte>, key: PublicKey, tempKey: seq<Byte>)
    returns (r: Option<seq<Byte>>)
    requires key.n > 0 && reversed[..] == Reversed(padded)
    ensures r == if FromBE(Block(c, padded, tempKey)) < key.n then Some(RsaEncrypt(Block(c, padded, tempKey), key))
            else None
  {
    var dataWithHash := reversed[..] + c.sha256(tempKey + padded);
    var aesEncrypted := c.igeEncrypt(tempKey, Zeros(32), dataWithHash);
    var tempKeyXor := Xor(tempKey, c.sha256(aesEncrypted));
    var keyAesEncrypted := tempKeyXor + aesEncrypted;
    r := if FromBE(keyAesEncrypted) < key.n then Some(RsaEncrypt(keyAesEncrypted, key)) else None;
  }

  /** The function of the stream and the specification by the first fitting key say the same. */
  lemma SealOfExact(c: Primitives, data: seq<Byte>, key: PublicKey, random: seq<Byte>)
    requires key.n > 0
    ensures match SealOf(c, data, key, random)
            case Some((sealed, _)) => Sealed(c, data, key, random, sealed)
            case None => forall x :: !Sealed(c, data, key, random, x)
  {
    if |data| <= DATA_LIMIT && PADDED - |data| <= |random| {
      RetriedExact(c, data + random[..PADDED - |data|], key, random[PADDED - |data|..]);
    }
  }

  /** `RSAPad`: refuses long data, and otherwise fails only when the random source runs dry. */
  method Seal(c: Primitives, data: seq<Byte>, key: PublicKey, random: RandomSource) returns (r: Option<seq<Byte>>)
    requires Lawful(c) && ValidPublic(key)
    modifies random
    ensures r.Some? ==> Sealed(c, data, key, old(random.data), r.value)
    ensures r.None? ==> forall x :: !Sealed(c, data, key, old(random.data), x)
    ensures match SealOf(c, data, key, old(random.data))
            case Some((sealed, rest)) => r == Some(sealed) && random.data == rest
            case None => r.None?
  {
    if |data| > DATA_LIMIT { return None; }
    var padding := random.ReadFull(PADDED - |data|);
    if padding.None? { return None; }
    r := SealWithRetries(c, data + padding.value, key, random);
  }

  /** Everything the client seals, the server opens to 192 bytes that begin with the data. */
  lemma ServerReads(c: Primitives, pub: PublicKey, priv: PrivateKey, data: seq<Byte>, random: seq<Byte>,
                    sealed: seq<Byte>)
    requires Lawful(c) && KeyPair(pub, priv) && Sealed(c, data, pub, random, sealed)
    ensures Decode(c, sealed, priv) == Some(data + random[..PADDED - |data|])
    ensures |data + random[..PADDED - |data|]| == PADDED && |sealed| == RSA_LEN
  {
    SealedOpens(c, pub, priv, data + random[..PADDED - |data|], random[PADDED - |data|..], sealed);
  }

  lemma SealedOpens(c: Primitives, pub: PublicKey, priv: PrivateKey, padded: seq<Byte>, random: seq<Byte>,
                    sealed: seq<Byte>)
    requires Lawful(c) && KeyPair(pub, priv) && |padded| == PADDED && SealedFrom(c, padded, pub, random, sealed)
    ensures Decode(c, sealed, priv) == Some(padded) && |sealed| == RSA_LEN
  {
    var k :| SealedWith(c, padded, pub, random, k, sealed);
    RoundTrip(c, pub, priv, padded, TempKey(random, k));
  }

  // ---------------------------------------------------------------- the server

  /** `DecodeRSAPad`, reversing the plaintext in place. */
  method DecodePad(c: Primitives, data: seq<Byte>, key: PrivateKey) returns (r: Option<seq<Byte>>)
    requires Lawful(c) && key.n > 0
    ensures r == Decode(c, data, key)
  {
    var encrypted := FillBytes(RSA_LEN, ModExp(FromBE(data), key.d, key.n));
    if encrypted.None? { return None; }
    var tempKeyXor, aesEncrypted := encrypted.value[..TEMP_KEY], encrypted.value[TEMP_KEY..];
    var tempKey := Xor(tempKeyXor, c.sha256(aesEncrypted));
    var plain := c.igeDecrypt(tempKey, Zeros(32), aesEncrypted);
    assert IgeInverse(c, tempKey, Zeros(32), aesEncrypted);
    var dataWithHash := new Byte[HASHED](i requires 0 <= i < HASHED => plain[i]);
    assert dataWithHash[..] == plain;
    ReverseBytes(dataWithHash, 0, PADDED);
    assert dataWithHash[..PADDED] == Reversed(plain[..PADDED]);
    assert dataWithHash[PADDED..] == plain[PADDED..];
    if dataWithHash[PADDED..] != c.sha256(tempKey + dataWithHash[..PADDED]) { return None; }
    return Some(dataWithHash[..PADDED]);
  }
}

/**
  Hash-prefixed answers of the key exchange: SHA1 of the data, the data, and up to 15 random
  bytes, encrypted with keys derived from the two nonces.
 */
module HashedAnswer {
  import opened Bin
  import opened BigEndian
  import opened Crypto

  const SHA1_LEN := 20

  function PaddedLen16(l: nat): (n: nat)
    ensures l <= n < l + 16 && n % 16 == 0
  {
    var n := 16 * (l / 16);
    if n < l then n + 16 else n
  }

  /** Number of random bytes appended to `l` bytes of data. */
  function PadLen(l: nat): nat
  {
    PaddedLen16(l + SHA1_LEN) - (l + SHA1_LEN)
  }

  function Hashed(c: Primitives, data: seq<Byte>, padding: seq<Byte>): seq<Byte>
  {
    c.sha1(data) + data + padding
  }

  method DataWithHash(c: Primitives, data: seq<Byte>, random: RandomSource) returns (r: Option<seq<Byte>>)
    requires Lawful(c)
    modifies random
    ensures r.Some? <==> PadLen(|data|) <= |old(random.data)|
    ensures r.Some? ==> r.value == Hashed(c, data, old(random.data)[..PadLen(|data|)]) && |r.value| % 16 == 0
    ensures random.data == Drop(old(random.data), PadLen(|data|))
  {
    var n := PaddedLen16(|data| + SHA1_LEN);
    var buf := new Byte[n](_ => 0);
    var h := c.sha1(data);
    Copy(buf, 0, h);
    Copy(buf, SHA1_LEN, data);
    var padding := random.ReadFull(n - (SHA1_LEN + |data|));
    if padding.None? { return None; }
    Copy(buf, SHA1_LEN + |data|, padding.value);
    ThreeParts(buf[..], SHA1_LEN, SHA1_LEN + |data|);
    return Some(buf[..]);
  }

  lemma ThreeParts(s: seq<Byte>, i: nat, j: nat)
    requires i <= j <= |s|
    ensures s == s[..i] + s[i..j] + s[j..]
  {
  }

  /** `copy(dst[at:], src)` with enough room. */
  method Copy(dst: array<Byte>, at: nat, src: seq<Byte>)
    requires at + |src| <= dst.Length
    modifies dst
    ensures dst[..at] == old(dst[..at]) && dst[at..at + |src|] == src && dst[at + |src|..] == old(dst[at + |src|..])
  {
    for i := 0 to |src|
      invariant dst[..at] == old(dst[..at])
      invariant forall j :: 0 <= j < i ==> dst[at + j] == src[j]
      invariant forall j :: at + i <= j < dst.Length ==> dst[j] == old(dst[j])
    {
      dst[at + i] := src[i];
    }
  }

  // ---------------------------------------------------------------- guessing the data

  /** Dropping `i` trailing bytes leaves data with the stored hash. */
  predicate Matches(c: Primitives, s: seq<Byte>, i: nat)
  {
    SHA1_LEN + i <= |s| && c.sha1(s[SHA1_LEN..|s| - i]) == s[..SHA1_LEN]
  }

  /** The longest candidate that matches wins. */
  ghost predicate Guessed(c: Primitives, s: seq<Byte>, i: nat)
  {
    i < 16 && |s| > SHA1_LEN && Matches(c, s, i) && forall j :: 0 <= j < i ==> !Matches(c, s, j)
  }

  method Guess(c: Primitives, s: seq<Byte>) returns (r: Option<seq<Byte>>)
    ensures r.Some? ==> exists i: nat :: Guessed(c, s, i) && r.value == s[SHA1_LEN..|s| - i]
    ensures r.None? ==> forall i: nat :: !Guessed(c, s, i)
  {
    if |s| <= SHA1_LEN { return None; }
    for i := 0 to 16
      invariant forall j :: 0 <= j < i ==> !Matches(c, s, j)
    {
      if |s| - i < SHA1_LEN { return None; }
      var data := s[SHA1_LEN..|s| - i];
      if c.sha1(data) == s[..SHA1_LEN] {
        assert Guessed(c, s, i);
        return Some(data);
      }
    }
    return None;
  }

  /** Padding shorter than all of it makes the same digest. */
  ghost predicate Collides(c: Primitives, data: seq<Byte>, padding: seq<Byte>, n: nat)
  {
    0 < n <= |padding| && c.sha1(data + padding[..n]) == c.sha1(data)
  }

  /**
    Something is always found, it extends the data by some of the padding and has the same
    digest; it is the data itself exactly when no extension collides with it.
   */
  lemma GuessInverts(c: Primitives, data: seq<Byte>, padding: seq<Byte>, i: nat)
    requires Lawful(c) && |padding| < 16 && Guessed(c, Hashed(c, data, padding), i)
    ensures var s := Hashed(c, data, padding);
            && i <= |padding| && s[SHA1_LEN..|s| - i] == data + padding[..|padding| - i]
            && (s[SHA1_LEN..|s| - i] == data <==> forall n: nat :: !Collides(c, data, padding, n))
  {
    var s := Hashed(c, data, padding);
    Candidate(c, data, padding, |padding|);
    assert padding[..0] == [] && data + [] == data;
    assert Matches(c, s, |padding|);
    Candidate(c, data, padding, i);
    if i == |padding| {
      forall n: nat ensures !Collides(c, data, padding, n) {
        if 0 < n <= |padding| {
          Candidate(c, data, padding, |padding| - n);
          assert !Matches(c, s, |padding| - n);
        }
      }
    } else {
      assert Collides(c, data, padding, |padding| - i);
      assert |data + padding[..|padding| - i]| > |data|;
    }
  }

  lemma Candidate(c: Primitives, data: seq<Byte>, padding: seq<Byte>, i: nat)
    requires Lawful(c) && i <= |padding|
    ensures var s := Hashed(c, data, padding);
            && s[..SHA1_LEN] == c.sha1(data) && SHA1_LEN + i <= |s|
            && s[SHA1_LEN..|s| - i] == data + padding[..|padding| - i]
            && (Matches(c, s, i) <==> c.sha1(data + padding[..|padding| - i]) == c.sha1(data))
  {
    var s := Hashed(c, data, padding);
    assert s == c.sha1(data) + (data + padding);
    assert s[SHA1_LEN..] == data + padding;
    assert s[SHA1_LEN..|s| - i] == s[SHA1_LEN..][..|data| + |padding| - i];
  }

  /** The guess always succeeds on what was produced with fewer than 16 bytes of padding. */
  lemma GuessSucceeds(c: Primitives, data: seq<Byte>, padding: seq<Byte>)
    requires Lawful(c) && |padding| < 16 && |data| + |padding| > 0
    ensures exists i: nat :: Guessed(c, Hashed(c, data, padding), i)
  {
    var s := Hashed(c, data, padding);
    Candidate(c, data, padding, |padding|);
    assert padding[..0] == [] && data + [] == data;
    FirstMatch(c, s, |padding|);
  }

  lemma {:induction false} FirstMatch(c: Primitives, s: seq<Byte>, i: nat)
    requires i < 16 && |s| > SHA1_LEN && Matches(c, s, i)
    ensures exists k: nat :: Guessed(c, s, k)
  {
    if exists j :: 0 <= j < i && Matches(c, s, j) {
      var j :| 0 <= j < i && Matches(c, s, j);
      FirstMatch(c, s, j);
    } else {
      assert Guessed(c, s, i);
    }
  }

  // ---------------------------------------------------------------- encrypted answers

  predicate AesKey(key: seq<Byte>)
  {
    |key| in {16, 24, 32}
  }

  function Encrypted(c: Primitives, answer: seq<Byte>, padding: seq<Byte>, key: seq<Byte>, iv: seq<Byte>): seq<Byte>
  {
    c.igeEncrypt(key, iv, Hashed(c, answer, padding))
  }

  method EncryptAnswer(c: Primitives, random: RandomSource, answer: seq<Byte>, key: seq<Byte>, iv: seq<Byte>)
    returns (r: Option<seq<Byte>>)
    requires Lawful(c)
    modifies random
    ensures r.Some? <==> AesKey(key) && PadLen(|answer|) <= |old(random.data)|
    ensures r.Some? ==> r.value == Encrypted(c, answer, old(random.data)[..PadLen(|answer|)], key, iv)
    ensures AesKey(key) ==> random.data == Drop(old(random.data), PadLen(|answer|))
  {
    if |key| !in {16, 24, 32} { return None; }
    var hashed := DataWithHash(c, answer, random);
    if hashed.None? { return None; }
    return Some(c.igeEncrypt(key, iv, hashed.value));
  }

  /** What decryption returns: a guessed answer, or nothing at all when no candidate matches. */
  ghost predicate DecryptsTo(c: Primitives, data: seq<Byte>, key: seq<Byte>, iv: seq<Byte>, r: Option<seq<Byte>>)
  {
    if !AesKey(key) || |data| % 16 != 0 then r.None?
    else
      var s := c.igeDecrypt(key, iv, data);
      && r.Some?
      && (if exists i: nat :: Guessed(c, s, i)
          then exists i: nat :: Guessed(c, s, i) && r.value == s[SHA1_LEN..|s| - i]
          else r.value == [])
  }

  /** A failed guess is not reported here: it yields empty data. */
  method DecryptAnswer(c: Primitives, data: seq<Byte>, key: seq<Byte>, iv: seq<Byte>) returns (r: Option<seq<Byte>>)
    ensures r == Decrypted(c, data, key, iv)
  {
    if |key| !in {16, 24, 32} || |data| % 16 != 0 { return None; }
    var dataWithHash := c.igeDecrypt(key, iv, data);
    var guess := Guess(c, dataWithHash);
    r := Some(if guess.Some? then guess.value else []);
    DecryptedUnique(c, data, key, iv, r);
  }

  /** The one value decryption can return. */
  ghost function Decrypted(c: Primitives, data: seq<Byte>, key: seq<Byte>, iv: seq<Byte>): (r: Option<seq<Byte>>)
    ensures DecryptsTo(c, data, key, iv, r)
  {
    if !AesKey(key) || |data| % 16 != 0 then None
    else
      var s := c.igeDecrypt(key, iv, data);
      if exists i: nat :: Guessed(c, s, i) then
        var i: nat :| Guessed(c, s, i);
        Some(s[SHA1_LEN..|s| - i])
      else Some([])
  }

  lemma DecryptedUnique(c: Primitives, data: seq<Byte>, key: seq<Byte>, iv: seq<Byte>, r: Option<seq<Byte>>)
    requires DecryptsTo(c, data, key, iv, r)
    ensures r == Decrypted(c, data, key, iv)
  {
  }

  /** Decrypting an encrypted answer gives the answer followed by some of its padding. */
  lemma AnswerRoundTrip(c: Primitives, answer: seq<Byte>, padding: seq<Byte>, key: seq<Byte>, iv: seq<Byte>)
    requires Lawful(c) && |key| == 32 && |iv| == 32 && |padding| == PadLen(|answer|)
    ensures var r := Decrypted(c, Encrypted(c, answer, padding, key, iv), key, iv);
            && r.Some? && answer <= r.value
            && (r == Some(answer) <==> forall n: nat :: !Collides(c, answer, padding, n))
  {
    var s := Hashed(c, answer, padding);
    assert |s| % 16 == 0;
    assert IgeInverse(c, key, iv, s);
    GuessSucceeds(c, answer, padding);
    var r := Decrypted(c, Encrypted(c, answer, padding, key, iv), key, iv);
    var i: nat :| Guessed(c, s, i) && r.value == s[SHA1_LEN..|s| - i];
    GuessInverts(c, answer, padding, i);
  }

  // ---------------------------------------------------------------- values derived from nonces and keys

  /** Temporary AES key and IV; the nonces travel as numbers and are put back to full width first. */
  function TempAesKeys(c: Primitives, newNonce: nat, serverNonce: nat): (r: (seq<Byte>, seq<Byte>))
    requires Lawful(c)
    ensures |r.0| == 32 && |r.1| == 32
  {
    var nn, sn := BE(32, newNonce), BE(16, serverNonce);
    (c.sha1(nn + sn) + c.sha1(sn + nn)[..12], c.sha1(sn + nn)[12..] + c.sha1(nn + nn) + nn[..4])
  }

  /**
    With both nonces at full width the key is SHA1(new + server) and the first twelve bytes of SHA1(server + new), the
    IV the other eight, SHA1(new + new) and the first four bytes of the new nonce.
   */
  lemma TempKeysLaidOut(c: Primitives, newNonce: seq<Byte>, serverNonce: seq<Byte>)
    returns (front: seq<Byte>, back: seq<Byte>, start: seq<Byte>, rest: seq<Byte>)
    requires Lawful(c) && |newNonce| == 32 && |serverNonce| == 16
    ensures c.sha1(serverNonce + newNonce) == front + back && |front| == 12 && |back| == 8
    ensures newNonce == start + rest && |start| == 4
    ensures TempAesKeys(c, FromBE(newNonce), FromBE(serverNonce)) ==
            (c.sha1(newNonce + serverNonce) + front, back + c.sha1(newNonce + newNonce) + start)
  {
    NoncesKeepTheirWidth(newNonce, serverNonce);
    var mixed := c.sha1(serverNonce + newNonce);
    front, back, start, rest := mixed[..12], mixed[12..], newNonce[..4], newNonce[4..];
  }

  /** Leading zeros of the nonces are not lost on the way through numbers. */
  lemma NoncesKeepTheirWidth(newNonce: seq<Byte>, serverNonce: seq<Byte>)
    requires |newNonce| == 32 && |serverNonce| == 16
    ensures BE(32, FromBE(newNonce)) == newNonce && BE(16, FromBE(serverNonce)) == serverNonce
  {
    FromBEInverse(newNonce);
    FromBEInverse(serverNonce);
  }

  function ServerSalt(newNonce: seq<Byte>, serverNonce: seq<Byte>): int
    requires |newNonce| == 32 && |serverNonce| == 16
  {
    Signed(8, FromLE(Xor(newNonce[..8], serverNonce[..8])))
  }

  /** The salt's eight bytes on the wire are the xor of the nonces' first eight, so they give the new nonce back. */
  lemma SaltBytes(newNonce: seq<Byte>, serverNonce: seq<Byte>)
    requires |newNonce| == 32 && |serverNonce| == 16
    ensures LE(8, ServerSalt(newNonce, serverNonce)) == Xor(newNonce[..8], serverNonce[..8])
    ensures Xor(LE(8, ServerSalt(newNonce, serverNonce)), serverNonce[..8]) == newNonce[..8]
  {
    SignedBytes(Xor(newNonce[..8], serverNonce[..8]));
    XorInverse(newNonce[..8], serverNonce[..8]);
  }

  /** Reading bytes as a signed number and writing it again gives the same bytes. */
  lemma SignedBytes(x: seq<Byte>)
    ensures LE(|x|, Signed(|x|, FromLE(x))) == x
  {
    var n, p := |x|, Pow256(|x|);
    var v := Signed(n, FromLE(x));
    LEInverse(n, v);
    FromLEInverse(x);
    FromLEInverse(LE(n, v));
    ModUnique(v, p, if v < 0 then -1 else 0, FromLE(x));
  }

  function NonceHash1(c: Primitives, newNonce: seq<Byte>, key: seq<Byte>): (r: seq<Byte>)
    requires Lawful(c)
    ensures |r| == 16
  {
    c.sha1(newNonce + [1] + c.sha1(key)[..8])[4..20]
  }

  function KeyId(c: Primitives, key: seq<Byte>): (r: seq<Byte>)
    requires Lawful(c)
    ensures |r| == 8
  {
    c.sha1(key)[12..]
  }
  /** The last eight bytes of the key's digest, by which peers name the key. */
  ghost predicate Identifies(c: Primitives, key: seq<Byte>, id: seq<Byte>)
  {
    exists front :: |front| == 12 && c.sha1(key) == front + id
  }

  lemma KeyIdIdentifies(c: Primitives, key: seq<Byte>)
    requires Lawful(c)
    ensures Identifies(c, key, KeyId(c, key))
  {
    assert c.sha1(key) == c.sha1(key)[..12] + KeyId(c, key);
  }

  /**
    The proof of the key hashes the new nonce, a one and the first eight bytes of the key's
    digest, and drops four bytes.
   */
  lemma NonceHashLaidOut(c: Primitives, newNonce: seq<Byte>, key: seq<Byte>)
    returns (front: seq<Byte>, rest: seq<Byte>, dropped: seq<Byte>)
    requires Lawful(c)
    ensures c.sha1(key) == front + rest && |front| == 8
    ensures c.sha1(newNonce + [1] + front) == dropped + NonceHash1(c, newNonce, key) && |dropped| == 4
  {
    front, rest := c.sha1(key)[..8], c.sha1(key)[8..];
    var hash := c.sha1(newNonce + [1] + front);
    dropped := hash[..4];
    assert hash == hash[..4] + hash[4..20];
  }
}

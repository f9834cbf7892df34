/**
  MTProto 2.0 message envelopes: a header and the message, random padding to whole blocks,
  a message key over the padded plaintext, and AES-IGE under keys derived from it.
 */
module MessageCipher {
  import opened Bin
  import opened Crypto

  const KEY_LEN := 256
  const MAX_PADDING := 1024

  datatype Side = Client | Server

  datatype AuthKey = AuthKey(value: seq<Byte>, id: seq<Byte>)

  predicate ValidKey(k: AuthKey)
  {
    |k.value| == KEY_LEN && |k.id| == 8
  }

  function DecryptSide(s: Side): Side
  {
    match s
    case Client => Server
    case Server => Client
  }

  // ---------------------------------------------------------------- keys

  function Offset(s: Side): nat
  {
    match s
    case Client => 0
    case Server => 8
  }

  function MessageKey(c: Primitives, authKey: seq<Byte>, padded: seq<Byte>, s: Side): seq<Byte>
    requires Lawful(c) && |authKey| == KEY_LEN
  {
    var x := Offset(s);
    c.sha256(authKey[88 + x..120 + x] + padded)[8..24]
  }

  function Mixed(a: seq<Byte>, b: seq<Byte>): (r: seq<Byte>)
    requires |a| == 32 && |b| == 32
    ensures |r| == 32
  {
    a[..8] + b[8..24] + a[24..]
  }

  function Keys(c: Primitives, authKey: seq<Byte>, msgKey: seq<Byte>, s: Side): (r: (seq<Byte>, seq<Byte>))
    requires Lawful(c) && |authKey| == KEY_LEN
    ensures |r.0| == 32 && |r.1| == 32
  {
    var x := Offset(s);
    var a := c.sha256(msgKey + authKey[x..x + 36]);
    var b := c.sha256(authKey[40 + x..76 + x] + msgKey);
    (Mixed(a, b), Mixed(b, a))
  }

  // ---------------------------------------------------------------- the inner message

  datatype MessageData = MessageData(salt: int, session: int, messageID: int, seqNo: int, length: int,
                                     withPadding: seq<Byte>)

  predicate ValidHeader(m: MessageData)
  {
    InRange(8, m.salt) && InRange(8, m.session) && InRange(8, m.messageID) && InRange(4, m.seqNo)
  }

  function Header(m: MessageData): seq<Byte>
  {
    LE(8, m.salt) + (LE(8, m.session) + (LE(8, m.messageID) + (LE(4, m.seqNo) + LE(4, m.length))))
  }

  function EncodeData(m: MessageData): seq<Byte>
  {
    Header(m) + m.withPadding
  }

  /** The header, then everything that is left; a length beyond it is an error. */
  function DecodeData(s: seq<Byte>): Option<MessageData>
  {
    match ReadSigned(8, s)
    case Err(_) => None
    case Ok(salt, s1) =>
      match ReadSigned(8, s1)
      case Err(_) => None
      case Ok(session, s2) =>
        match ReadSigned(8, s2)
        case Err(_) => None
        case Ok(messageID, s3) =>
          match ReadSigned(4, s3)
          case Err(_) => None
          case Ok(seqNo, s4) =>
            match ReadSigned(4, s4)
            case Err(_) => None
            case Ok(length, s5) =>
              if length > |s5| then None else Some(MessageData(salt, session, messageID, seqNo, length, s5))
  }

  /** The message without its padding. */
  function Data(m: MessageData): seq<Byte>
    requires 0 <= m.length <= |m.withPadding|
  {
    m.withPadding[..m.length]
  }

  lemma HeaderRest(m: MessageData, x: seq<Byte>)
    ensures Header(m) + x ==
            LE(8, m.salt) + (LE(8, m.session) + (LE(8, m.messageID) + (LE(4, m.seqNo) + (LE(4, m.length) + x))))
  {
    Regroup(LE(8, m.salt), LE(8, m.session) + (LE(8, m.messageID) + (LE(4, m.seqNo) + LE(4, m.length))), x);
    Regroup(LE(8, m.session), LE(8, m.messageID) + (LE(4, m.seqNo) + LE(4, m.length)), x);
    Regroup(LE(8, m.messageID), LE(4, m.seqNo) + LE(4, m.length), x);
    Regroup(LE(4, m.seqNo), LE(4, m.length), x);
  }

  /** An encoded message decodes to itself exactly when its length field does not exceed what follows. */
  lemma DataRoundTrip(m: MessageData)
    requires ValidHeader(m) && InRange(4, m.length)
    ensures DecodeData(EncodeData(m)) == if m.length > |m.withPadding| then None else Some(m)
  {
    var x := m.withPadding;
    HeaderRest(m, x);
    var s4 := LE(4, m.length) + x;
    var s3 := LE(4, m.seqNo) + s4;
    var s2 := LE(8, m.messageID) + s3;
    var s1 := LE(8, m.session) + s2;
    SignedRoundTrip(8, m.salt, s1);
    SignedRoundTrip(8, m.session, s2);
    SignedRoundTrip(8, m.messageID, s3);
    SignedRoundTrip(4, m.seqNo, s4);
    SignedRoundTrip(4, m.length, x);
  }

  /**
    `EncodeWithoutCopy`: the length is written last, over a placeholder; without a message the
    given fields are used.
   */
  method EncodeWithoutCopy(m: MessageData, message: Option<seq<Byte>>, b: Buffer)
    modifies b
    ensures b.Buf == old(b.Buf) + EncodeData(WithMessage(m, message))
  {
    ghost var before := b.Buf;
    b.PutWord(8, m.salt);
    b.PutWord(8, m.session);
    b.PutWord(8, m.messageID);
    b.PutWord(4, m.seqNo);
    ghost var head := LE(8, m.salt) + (LE(8, m.session) + (LE(8, m.messageID) + LE(4, m.seqNo)));
    Joined(before, m);
    if message.None? {
      b.PutWord(4, m.length);
      b.Put(m.withPadding);
      Assembled(before, head, LE(4, m.length), m.withPadding, m);
    } else {
      var lengthOffset := |b.Buf|;
      b.PutWord(4, 0);
      var originalLength := |b.Buf|;
      b.Put(message.value);
      var msgLen := |b.Buf| - originalLength;
      b.Buf := Patched(b.Buf, lengthOffset, LE(4, msgLen));
      PatchedPlaceholder(before + head, LE(4, 0), message.value, LE(4, msgLen));
      Assembled(before, head, LE(4, msgLen), message.value, WithMessage(m, message));
    }
  }

  function WithMessage(m: MessageData, message: Option<seq<Byte>>): MessageData
  {
    match message
    case None => m
    case Some(bytes) => m.(length := |bytes|, withPadding := bytes)
  }

  /** Writing through an empty slice at `offset` replaces the bytes there. */
  function Patched(s: seq<Byte>, offset: nat, bytes: seq<Byte>): seq<Byte>
    requires offset + |bytes| <= |s|
  {
    s[..offset] + bytes + s[offset + |bytes|..]
  }

  lemma PatchedPlaceholder(a: seq<Byte>, old_: seq<Byte>, x: seq<Byte>, new_: seq<Byte>)
    requires |old_| == |new_|
    ensures Patched(a + old_ + x, |a|, new_) == a + new_ + x
  {
    assert (a + old_ + x)[..|a|] == a;
    assert (a + old_ + x)[|a| + |new_|..] == x;
  }

  lemma Joined(w: seq<Byte>, m: MessageData)
    ensures w + LE(8, m.salt) + LE(8, m.session) + LE(8, m.messageID) + LE(4, m.seqNo) ==
            w + (LE(8, m.salt) + (LE(8, m.session) + (LE(8, m.messageID) + LE(4, m.seqNo))))
  {
    var a, b, c, d := LE(8, m.salt), LE(8, m.session), LE(8, m.messageID), LE(4, m.seqNo);
    Regroup(w, a, b);
    Regroup(w, a + b, c);
    Regroup(w, a + b + c, d);
    Regroup(a, b, c);
    Regroup(a, b + c, d);
    Regroup(b, c, d);
  }

  lemma Assembled(w: seq<Byte>, head: seq<Byte>, length: seq<Byte>, x: seq<Byte>, m: MessageData)
    requires head == LE(8, m.salt) + (LE(8, m.session) + (LE(8, m.messageID) + LE(4, m.seqNo)))
    requires length == LE(4, m.length) && x == m.withPadding
    ensures w + head + length + x == w + EncodeData(m)
  {
    var a, b, c, d := LE(8, m.salt), LE(8, m.session), LE(8, m.messageID), LE(4, m.seqNo);
    Regroup(a, b + (c + d), length);
    Regroup(b, c + d, length);
    Regroup(c, d, length);
    assert head + length == Header(m);
    Regroup(w, head, length);
    Regroup(w, head + length, x);
  }

  // ---------------------------------------------------------------- padding

  function CountPadding(l: nat, random: Byte): (n: nat)
    ensures 12 <= n <= 267 && (l + n) % 16 == 0
  {
    var aligned := (16 - l % 16) % 16;
    (if aligned < 12 then aligned + 16 else aligned) + random % 16 * 16
  }

  /** Every alignment below 12 bytes costs one block more, and no shorter padding would do. */
  lemma PaddingIsLeast(l: nat, random: Byte, n: nat)
    requires n >= 12 && (l + n) % 16 == 0
    ensures CountPadding(l, random) - random % 16 * 16 <= n
  {
  }

  /** The random byte adds one of sixteen numbers of blocks. */
  lemma PaddingSteps(l: nat, random: Byte)
    ensures CountPadding(l, random) == CountPadding(l, 0) + 16 * (random % 16)
  {
  }

  // ---------------------------------------------------------------- the envelope

  function Sealed(c: Primitives, s: Side, k: AuthKey, padded: seq<Byte>): seq<Byte>
    requires Lawful(c) && ValidKey(k)
  {
    var msgKey := MessageKey(c, k.value, padded, s);
    var keys := Keys(c, k.value, msgKey, s);
    k.id + (msgKey + c.igeEncrypt(keys.0, keys.1, padded))
  }

  /** Rejects foreign keys, partial blocks, a wrong message key, and lengths or padding out of bounds. */
  function Decrypt(c: Primitives, s: Side, k: AuthKey, frame: seq<Byte>): Option<MessageData>
    requires Lawful(c) && ValidKey(k)
  {
    if |frame| < 24 || frame[..8] != k.id || (|frame| - 24) % 16 != 0 then None
    else
      var msgKey, encrypted := frame[8..24], frame[24..];
      var keys := Keys(c, k.value, msgKey, DecryptSide(s));
      var plain := c.igeDecrypt(keys.0, keys.1, encrypted);
      if MessageKey(c, k.value, plain, DecryptSide(s)) != msgKey then None
      else
        match DecodeData(plain)
        case None => None
        case Some(m) =>
          if m.length < 0 || m.length % 4 != 0 || |m.withPadding| - m.length > MAX_PADDING then None else Some(m)
  }

  /** A sealed plaintext is opened by the other side, up to the checks on its contents. */
  lemma OpenSealed(c: Primitives, s: Side, k: AuthKey, padded: seq<Byte>)
    requires Lawful(c) && ValidKey(k) && |padded| % 16 == 0
    ensures Decrypt(c, DecryptSide(s), k, Sealed(c, s, k, padded)) ==
            match DecodeData(padded)
            case None => None
            case Some(m) =>
              if m.length < 0 || m.length % 4 != 0 || |m.withPadding| - m.length > MAX_PADDING then None else Some(m)
  {
    var frame := Sealed(c, s, k, padded);
    var msgKey := MessageKey(c, k.value, padded, s);
    var keys := Keys(c, k.value, msgKey, s);
    assert IgeInverse(c, keys.0, keys.1, padded);
    assert frame[..8] == k.id && frame[8..24] == msgKey;
    assert frame[24..] == c.igeEncrypt(keys.0, keys.1, padded);
  }

  /**
    The frame is a plaintext of whole blocks sealed by the other side, with an acceptable length
    and at most 1024 bytes of padding.
   */
  ghost predicate SealedByPeer(c: Primitives, s: Side, k: AuthKey, frame: seq<Byte>, padded: seq<Byte>, m: MessageData)
    requires Lawful(c) && ValidKey(k)
  {
    && |padded| % 16 == 0 && frame == Sealed(c, if s.Client? then Server else Client, k, padded)
    && DecodeData(padded) == Some(m) && m.length >= 0 && m.length % 4 == 0 && |m.withPadding| <= m.length + 1024
  }

  /** A side accepts exactly the frames that the other side sealed with its key, with acceptable contents. */
  lemma DecryptExact(c: Primitives, s: Side, k: AuthKey, frame: seq<Byte>, m: MessageData)
    requires Lawful(c) && ValidKey(k)
    ensures Decrypt(c, s, k, frame) == Some(m) <==> exists padded :: SealedByPeer(c, s, k, frame, padded, m)
  {
    if Decrypt(c, s, k, frame).Some? {
      var msgKey, encrypted := frame[8..24], frame[24..];
      var keys := Keys(c, k.value, msgKey, DecryptSide(s));
      var plain := c.igeDecrypt(keys.0, keys.1, encrypted);
      assert IgeInverse(c, keys.0, keys.1, encrypted);
      assert frame == frame[..8] + (msgKey + encrypted);
      assert frame == Sealed(c, DecryptSide(s), k, plain);
      if Decrypt(c, s, k, frame) == Some(m) { assert SealedByPeer(c, s, k, frame, plain, m); }
    }
    if padded :| SealedByPeer(c, s, k, frame, padded, m) {
      OpenSealed(c, DecryptSide(s), k, padded);
    }
  }

  /** Eight, sixteen and eight bytes of a digest. */
  datatype Parts = Parts(front: seq<Byte>, middle: seq<Byte>, back: seq<Byte>)

  ghost predicate SplitAs(digest: seq<Byte>, p: Parts)
  {
    digest == p.front + p.middle + p.back && |p.front| == 8 && |p.middle| == 16 && |p.back| == 8
  }

  /** `part` are the `n` bytes of the key at `offset`. */
  ghost predicate PartOfKey(key: seq<Byte>, offset: nat, n: nat, part: seq<Byte>)
  {
    exists before, after :: key == before + part + after && |before| == offset && |part| == n
  }

  /**
    A sealed frame is the key identifier, the message key and the ciphertext. The message key is the
    middle of the digest of 32 bytes of the key and the padded plaintext; AES key and IV interleave the
    digests of the message key with 36 other bytes on either side. The server's bytes start eight later.
   */
  lemma SealedLaidOut(c: Primitives, s: Side, k: AuthKey, padded: seq<Byte>)
    returns (large: Parts, a: Parts, b: Parts, x: seq<Byte>, y: seq<Byte>, z: seq<Byte>)
    requires Lawful(c) && ValidKey(k)
    ensures var o := if s.Client? then 0 else 8;
            PartOfKey(k.value, 88 + o, 32, x) && PartOfKey(k.value, o, 36, y) && PartOfKey(k.value, 40 + o, 36, z)
    ensures SplitAs(c.sha256(x + padded), large) && SplitAs(c.sha256(large.middle + y), a) &&
            SplitAs(c.sha256(z + large.middle), b)
    ensures Sealed(c, s, k, padded) ==
            k.id + (large.middle + c.igeEncrypt(a.front + b.middle + a.back, b.front + a.middle + b.back, padded))
  {
    var o := if s.Client? then 0 else 8;
    x, y, z := k.value[88 + o..120 + o], k.value[o..o + 36], k.value[40 + o..76 + o];
    IsPart(k.value, 88 + o, 32);
    IsPart(k.value, o, 36);
    IsPart(k.value, 40 + o, 36);
    large := InParts(c.sha256(x + padded));
    a := InParts(c.sha256(large.middle + y));
    b := InParts(c.sha256(z + large.middle));
  }

  lemma IsPart(key: seq<Byte>, offset: nat, n: nat)
    requires offset + n <= |key|
    ensures PartOfKey(key, offset, n, key[offset..offset + n])
  {
    assert key == key[..offset] + key[offset..offset + n] + key[offset + n..];
  }

  lemma InParts(digest: seq<Byte>) returns (p: Parts)
    requires |digest| == 32
    ensures SplitAs(digest, p) && p == Parts(digest[..8], digest[8..24], digest[24..])
  {
    p := Parts(digest[..8], digest[8..24], digest[24..]);
  }

  /**
    For opposite sides with the same key: a message of whole words comes back with every
    header field, its exact length and its bytes, whatever the padding; any other length is
    refused by the receiver.
   */
  lemma DecryptInvertsEncrypt(c: Primitives, s: Side, k: AuthKey, m: MessageData, message: seq<Byte>, random: Byte,
                              padding: seq<Byte>)
    requires Lawful(c) && ValidKey(k) && ValidHeader(m) && InRange(4, |message|)
    requires |padding| == CountPadding(|EncodeData(WithMessage(m, Some(message)))|, random)
    ensures var r := Decrypt(c, DecryptSide(s), k,
                             Sealed(c, s, k, EncodeData(WithMessage(m, Some(message))) + padding));
            && (r.Some? <==> |message| % 4 == 0)
            && (r.Some? ==> r.value == m.(length := |message|, withPadding := message + padding) &&
                            Data(r.value) == message)
  {
    var plain := WithMessage(m, Some(message));
    var padded := plain.(withPadding := message + padding);
    Regroup(Header(plain), message, padding);
    assert EncodeData(plain) + padding == EncodeData(padded);
    assert |EncodeData(padded)| % 16 == 0;
    OpenSealed(c, s, k, EncodeData(padded));
    DataRoundTrip(padded);
  }

  /** `encryptMessage`: pads the plaintext in the buffer and encrypts it. */
  method EncryptMessage(c: Primitives, s: Side, k: AuthKey, b: Buffer, random: RandomSource)
    returns (ok: bool, msgKey: seq<Byte>, encrypted: seq<Byte>, ghost padding: seq<Byte>)
    requires Lawful(c) && ValidKey(k)
    modifies random, b
    ensures ok <==> |old(random.data)| > 0 && CountPadding(|old(b.Buf)|, old(random.data)[0]) < |old(random.data)|
    ensures ok ==>
      && padding == old(random.data)[1..1 + CountPadding(|old(b.Buf)|, old(random.data)[0])]
      && k.id + (msgKey + encrypted) == Sealed(c, s, k, old(b.Buf) + padding)
  {
    msgKey, encrypted, padding := [], [], [];
    var offset := |b.Buf|;
    var randByte := random.ReadFull(1);
    if randByte.None? { ok := false; return; }
    var bytes := random.ReadFull(CountPadding(offset, randByte.value[0]));
    if bytes.None? { ok := false; return; }
    padding := bytes.value;
    b.Put(bytes.value);
    msgKey := MessageKey(c, k.value, b.Buf, s);
    var keys := Keys(c, k.value, msgKey, s);
    encrypted := c.igeEncrypt(keys.0, keys.1, b.Buf);
    ok := true;
  }

  /** `Encrypt`: encodes the message, pads it with random bytes and seals it; it fails only when randomness runs out. */
  method Encrypt(c: Primitives, s: Side, k: AuthKey, m: MessageData, message: Option<seq<Byte>>, random: RandomSource,
                 b: Buffer)
    returns (ok: bool, ghost padding: seq<Byte>)
    requires Lawful(c) && ValidKey(k)
    modifies random, b
    ensures ok <==>
      |old(random.data)| > 0 && CountPadding(|EncodeData(WithMessage(m, message))|,
                                             old(random.data)[0]) < |old(random.data)|
    ensures ok ==>
      && padding == old(random.data)[1..1 + CountPadding(|EncodeData(WithMessage(m, message))|, old(random.data)[0])]
      && b.Buf == Sealed(c, s, k, EncodeData(WithMessage(m, message)) + padding)
  {
    b.Buf := [];
    EncodeWithoutCopy(m, message, b);
    assert b.Buf == EncodeData(WithMessage(m, message));
    var msgKey, encrypted;
    ok, msgKey, encrypted, padding := EncryptMessage(c, s, k, b, random);
    if ok { PutEncrypted(k.id, msgKey, encrypted, b); }
  }

  /** The buffer is reset and gets key identifier, message key and encrypted data. */
  method PutEncrypted(id: seq<Byte>, msgKey: seq<Byte>, encrypted: seq<Byte>, b: Buffer)
    modifies b
    ensures b.Buf == id + (msgKey + encrypted)
  {
    b.Buf := [];
    b.Put(id);
    b.Put(msgKey);
    b.Put(encrypted);
    Regroup(id, msgKey, encrypted);
  }

  /** `DecodeWithoutCopy`: consumes the header and keeps the rest of the buffer as padded data. */
  method DecodeWithoutCopy(b: Buffer) returns (r: Option<MessageData>)
    modifies b
    ensures r == DecodeData(old(b.Buf))
  {
    var salt := b.Int(8);
    if salt.None? { return None; }
    var session := b.Int(8);
    if session.None? { return None; }
    var messageID := b.Int(8);
    if messageID.None? { return None; }
    var seqNo := b.Int(4);
    if seqNo.None? { return None; }
    var length := b.Int(4);
    if length.None? || length.value > |b.Buf| { return None; }
    return Some(MessageData(salt.value, session.value, messageID.value, seqNo.value, length.value, b.Buf));
  }

  /** `DecryptFromBuffer`: the receiver's checks in their order. */
  method DecryptFromBuffer(c: Primitives, s: Side, k: AuthKey, b: Buffer) returns (r: Option<MessageData>)
    requires Lawful(c) && ValidKey(k)
    modifies b
    ensures r == Decrypt(c, s, k, old(b.Buf))
  {
    ghost var frame := b.Buf;
    var id := b.ConsumeN(8);
    if id.None? { return None; }
    var msgKey := b.ConsumeN(16);
    if msgKey.None? || k.id != id.value || |b.Buf| % 16 != 0 { return None; }
    assert msgKey.value == frame[8..24] && b.Buf == frame[24..];
    var keys := Keys(c, k.value, msgKey.value, DecryptSide(s));
    var plain := c.igeDecrypt(keys.0, keys.1, b.Buf);
    if MessageKey(c, k.value, plain, DecryptSide(s)) != msgKey.value { return None; }
    var inner := new Buffer(plain);
    var m := DecodeWithoutCopy(inner);
    if m.None? { return None; }
    var n := m.value.length;
    if n < 0 || n % 4 != 0 || |m.value.withPadding| - n > MAX_PADDING { return None; }
    return m;
  }
}

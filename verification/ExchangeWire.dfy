/**
  Messages of the key exchange on the wire: TL constructors made of fixed fields, and the
  unencrypted envelope (zero key id, message id, length, data) around them.
 */
module ExchangeWire {
  import opened Bin

  const LONGEST := 0x10_0000

  /** Field types the exchange uses: 32- and 64-bit integers, raw nonces, byte strings, vectors of longs. */
  datatype Kind = KInt | KLong | KRaw(n: nat) | KBytes | KLongs

  datatype Val = VInt(v: int) | VLong(v: int) | VRaw(b: seq<Byte>) | VBytes(b: seq<Byte>) | VLongs(vs: seq<int>)

  datatype Shape = Shape(id: nat, fields: seq<Kind>)

  const REQ_PQ := Shape(0x60469778, [KRaw(16)])
  const REQ_PQ_MULTI := Shape(0xbe7e8ef1, [KRaw(16)])
  const RES_PQ := Shape(0x05162463, [KRaw(16), KRaw(16), KBytes, KLongs])
  const PQ_INNER := Shape(0x83c95aec, [KBytes, KBytes, KBytes, KRaw(16), KRaw(16), KRaw(32)])
  const PQ_INNER_DC := Shape(0xa9f55f95, [KBytes, KBytes, KBytes, KRaw(16), KRaw(16), KRaw(32), KInt])
  const PQ_INNER_TEMP_DC := Shape(0x56fddf88, [KBytes, KBytes, KBytes, KRaw(16), KRaw(16), KRaw(32), KInt, KInt])
  const REQ_DH := Shape(0xd712e4be, [KRaw(16), KRaw(16), KBytes, KBytes, KLong, KBytes])
  const DH_FAIL := Shape(0x79cb045d, [KRaw(16), KRaw(16), KRaw(16)])
  const DH_OK := Shape(0xd0e8075c, [KRaw(16), KRaw(16), KBytes])
  const SERVER_INNER := Shape(0xb5890dba, [KRaw(16), KRaw(16), KInt, KBytes, KBytes, KInt])
  const CLIENT_INNER := Shape(0x6643b654, [KRaw(16), KRaw(16), KLong, KBytes])
  const SET_DH := Shape(0xf5045f1f, [KRaw(16), KRaw(16), KBytes])
  const GEN_OK := Shape(0x3bcbf734, [KRaw(16), KRaw(16), KRaw(16)])
  const GEN_RETRY := Shape(0x46dc1fb9, [KRaw(16), KRaw(16), KRaw(16)])
  const GEN_FAIL := Shape(0xa69dae02, [KRaw(16), KRaw(16), KRaw(16)])

  // ---------------------------------------------------------------- fields

  predicate Typed(k: Kind, v: Val)
  {
    match k
    case KInt => v.VInt?
    case KLong => v.VLong?
    case KRaw(n) => v.VRaw? && |v.b| == n
    case KBytes => v.VBytes?
    case KLongs => v.VLongs?
  }

  /** The value has its type and fits its representation. */
  predicate Fits(k: Kind, v: Val)
  {
    && Typed(k, v)
    && (v.VInt? ==> InRange(4, v.v))
    && (v.VLong? ==> InRange(8, v.v))
    && (v.VRaw? ==> |v.b| <= LONGEST)
    && (v.VBytes? ==> |v.b| <= MAX_LONG_STRING)
    && (v.VLongs? ==> |v.vs| <= LONGEST && forall i :: 0 <= i < |v.vs| ==> InRange(8, v.vs[i]))
  }

  function LongsBytes(vs: seq<int>): (r: seq<Byte>)
    ensures |r| == 8 * |vs|
  {
    if vs == [] then [] else LE(8, vs[0]) + LongsBytes(vs[1..])
  }

  function EncVal(v: Val): seq<Byte>
  {
    match v
    case VInt(i) => LE(4, i)
    case VLong(i) => LE(8, i)
    case VRaw(b) => b
    case VBytes(b) => EncodeBytes(b)
    case VLongs(vs) => LE(4, TYPE_VECTOR) + LE(4, |vs|) + LongsBytes(vs)
  }

  function ReadLongs(n: nat, s: seq<Byte>): (r: Read<seq<int>>)
  {
    if n == 0 then Ok([], s)
    else
      match ReadSigned(8, s)
      case Err(rest) => Err(rest)
      case Ok(v, rest) =>
        match ReadLongs(n - 1, rest)
        case Err(rest') => Err(rest')
        case Ok(vs, rest') => Ok([v] + vs, rest')
  }

  function DecVal(k: Kind, s: seq<Byte>): (r: Read<Val>)
    ensures r.Ok? ==> Typed(k, r.value)
  {
    match k
    case KInt => (match ReadSigned(4, s) case Ok(v, rest) => Ok(VInt(v), rest) case Err(rest) => Err(rest))
    case KLong => (match ReadSigned(8, s) case Ok(v, rest) => Ok(VLong(v), rest) case Err(rest) => Err(rest))
    case KRaw(n) => (match ReadRaw(n, s) case Ok(v, rest) => Ok(VRaw(v), rest) case Err(rest) => Err(rest))
    case KBytes => (match ReadBytes(s) case Ok(v, rest) => Ok(VBytes(v), rest) case Err(rest) => Err(rest))
    case KLongs =>
      match ReadVectorHeader(s)
      case Err(rest) => Err(rest)
      case Ok(n, rest) =>
        match ReadLongs(n, rest)
        case Ok(vs, rest') => Ok(VLongs(vs), rest')
        case Err(rest') => Err(rest')
  }

  lemma {:induction false} LongsRoundTrip(vs: seq<int>, rest: seq<Byte>)
    requires forall i :: 0 <= i < |vs| ==> InRange(8, vs[i])
    ensures ReadLongs(|vs|, LongsBytes(vs) + rest) == Ok(vs, rest)
  {
    if vs == [] {
      assert [] + rest == rest;
    } else {
      var more := LongsBytes(vs[1..]) + rest;
      assert LongsBytes(vs) + rest == LE(8, vs[0]) + more;
      SignedRoundTrip(8, vs[0], more);
      LongsRoundTrip(vs[1..], rest);
      assert vs == [vs[0]] + vs[1..];
    }
  }

  lemma ValRoundTrip(k: Kind, v: Val, rest: seq<Byte>)
    requires Fits(k, v)
    ensures DecVal(k, EncVal(v) + rest) == Ok(v, rest)
  {
    match v {
      case VInt(i) => SignedRoundTrip(4, i, rest);
      case VLong(i) => SignedRoundTrip(8, i, rest);
      case VRaw(b) => RawRoundTrip(b, rest);
      case VBytes(b) => BytesRoundTrip(b, rest);
      case VLongs(vs) =>
        var more := LongsBytes(vs) + rest;
        assert EncVal(v) + rest == LE(4, TYPE_VECTOR) + LE(4, |vs|) + more;
        VectorHeaderRoundTrip(|vs|, more);
        LongsRoundTrip(vs, rest);
    }
  }

  lemma ValLength(k: Kind, v: Val)
    requires Fits(k, v)
    ensures |EncVal(v)| <= 0x100_0010
  {
    if v.VBytes? {
      BytesAligned(v.b);
    }
  }

  // ---------------------------------------------------------------- messages

  predicate FitsAll(ks: seq<Kind>, vs: seq<Val>)
  {
    |ks| == |vs| && forall i :: 0 <= i < |ks| ==> Fits(ks[i], vs[i])
  }

  predicate TypedAll(ks: seq<Kind>, vs: seq<Val>)
  {
    |ks| == |vs| && forall i :: 0 <= i < |ks| ==> Typed(ks[i], vs[i])
  }

  function EncVals(vs: seq<Val>): seq<Byte>
  {
    if vs == [] then [] else EncVal(vs[0]) + EncVals(vs[1..])
  }

  function DecVals(ks: seq<Kind>, s: seq<Byte>): (r: Read<seq<Val>>)
    ensures r.Ok? ==> TypedAll(ks, r.value)
  {
    if ks == [] then Ok([], s)
    else
      match DecVal(ks[0], s)
      case Err(rest) => Err(rest)
      case Ok(v, rest) =>
        match DecVals(ks[1..], rest)
        case Err(rest') => Err(rest')
        case Ok(vs, rest') => Ok([v] + vs, rest')
  }

  function EncMsg(shape: Shape, vs: seq<Val>): seq<Byte>
  {
    LE(4, shape.id) + EncVals(vs)
  }

  /** Decoding reads the identifier and the fields and ignores what follows. */
  function DecMsg(shape: Shape, s: seq<Byte>): (r: Option<seq<Val>>)
    ensures r.Some? ==> TypedAll(shape.fields, r.value)
  {
    match ReadId(shape.id, s)
    case Err(_) => None
    case Ok(_, rest) => Value(DecVals(shape.fields, rest))
  }

  function PeekId(s: seq<Byte>): Option<nat>
  {
    Value(ReadWord(4, s))
  }

  lemma {:induction false} SplitVals(vs: seq<Val>, rest: seq<Byte>)
    requires vs != []
    ensures EncVals(vs) + rest == EncVal(vs[0]) + (EncVals(vs[1..]) + rest)
    ensures vs == [vs[0]] + vs[1..]
  {
    Regroup(EncVal(vs[0]), EncVals(vs[1..]), rest);
  }

  lemma {:induction false} ValsRoundTrip(ks: seq<Kind>, vs: seq<Val>, rest: seq<Byte>)
    requires FitsAll(ks, vs)
    ensures DecVals(ks, EncVals(vs) + rest) == Ok(vs, rest)
  {
    if vs == [] {
      assert [] + rest == rest;
    } else {
      var more := EncVals(vs[1..]) + rest;
      SplitVals(vs, rest);
      ValRoundTrip(ks[0], vs[0], more);
      ValsRoundTrip(ks[1..], vs[1..], rest);
    }
  }

  lemma {:induction false} ValsLength(ks: seq<Kind>, vs: seq<Val>)
    requires FitsAll(ks, vs)
    ensures |EncVals(vs)| <= 0x100_0010 * |vs|
  {
    if vs != [] {
      ValLength(ks[0], vs[0]);
      ValsLength(ks[1..], vs[1..]);
    }
  }

  lemma MsgRoundTrip(shape: Shape, vs: seq<Val>, rest: seq<Byte>)
    requires shape.id < 0x1_0000_0000 && FitsAll(shape.fields, vs)
    ensures DecMsg(shape, EncMsg(shape, vs) + rest) == Some(vs)
    ensures PeekId(EncMsg(shape, vs) + rest) == Some(shape.id)
  {
    var more := EncVals(vs) + rest;
    assert EncMsg(shape, vs) + rest == LE(4, shape.id) + more;
    Pow256Values();
    IdRoundTrip(shape.id, more);
    WordRoundTrip(4, shape.id, more);
    ValsRoundTrip(shape.fields, vs, rest);
  }

  // ---------------------------------------------------------------- envelopes

  datatype Frame = Frame(msgID: int, data: seq<Byte>)

  function Envelope(f: Frame): seq<Byte>
  {
    LE(8, 0) + (LE(8, f.msgID) + (LE(4, |f.data|) + f.data))
  }

  function OpenEnvelope(s: seq<Byte>): Option<Frame>
  {
    match ReadSigned(8, s)
    case Err(_) => None
    case Ok(key, s1) =>
      if key != 0 then None
      else
        match ReadSigned(8, s1)
        case Err(_) => None
        case Ok(msgID, s2) =>
          match ReadSigned(4, s2)
          case Err(_) => None
          case Ok(n, s3) => if n < 0 || n > |s3| then None else Some(Frame(msgID, s3[..n]))
  }

  lemma EnvelopeRoundTrip(f: Frame)
    requires InRange(8, f.msgID) && InRange(4, |f.data|)
    ensures OpenEnvelope(Envelope(f)) == Some(f)
  {
    var s2 := LE(4, |f.data|) + f.data;
    var s1 := LE(8, f.msgID) + s2;
    SignedRoundTrip(8, 0, s1);
    SignedRoundTrip(8, f.msgID, s2);
    SignedRoundTrip(4, |f.data|, f.data);
    assert f.data[..|f.data|] == f.data;
  }

  /** Whatever opens as an envelope begins with the envelope of what it opens to. */
  lemma EnvelopeOpened(s: seq<Byte>) returns (f: Frame, rest: seq<Byte>)
    requires OpenEnvelope(s).Some?
    ensures OpenEnvelope(s) == Some(f) && InRange(8, f.msgID) && s == Envelope(f) + rest
  {
    f := OpenEnvelope(s).value;
    var key, s1 := s[..8], s[8..];
    var id, s2 := s1[..8], s1[8..];
    var n, s3 := s2[..4], s2[4..];
    rest := s3[|f.data|..];
    SignedBack(8, key);
    SignedBack(8, id);
    SignedBack(4, n);
    assert s3 == f.data + rest;
    EnvelopeParts(s, key, id, n, f.data, rest);
  }

  lemma EnvelopeParts(s: seq<Byte>, key: seq<Byte>, id: seq<Byte>, n: seq<Byte>, data: seq<Byte>, rest: seq<Byte>)
    requires |s| >= 20 && key == s[..8] && id == s[8..][..8] && n == s[8..][8..][..4] && s[8..][8..][4..] == data + rest
    ensures s == (key + (id + (n + data))) + rest
  {
    assert s == key + s[8..];
    assert s[8..] == id + s[8..][8..];
    assert s[8..][8..] == n + (data + rest);
    Regroup(n, data, rest);
    Regroup(id, n + data, rest);
    Regroup(key, id + (n + data), rest);
  }

  /** Bytes read as a signed number are the bytes of that number, which is in range. */
  lemma SignedBack(n: nat, s: seq<Byte>)
    requires |s| == n
    ensures InRange(n, Signed(n, FromLE(s))) && LE(n, Signed(n, FromLE(s))) == s
  {
    var u, p := FromLE(s), Pow256(n);
    FromLEInverse(s);
    var v := Signed(n, u);
    LEInverse(n, v);
    ModUnique(v, p, if 2 * u >= p then -1 else 0, u);
    FromLEInverse(LE(n, v));
  }

  lemma EnvelopeThen(f: Frame, rest: seq<Byte>)
    requires InRange(8, f.msgID) && InRange(4, |f.data|)
    ensures OpenEnvelope(Envelope(f) + rest) == Some(f)
  {
    var s3 := f.data + rest;
    Regroup(LE(8, 0), LE(8, f.msgID) + (LE(4, |f.data|) + f.data), rest);
    Regroup(LE(8, f.msgID), LE(4, |f.data|) + f.data, rest);
    Regroup(LE(4, |f.data|), f.data, rest);
    SignedRoundTrip(8, 0, LE(8, f.msgID) + (LE(4, |f.data|) + s3));
    SignedRoundTrip(8, f.msgID, LE(4, |f.data|) + s3);
    SignedRoundTrip(4, |f.data|, s3);
    assert s3[..|f.data|] == f.data;
  }

  /** A message of at most eight fields in an envelope is read back whole. */
  lemma FramedRoundTrip(msgID: int, shape: Shape, vs: seq<Val>)
    requires InRange(8, msgID) && shape.id < 0x1_0000_0000 && FitsAll(shape.fields, vs) && |vs| <= 8
    ensures OpenEnvelope(Envelope(Frame(msgID, EncMsg(shape, vs)))) == Some(Frame(msgID, EncMsg(shape, vs)))
    ensures DecMsg(shape, EncMsg(shape, vs)) == Some(vs) && PeekId(EncMsg(shape, vs)) == Some(shape.id)
  {
    ValsLength(shape.fields, vs);
    Pow256Values();
    EnvelopeRoundTrip(Frame(msgID, EncMsg(shape, vs)));
    MsgRoundTrip(shape, vs, []);
    assert EncMsg(shape, vs) + [] == EncMsg(shape, vs);
  }
  lemma WordBytes(x: nat, a: Byte, b: Byte, c: Byte, d: Byte)
    requires x == a + 256 * (b + 256 * (c + 256 * d))
    ensures LE(4, x) == [a, b, c, d]
  {
    FourBytes(x);
    assert x / 256 == b + 256 * (c + 256 * d);
    assert x / 256 / 256 == c + 256 * d;
  }

  /** The constructor identifiers of the exchange as they travel: requests and inner data, */
  lemma RequestBytes()
    ensures LE(4, REQ_PQ.id) == [0x78, 0x97, 0x46, 0x60]
    ensures LE(4, REQ_PQ_MULTI.id) == [0xf1, 0x8e, 0x7e, 0xbe]
    ensures LE(4, PQ_INNER.id) == [0xec, 0x5a, 0xc9, 0x83]
    ensures LE(4, PQ_INNER_DC.id) == [0x95, 0x5f, 0xf5, 0xa9]
    ensures LE(4, PQ_INNER_TEMP_DC.id) == [0x88, 0xdf, 0xfd, 0x56]
    ensures LE(4, REQ_DH.id) == [0xbe, 0xe4, 0x12, 0xd7]
    ensures LE(4, CLIENT_INNER.id) == [0x54, 0xb6, 0x43, 0x66]
    ensures LE(4, SET_DH.id) == [0x1f, 0x5f, 0x04, 0xf5]
  {
    WordBytes(REQ_PQ.id, 0x78, 0x97, 0x46, 0x60);
    WordBytes(REQ_PQ_MULTI.id, 0xf1, 0x8e, 0x7e, 0xbe);
    WordBytes(PQ_INNER.id, 0xec, 0x5a, 0xc9, 0x83);
    WordBytes(PQ_INNER_DC.id, 0x95, 0x5f, 0xf5, 0xa9);
    WordBytes(PQ_INNER_TEMP_DC.id, 0x88, 0xdf, 0xfd, 0x56);
    WordBytes(REQ_DH.id, 0xbe, 0xe4, 0x12, 0xd7);
    WordBytes(CLIENT_INNER.id, 0x54, 0xb6, 0x43, 0x66);
    WordBytes(SET_DH.id, 0x1f, 0x5f, 0x04, 0xf5);
  }

  /** and answers. */
  lemma AnswerBytes()
    ensures LE(4, RES_PQ.id) == [0x63, 0x24, 0x16, 0x05]
    ensures LE(4, SERVER_INNER.id) == [0xba, 0x0d, 0x89, 0xb5]
    ensures LE(4, DH_OK.id) == [0x5c, 0x07, 0xe8, 0xd0]
    ensures LE(4, DH_FAIL.id) == [0x5d, 0x04, 0xcb, 0x79]
    ensures LE(4, GEN_OK.id) == [0x34, 0xf7, 0xcb, 0x3b]
    ensures LE(4, GEN_RETRY.id) == [0xb9, 0x1f, 0xdc, 0x46]
    ensures LE(4, GEN_FAIL.id) == [0x02, 0xae, 0x9d, 0xa6]
  {
    WordBytes(RES_PQ.id, 0x63, 0x24, 0x16, 0x05);
    WordBytes(SERVER_INNER.id, 0xba, 0x0d, 0x89, 0xb5);
    WordBytes(DH_OK.id, 0x5c, 0x07, 0xe8, 0xd0);
    WordBytes(DH_FAIL.id, 0x5d, 0x04, 0xcb, 0x79);
    WordBytes(GEN_OK.id, 0x34, 0xf7, 0xcb, 0x3b);
    WordBytes(GEN_RETRY.id, 0xb9, 0x1f, 0xdc, 0x46);
    WordBytes(GEN_FAIL.id, 0x02, 0xae, 0x9d, 0xa6);
  }
}

/**
  TL binary primitives: little-endian words, TL byte strings, vector headers and
  the mutable buffer every codec of the repository reads from and appends to.
 */
module Bin {

  type Byte = b: int | 0 <= b < 256

  const TYPE_VECTOR := 0x1cb5c415
  const TYPE_TRUE := 0x997275b5
  const TYPE_FALSE := 0xbc799737
  const MAX_SMALL_STRING := 253
  const FIRST_LONG_STRING_BYTE := 254
  const MAX_LONG_STRING := 0xFF_FFFF

  /** A reader either yields a value or fails; either way it leaves a buffer behind. */
  datatype Read<+T> = Ok(value: T, rest: seq<Byte>) | Err(rest: seq<Byte>)

  datatype Option<+T> = None | Some(value: T)

  // ---------------------------------------------------------------- words

  function Pow256(n: nat): (p: nat)
    ensures p > 0
  {
    if n == 0 then 1 else 256 * Pow256(n - 1)
  }

  function Pow2(n: nat): (p: nat)
    ensures p > 0
  {
    if n == 0 then 1 else 2 * Pow2(n - 1)
  }

  lemma OneMore(n: nat, m: nat)
    ensures (n + 1) * m == n * m + m
  {
  }

  /** A signed number of so many bytes. */
  predicate InRange(bytes: nat, v: int)
  {
    0 - Pow256(bytes) <= 2 * v < Pow256(bytes)
  }

  lemma Regroup(a: seq<Byte>, b: seq<Byte>, c: seq<Byte>)
    ensures a + b + c == a + (b + c)
  {
  }

  /** The low `n` bytes of `v`, least significant first; negative numbers in two's complement. */
  function LE(n: nat, v: int): (s: seq<Byte>)
    ensures |s| == n
  {
    if n == 0 then [] else [v % 256] + LE(n - 1, v / 256)
  }

  function FromLE(s: seq<Byte>): (v: nat)
    ensures v < Pow256(|s|)
  {
    if s == [] then 0 else s[0] + 256 * FromLE(s[1..])
  }

  /** Reinterprets an `n`-byte word as a signed integer. */
  function Signed(n: nat, u: nat): int
  {
    if 2 * u >= Pow256(n) then u - Pow256(n) else u
  }

  lemma Pow256Values()
    ensures Pow256(3) == 0x100_0000
    ensures Pow256(4) == 0x1_0000_0000
    ensures Pow256(8) == 0x1_0000_0000_0000_0000
  {
    assert Pow256(2) == 0x1_0000;
    assert Pow256(4) == 256 * (256 * Pow256(2));
    assert Pow256(6) == 256 * (256 * Pow256(4));
    assert Pow256(8) == 256 * (256 * Pow256(6));
  }

  /** Writing and reading back an `n`-byte word keeps the number modulo 256^n. */
  lemma {:induction false} LEInverse(n: nat, v: int)
    ensures FromLE(LE(n, v)) == v % Pow256(n)
  {
    if n > 0 {
      LEInverse(n - 1, v / 256);
      assert LE(n, v)[1..] == LE(n - 1, v / 256);
      ModByDigits(v, Pow256(n - 1));
    }
  }

  lemma ModByDigits(v: int, p: nat)
    requires p > 0
    ensures v % (256 * p) == v % 256 + 256 * (v / 256 % p)
  {
    var q := v / 256;
    var k, r := q / p, q % p;
    assert v == 256 * (p * k + r) + v % 256;
    assert 256 * (p * k) == (256 * p) * k;
    ModUnique(v, 256 * p, k, v % 256 + 256 * r);
  }

  lemma ModUnique(v: int, m: nat, k: int, r: int)
    requires m > 0 && v == m * k + r && 0 <= r < m
    ensures v % m == r
  {
    var k', r' := v / m, v % m;
    assert v == m * k' + r' && 0 <= r' < m;
    assert m * (k - k') == r' - r;
    if k > k' {
      MulMonotone(m, 1, k - k');
    } else if k < k' {
      MulMonotone(m, k - k', -1);
    }
  }

  lemma MulMonotone(m: nat, a: int, b: int)
    requires a <= b
    ensures m * a <= m * b
  {
  }

  /** A signed word in range survives the trip through its two's complement bytes. */
  lemma SignedInverse(n: nat, v: int)
    requires InRange(n, v)
    ensures Signed(n, FromLE(LE(n, v))) == v
  {
    LEInverse(n, v);
    var p := Pow256(n);
    if v < 0 {
      ModUnique(v, p, -1, v + p);
    } else {
      ModUnique(v, p, 0, v);
    }
  }

  /** Reading `n` bytes and writing them again gives the same bytes: the word format is a bijection. */
  lemma {:induction false} FromLEInverse(s: seq<Byte>)
    ensures LE(|s|, FromLE(s)) == s
  {
    if s != [] {
      FromLEInverse(s[1..]);
      var t := FromLE(s[1..]);
      ModUnique(s[0] + 256 * t, 256, t, s[0]);
    }
  }

  // ---------------------------------------------------------------- readers

  /** A word of `n` bytes is below 256^n. */
  lemma FromLEBound(s: seq<Byte>)
    ensures FromLE(s) < Pow256(|s|)
  {
    FromLEInverse(s);
    LEInverse(|s|, FromLE(s));
  }

  function ReadWord(n: nat, s: seq<Byte>): Read<nat>
  {
    if |s| < n then Err(s) else Ok(FromLE(s[..n]), s[n..])
  }

  function ReadSigned(n: nat, s: seq<Byte>): Read<int>
  {
    match ReadWord(n, s)
    case Ok(u, rest) => Ok(Signed(n, u), rest)
    case Err(rest) => Err(rest)
  }

  function ReadRaw(n: nat, s: seq<Byte>): Read<seq<Byte>>
  {
    if |s| < n then Err(s) else Ok(s[..n], s[n..])
  }

  function ReadId(id: nat, s: seq<Byte>): Read<()>
  {
    match ReadWord(4, s)
    case Ok(v, rest) => if v == id then Ok((), rest) else Err(s)
    case Err(rest) => Err(rest)
  }

  /** The identifier is consumed before the length is looked at, so a bad length leaves the buffer past it. */
  function ReadVectorHeader(s: seq<Byte>): Read<nat>
  {
    match ReadId(TYPE_VECTOR, s)
    case Err(rest) => Err(rest)
    case Ok(_, rest) =>
      match ReadSigned(4, rest)
      case Err(rest') => Err(rest')
      case Ok(n, rest') => if n < 0 then Err(rest') else Ok(n, rest')
  }

  function ReadBool(s: seq<Byte>): Read<bool>
  {
    match ReadWord(4, s)
    case Err(rest) => Err(rest)
    case Ok(v, rest) =>
      if v == TYPE_TRUE then Ok(true, rest)
      else if v == TYPE_FALSE then Ok(false, rest)
      else Err(s)
  }

  // ---------------------------------------------------------------- TL byte strings

  function PaddedLength(l: nat): (n: nat)
    ensures l <= n < l + 4 && n % 4 == 0
  {
    var n := 4 * (l / 4);
    if n < l then n + 4 else n
  }

  function Zeros(n: nat): (s: seq<Byte>)
    ensures |s| == n && forall i :: 0 <= i < n ==> s[i] == 0
  {
    seq(n, _ => 0)
  }

  function StringHeader(l: nat): seq<Byte>
  {
    if l <= MAX_SMALL_STRING then [l] else [FIRST_LONG_STRING_BYTE] + LE(3, l)
  }

  /** TL `bytes`; a payload longer than 2^24-1 gets a truncated length, exactly as the unchecked writer does. */
  function EncodeBytes(v: seq<Byte>): (r: seq<Byte>)
  {
    var h := StringHeader(|v|);
    h + v + Zeros(PaddedLength(|h| + |v|) - (|h| + |v|))
  }

  function ReadBytes(s: seq<Byte>): Read<seq<Byte>>
  {
    if s == [] then Err(s)
    else if s[0] == FIRST_LONG_STRING_BYTE then
      if |s| < 4 then Err(s)
      else TakeString(s, 4, FromLE(s[1..4]))
    else if |s| <= s[0] || s[0] > MAX_SMALL_STRING then Err(s)
    else TakeString(s, 1, s[0])
  }

  function TakeString(s: seq<Byte>, header: nat, l: nat): Read<seq<Byte>>
  {
    if |s| < header + l || |s| < PaddedLength(header + l) then Err(s)
    else Ok(s[header..header + l], s[PaddedLength(header + l)..])
  }

  // ---------------------------------------------------------------- round trips

  lemma WordRoundTrip(n: nat, v: nat, rest: seq<Byte>)
    requires v < Pow256(n)
    ensures ReadWord(n, LE(n, v) + rest) == Ok(v, rest)
  {
    LEInverse(n, v);
    ModUnique(v, Pow256(n), 0, v);
    assert (LE(n, v) + rest)[..n] == LE(n, v);
    assert (LE(n, v) + rest)[n..] == rest;
  }

  lemma SignedRoundTrip(n: nat, v: int, rest: seq<Byte>)
    requires InRange(n, v)
    ensures ReadSigned(n, LE(n, v) + rest) == Ok(v, rest)
  {
    SignedInverse(n, v);
    assert (LE(n, v) + rest)[..n] == LE(n, v);
    assert (LE(n, v) + rest)[n..] == rest;
  }

  lemma RawRoundTrip(v: seq<Byte>, rest: seq<Byte>)
    ensures ReadRaw(|v|, v + rest) == Ok(v, rest)
  {
  }

  lemma IdRoundTrip(id: nat, rest: seq<Byte>)
    requires id < 0x1_0000_0000
    ensures ReadId(id, LE(4, id) + rest) == Ok((), rest)
  {
    Pow256Values();
    WordRoundTrip(4, id, rest);
  }

  lemma VectorHeaderRoundTrip(n: nat, rest: seq<Byte>)
    requires n < 0x8000_0000
    ensures ReadVectorHeader(LE(4, TYPE_VECTOR) + LE(4, n) + rest) == Ok(n, rest)
  {
    Pow256Values();
    assert LE(4, TYPE_VECTOR) + LE(4, n) + rest == LE(4, TYPE_VECTOR) + (LE(4, n) + rest);
    IdRoundTrip(TYPE_VECTOR, LE(4, n) + rest);
    SignedRoundTrip(4, n, rest);
  }

  /**
    A TL byte string followed by anything decodes to itself and leaves exactly what
    followed, if and only if its length fits the 24-bit header.
   */
  lemma BytesRoundTrip(v: seq<Byte>, rest: seq<Byte>)
    ensures ReadBytes(EncodeBytes(v) + rest) == Ok(v, rest) <==> |v| <= MAX_LONG_STRING
  {
    var l := |v|;
    var h := StringHeader(l);
    var s := EncodeBytes(v) + rest;
    StringLayout(v, rest);
    if l > MAX_SMALL_STRING {
      LEInverse(3, l);
      Pow256Values();
      assert ReadBytes(s) == TakeString(s, 4, l % 0x100_0000);
      TakenLength(s, 4, l % 0x100_0000);
    } else {
      assert ReadBytes(s) == TakeString(s, 1, l);
    }
  }

  /** Header, payload and padding are where the reader looks for them. */
  lemma StringLayout(v: seq<Byte>, rest: seq<Byte>)
    ensures var h, s := StringHeader(|v|), EncodeBytes(v) + rest;
            && |s| == PaddedLength(|h| + |v|) + |rest| && s[..|h|] == h && s[0] == h[0] && s[1..|h|] == h[1..]
            && s[|h|..|h| + |v|] == v && s[PaddedLength(|h| + |v|)..] == rest
  {
    var h := StringHeader(|v|);
    var pad := Zeros(PaddedLength(|h| + |v|) - (|h| + |v|));
    assert EncodeBytes(v) + rest == h + v + pad + rest;
  }

  lemma TakenLength(s: seq<Byte>, header: nat, l: nat)
    ensures TakeString(s, header, l).Ok? ==> |TakeString(s, header, l).value| == l
  {
  }

  /** Every TL byte string occupies a whole number of words, at least one. */
  lemma BytesAligned(v: seq<Byte>)
    ensures |EncodeBytes(v)| % 4 == 0
    ensures 4 <= |EncodeBytes(v)| && |v| < |EncodeBytes(v)| <= |v| + 7
  {
    var h := StringHeader(|v|);
    assert |EncodeBytes(v)| == PaddedLength(|h| + |v|);
  }

  lemma BoolRoundTrip(v: bool, rest: seq<Byte>)
    ensures ReadBool(LE(4, if v then TYPE_TRUE else TYPE_FALSE) + rest) == Ok(v, rest)
  {
    Pow256Values();
    WordRoundTrip(4, if v then TYPE_TRUE else TYPE_FALSE, rest);
  }

  // ---------------------------------------------------------------- the mutable buffer

  /** The repository's `bin.Buffer`: writers append at the end, readers consume from the front. */
  class Buffer {
    var Buf: seq<Byte>

    constructor (data: seq<Byte>)
      ensures Buf == data
    {
      Buf := data;
    }

    method Put(raw: seq<Byte>)
      modifies this
      ensures Buf == old(Buf) + raw
    {
      Buf := Buf + raw;
    }

    method PutWord(n: nat, v: int)
      modifies this
      ensures Buf == old(Buf) + LE(n, v)
    {
      var t := LE(n, v);
      Buf := Buf + t;
    }

    method PutVectorHeader(length: nat)
      modifies this
      ensures Buf == old(Buf) + LE(4, TYPE_VECTOR) + LE(4, length)
    {
      PutWord(4, TYPE_VECTOR);
      PutWord(4, length);
    }

    /** `encodeBytes`: header, payload, then zero padding to a whole word. */
    method PutBytes(v: seq<Byte>)
      modifies this
      ensures Buf == old(Buf) + EncodeBytes(v)
    {
      var start := Buf;
      var l := |v|;
      var currentLen;
      if l <= MAX_SMALL_STRING {
        Buf := Buf + [l];
        Buf := Buf + v;
        currentLen := l + 1;
      } else {
        Buf := Buf + [FIRST_LONG_STRING_BYTE] + LE(3, l);
        Buf := Buf + v;
        currentLen := l + 4;
      }
      Buf := Buf + Zeros(PaddedLength(currentLen) - currentLen);
      assert Buf == start + EncodeBytes(v);
    }

    method PutBytesChecked(v: seq<Byte>) returns (ok: bool)
      modifies this
      ensures ok <==> |v| <= MAX_LONG_STRING
      ensures Buf == if ok then old(Buf) + EncodeBytes(v) else old(Buf)
    {
      if |v| > MAX_LONG_STRING { return false; }
      PutBytes(v);
      return true;
    }

    method Word(n: nat) returns (r: Option<nat>)
      modifies this
      ensures r == Value(ReadWord(n, old(Buf))) && Buf == ReadWord(n, old(Buf)).rest
    {
      if |Buf| < n { return None; }
      r := Some(FromLE(Buf[..n]));
      Buf := Buf[n..];
    }

    method Int(n: nat) returns (r: Option<int>)
      modifies this
      ensures r == Value(ReadSigned(n, old(Buf))) && Buf == ReadSigned(n, old(Buf)).rest
    {
      var u := Word(n);
      if u.None? { return None; }
      return Some(Signed(n, u.value));
    }

    method ConsumeN(n: nat) returns (r: Option<seq<Byte>>)
      modifies this
      ensures r == Value(ReadRaw(n, old(Buf))) && Buf == ReadRaw(n, old(Buf)).rest
    {
      if |Buf| < n { return None; }
      r := Some(Buf[..n]);
      Buf := Buf[n..];
    }

    method ConsumeID(id: nat) returns (ok: bool)
      modifies this
      ensures ok == ReadId(id, old(Buf)).Ok? && Buf == ReadId(id, old(Buf)).rest
    {
      if |Buf| < 4 { return false; }
      var v := FromLE(Buf[..4]);
      if v != id { return false; }
      Buf := Buf[4..];
      return true;
    }

    method VectorHeader() returns (r: Option<nat>)
      modifies this
      ensures r == Value(ReadVectorHeader(old(Buf))) && Buf == ReadVectorHeader(old(Buf)).rest
    {
      var ok := ConsumeID(TYPE_VECTOR);
      if !ok { return None; }
      var n := Int(4);
      if n.None? || n.value < 0 { return None; }
      return Some(n.value);
    }

    method Bytes() returns (r: Option<seq<Byte>>)
      modifies this
      ensures r == Value(ReadBytes(old(Buf))) && Buf == ReadBytes(old(Buf)).rest
    {
      if |Buf| == 0 { return None; }
      var header, l;
      if Buf[0] == FIRST_LONG_STRING_BYTE {
        if |Buf| < 4 { return None; }
        header, l := 4, FromLE(Buf[1..4]);
        if |Buf| < l + 4 { return None; }
      } else {
        header, l := 1, Buf[0];
        if |Buf| < l + 1 { return None; }
        if l > MAX_SMALL_STRING { return None; }
      }
      var n := PaddedLength(header + l);
      if |Buf| < n { return None; }
      r := Some(Buf[header..header + l]);
      Buf := Buf[n..];
    }
  }

  function Value<T>(r: Read<T>): Option<T>
  {
    match r
    case Ok(v, _) => Some(v)
    case Err(_) => None
  }
  // ---------------------------------------------------------------- bytes spelled out

  lemma FourBytes(v: int)
    ensures LE(4, v) == [v % 256, v / 256 % 256, v / 256 / 256 % 256, v / 256 / 256 / 256 % 256]
  {
    assert LE(1, v / 256 / 256 / 256) == [v / 256 / 256 / 256 % 256];
    assert LE(2, v / 256 / 256) == [v / 256 / 256 % 256] + LE(1, v / 256 / 256 / 256);
    assert LE(3, v / 256) == [v / 256 % 256] + LE(2, v / 256 / 256);
  }

  /** The identifiers of `vector`, `boolTrue` and `boolFalse` as they travel. */
  lemma IdentifierBytes()
    ensures LE(4, TYPE_VECTOR) == [0x15, 0xc4, 0xb5, 0x1c]
    ensures LE(4, TYPE_TRUE) == [0xb5, 0x75, 0x72, 0x99] && LE(4, TYPE_FALSE) == [0x37, 0x97, 0x79, 0xbc]
  {
    FourBytes(TYPE_VECTOR);
    FourBytes(TYPE_TRUE);
    FourBytes(TYPE_FALSE);
  }

  /**
    A byte string is one length byte up to 253 and otherwise 254 and three length bytes, the payload, and zeros
    up to the next word.
   */
  lemma BytesLaidOut(v: seq<Byte>) returns (head: seq<Byte>, pad: seq<Byte>)
    ensures EncodeBytes(v) == head + v + pad && |pad| < 4 && (forall i :: 0 <= i < |pad| ==> pad[i] == 0)
    ensures |EncodeBytes(v)| % 4 == 0
    ensures |v| <= 253 ==> head == [|v|]
    ensures |v| > 253 ==> head == [254, |v| % 256, |v| / 256 % 256, |v| / 256 / 256 % 256]
  {
    head := StringHeader(|v|);
    pad := Zeros(PaddedLength(|head| + |v|) - (|head| + |v|));
    var l := |v|;
    assert LE(1, l / 256 / 256) == [l / 256 / 256 % 256];
    assert LE(2, l / 256) == [l / 256 % 256] + LE(1, l / 256 / 256);
    assert LE(3, l) == [l % 256] + LE(2, l / 256);
  }
}

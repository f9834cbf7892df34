/**
  The Bot API file identifier: a tagged, flagged serialisation with ten photo source
  variants, a trailing sub-version, a version byte and zero-run compression.
 */
module FileId {
  import opened Bin
  import Rle

  const WEB_FLAG := 24
  const REFERENCE_FLAG := 25
  const LAST_TYPE := 18
  const LAST_SOURCE := 10
  const SUB_VERSION := 34
  const VERSION := 4

  datatype Source = Source(
    ty: int, volume: int, local: int, secret: int, photoSize: seq<Byte>, fileType: int, thumbnail: int,
    dialog: int, dialogHash: int, sticker: int, stickerHash: int, stickerVersion: int)

  datatype FileID = FileID(ty: int, dc: int, id: int, accessHash: int, reference: seq<Byte>, url: seq<Byte>,
                           source: Source)

  const NO_SOURCE := Source(0, 0, 0, 0, [], 0, 0, 0, 0, 0, 0, 0)
  const NO_FILE := FileID(0, 0, 0, 0, [], [], NO_SOURCE)

  // ---------------------------------------------------------------- photo sources

  datatype Field =
    | Secret | FileType | Thumbnail | Dialog | DialogHash | Sticker | StickerHash | StickerVersion | Volume | Local

  /** Fields of each source variant, in wire order. */
  function Layout(ty: int): seq<Field>
  {
    match ty
    case 0 => [Secret]
    case 1 => [FileType, Thumbnail]
    case 2 => [Dialog, DialogHash]
    case 3 => [Dialog, DialogHash]
    case 4 => [Sticker, StickerHash]
    case 5 => [Volume, Secret, Local]
    case 6 => [Dialog, DialogHash, Volume, Local]
    case 7 => [Dialog, DialogHash, Volume, Local]
    case 8 => [Sticker, StickerHash, Volume, Local]
    case 9 => [Sticker, StickerHash, StickerVersion]
    case _ => []
  }

  function Width(f: Field): nat
  {
    match f
    case FileType => 4
    case Thumbnail => 4
    case StickerVersion => 4
    case Local => 4
    case _ => 8
  }

  function Get(p: Source, f: Field): int
  {
    match f
    case Secret => p.secret
    case FileType => p.fileType
    case Thumbnail => p.thumbnail
    case Dialog => p.dialog
    case DialogHash => p.dialogHash
    case Sticker => p.sticker
    case StickerHash => p.stickerHash
    case StickerVersion => p.stickerVersion
    case Volume => p.volume
    case Local => p.local
  }

  function Set(p: Source, f: Field, v: int): Source
  {
    match f
    case Secret => p.(secret := v)
    case FileType => p.(fileType := v)
    case Thumbnail => p.(thumbnail := v)
    case Dialog => p.(dialog := v)
    case DialogHash => p.(dialogHash := v)
    case Sticker => p.(sticker := v)
    case StickerHash => p.(stickerHash := v)
    case StickerVersion => p.(stickerVersion := v)
    case Volume => p.(volume := v)
    case Local => p.(local := v)
  }

  /** All fields are signed words except the file type. */
  function ReadField(f: Field, s: seq<Byte>): Read<int>
  {
    if f.FileType? then (match ReadWord(4, s) case Ok(v, rest) => Ok(v as int, rest) case Err(rest) => Err(rest))
    else ReadSigned(Width(f), s)
  }

  predicate FitsField(f: Field, v: int)
  {
    if f.FileType? then 0 <= v < 0x1_0000_0000 else InRange(Width(f), v)
  }

  lemma FieldRoundTrip(f: Field, v: int, rest: seq<Byte>)
    requires FitsField(f, v)
    ensures ReadField(f, LE(Width(f), v) + rest) == Ok(v, rest)
  {
    if f.FileType? {
      Pow256Values();
      WordRoundTrip(4, v, rest);
    } else {
      SignedRoundTrip(Width(f), v, rest);
    }
  }

  function EncFields(fs: seq<Field>, p: Source): seq<Byte>
  {
    if fs == [] then [] else LE(Width(fs[0]), Get(p, fs[0])) + EncFields(fs[1..], p)
  }

  function DecFields(fs: seq<Field>, s: seq<Byte>, p: Source): Read<Source>
    decreases |fs|
  {
    if fs == [] then Ok(p, s)
    else
      match ReadField(fs[0], s)
      case Err(rest) => Err(rest)
      case Ok(v, rest) => DecFields(fs[1..], rest, Set(p, fs[0], v))
  }

  function EncSource(p: Source): seq<Byte>
  {
    LE(4, p.ty) + EncFields(Layout(p.ty), p)
  }

  /** Older sub-versions keep the volume before and the local id after the variant, or know no variants at all. */
  function DecSource(subVersion: Byte, s: seq<Byte>): Read<Source>
  {
    if subVersion < 22 then DecFields([Volume, Secret, Local], s, NO_SOURCE)
    else
      match DecFields(if subVersion < 32 then [Volume] else [], s, NO_SOURCE)
      case Err(rest) => Err(rest)
      case Ok(p, s1) =>
        match ReadSigned(4, s1)
        case Err(rest) => Err(rest)
        case Ok(ty, s2) =>
          if ty < 0 || ty >= LAST_SOURCE then Err(s2)
          else DecFields(Layout(ty) + (if subVersion < 32 then [Local] else []), s2, p.(ty := ty))
  }

  /** Values are in range and fields the variant does not carry are zero. */
  ghost predicate WellFormedSource(p: Source)
  {
    && 0 <= p.ty < 10 && p.photoSize == []
    && (forall f :: f in Layout(p.ty) ==> FitsField(f, Get(p, f)))
    && (forall f :: f !in Layout(p.ty) ==> Get(p, f) == 0)
  }

  /** `p` agrees with `q` on `done` and is zero elsewhere. */
  ghost predicate Partly(p: Source, q: Source, done: seq<Field>)
  {
    p.ty == q.ty && p.photoSize == q.photoSize && forall f :: Get(p, f) == if f in done then Get(q, f) else 0
  }

  lemma SourceExtensional(p: Source, q: Source)
    requires p.ty == q.ty && p.photoSize == q.photoSize && forall f :: Get(p, f) == Get(q, f)
    ensures p == q
  {
    assert Get(p, Secret) == Get(q, Secret) && Get(p, FileType) == Get(q, FileType) &&
           Get(p, Thumbnail) == Get(q, Thumbnail);
    assert Get(p, Dialog) == Get(q, Dialog) && Get(p, DialogHash) == Get(q, DialogHash);
    assert Get(p, Sticker) == Get(q, Sticker) && Get(p, StickerHash) == Get(q, StickerHash) &&
           Get(p, StickerVersion) == Get(q, StickerVersion);
    assert Get(p, Volume) == Get(q, Volume) && Get(p, Local) == Get(q, Local);
  }

  lemma SetGet(p: Source, f: Field, v: int, g: Field)
    ensures Get(Set(p, f, v), g) == if f == g then v else Get(p, g)
    ensures Set(p, f, v).ty == p.ty && Set(p, f, v).photoSize == p.photoSize
  {
  }

  lemma {:induction false} FieldsRoundTrip(fs: seq<Field>, q: Source, p: Source, done: seq<Field>, rest: seq<Byte>)
    requires forall f :: f in fs ==> FitsField(f, Get(q, f))
    requires Partly(p, q, done)
    ensures var r := DecFields(fs, EncFields(fs, q) + rest, p); r.Ok? && r.rest == rest && Partly(r.value, q, done + fs)
    decreases |fs|
  {
    if fs == [] {
      assert [] + rest == rest && done + fs == done;
    } else {
      var f, more := fs[0], EncFields(fs[1..], q) + rest;
      assert EncFields(fs, q) + rest == LE(Width(f), Get(q, f)) + more;
      FieldRoundTrip(f, Get(q, f), more);
      var p' := Set(p, f, Get(q, f));
      forall g ensures Get(p', g) == if g in done + [f] then Get(q, g) else 0 {
        SetGet(p, f, Get(q, f), g);
      }
      SetGet(p, f, Get(q, f), f);
      FieldsRoundTrip(fs[1..], q, p', done + [f], rest);
      assert done + [f] + fs[1..] == done + fs;
    }
  }

  lemma SourceRoundTrip(q: Source, rest: seq<Byte>)
    requires WellFormedSource(q)
    ensures DecSource(SUB_VERSION, EncSource(q) + rest) == Ok(q, rest)
  {
    var fields := EncFields(Layout(q.ty), q);
    assert EncSource(q) + rest == LE(4, q.ty) + (fields + rest);
    Pow256Values();
    SignedRoundTrip(4, q.ty, fields + rest);
    var p := NO_SOURCE.(ty := q.ty);
    assert Partly(p, q, []);
    assert Layout(q.ty) + [] == Layout(q.ty) && [] + Layout(q.ty) == Layout(q.ty);
    FieldsRoundTrip(Layout(q.ty), q, p, [], rest);
    var r := DecFields(Layout(q.ty), fields + rest, p);
    SourceExtensional(r.value, q);
  }

  // ---------------------------------------------------------------- file identifiers

  predicate HasBit(w: int, bit: nat)
  {
    (w / Pow2(bit)) % 2 == 1
  }

  function WithBit(w: int, bit: nat): int
  {
    if HasBit(w, bit) then w else w + Pow2(bit)
  }

  function WithoutBit(w: int, bit: nat): int
  {
    if HasBit(w, bit) then w - Pow2(bit) else w
  }

  predicate Photo(ty: int)
  {
    0 <= ty <= 2
  }

  function TypeWord(f: FileID): int
  {
    var t := if f.url != [] then WithBit(f.ty, WEB_FLAG) else f.ty;
    if f.reference != [] then WithBit(t, REFERENCE_FLAG) else t
  }

  function EncHead(f: FileID): seq<Byte>
  {
    LE(4, TypeWord(f)) + (LE(4, f.dc) + (if f.reference != [] then EncodeBytes(f.reference) else []))
  }

  function EncTail(f: FileID): seq<Byte>
  {
    if f.url != [] then EncodeBytes(f.url)
    else LE(8, f.id) + (LE(8, f.accessHash) + ((if Photo(f.ty) then EncSource(f.source) else []) + [SUB_VERSION]))
  }

  function EncLatest(f: FileID): seq<Byte>
  {
    EncHead(f) + EncTail(f)
  }

  function DecLatest(s: seq<Byte>): Option<FileID>
  {
    if s == [] then None
    else
      var subVersion := s[|s| - 1];
      match ReadWord(4, s)
      case Err(_) => None
      case Ok(w, s1) =>
        var ty := WithoutBit(WithoutBit(w, WEB_FLAG), REFERENCE_FLAG);
        if ty >= LAST_TYPE then None
        else
          match ReadWord(4, s1)
          case Err(_) => None
          case Ok(dc, s2) => DecReference(NO_FILE.(ty := ty, dc := dc), HasBit(w, REFERENCE_FLAG), HasBit(w, WEB_FLAG),
                                          subVersion, s2)
  }

  function DecReference(f: FileID, hasReference: bool, hasWeb: bool, subVersion: Byte, s: seq<Byte>): Option<FileID>
  {
    if !hasReference then DecTail(f, hasWeb, subVersion, s)
    else
      match ReadBytes(s)
      case Err(_) => None
      case Ok(reference, rest) => DecTail(f.(reference := reference), hasWeb, subVersion, rest)
  }

  function DecTail(f: FileID, hasWeb: bool, subVersion: Byte, s: seq<Byte>): Option<FileID>
  {
    if hasWeb then
      match ReadBytes(s)
      case Err(_) => None
      case Ok(url, _) => Some(f.(url := url))
    else
      match ReadSigned(8, s)
      case Err(_) => None
      case Ok(id, s1) =>
        match ReadSigned(8, s1)
        case Err(_) => None
        case Ok(hash, s2) =>
          var g := f.(id := id, accessHash := hash);
          if !Photo(f.ty) then Some(g)
          else
            match DecSource(subVersion, s2)
            case Err(_) => None
            case Ok(p, _) => Some(g.(source := p))
  }

  /** Integers are in wire range and everything the variant does not carry is zero. */
  ghost predicate WellFormed(f: FileID)
  {
    && 0 <= f.ty < 18 && 0 <= f.dc < 0x1_0000_0000
    && |f.reference| <= MAX_LONG_STRING && |f.url| <= MAX_LONG_STRING
    && InRange(8, f.id) && InRange(8, f.accessHash)
    && (f.url != [] ==> f.id == 0 && f.accessHash == 0)
    && (if f.url == [] && f.ty <= 2 then WellFormedSource(f.source) else f.source == NO_SOURCE)
  }

  lemma FlagValues()
    ensures Pow2(WEB_FLAG) == 0x100_0000 && Pow2(REFERENCE_FLAG) == 0x200_0000
  {
    assert Pow2(8) == 256;
    assert Pow2(16) == 256 * Pow2(8);
    assert Pow2(24) == 256 * Pow2(16);
  }

  /** The two flags and the type are recovered from the first word. */
  lemma TypeWordExact(f: FileID)
    requires 0 <= f.ty < LAST_TYPE
    ensures 0 <= TypeWord(f) < 0x1_0000_0000
    ensures HasBit(TypeWord(f), WEB_FLAG) <==> f.url != []
    ensures HasBit(TypeWord(f), REFERENCE_FLAG) <==> f.reference != []
    ensures WithoutBit(WithoutBit(TypeWord(f), WEB_FLAG), REFERENCE_FLAG) == f.ty
  {
    FlagValues();
    var web, reference := f.url != [], f.reference != [];
    FlagBits(f.ty, web, reference);
    assert TypeWord(f) == f.ty + (if web then 0x100_0000 else 0) + (if reference then 0x200_0000 else 0);
  }

  lemma FlagBits(ty: int, web: bool, reference: bool)
    requires 0 <= ty < LAST_TYPE
    ensures var w := ty + (if web then 0x100_0000 else 0) + (if reference then 0x200_0000 else 0);
            (w / 0x100_0000) % 2 == (if web then 1 else 0) && (w / 0x200_0000) % 2 == (if reference then 1 else 0)
    ensures (ty / 0x100_0000) % 2 == 0
    ensures (ty + 0x100_0000) / 0x200_0000 % 2 == 0 && ty / 0x200_0000 % 2 == 0 &&
            (ty + 0x200_0000) / 0x200_0000 % 2 == 1
  {
  }

  lemma TailRoundTrip(f: FileID, g: FileID)
    requires WellFormed(f) && g == NO_FILE.(ty := f.ty, dc := f.dc, reference := f.reference)
    ensures DecTail(g, f.url != [], SUB_VERSION, EncTail(f)) == Some(f)
    ensures f.url != [] ==> forall v :: DecTail(g, true, v, EncTail(f)) == Some(f)
  {
    if f.url != [] {
      assert EncodeBytes(f.url) + [] == EncodeBytes(f.url);
      BytesRoundTrip(f.url, []);
    } else {
      var body := if Photo(f.ty) then EncSource(f.source) else [];
      var s2 := body + [SUB_VERSION];
      SignedRoundTrip(8, f.id, LE(8, f.accessHash) + s2);
      SignedRoundTrip(8, f.accessHash, s2);
      if Photo(f.ty) {
        SourceRoundTrip(f.source, [SUB_VERSION]);
      }
    }
  }

  lemma ReferenceRoundTrip(f: FileID, subVersion: Byte, tail: seq<Byte>)
    requires |f.reference| <= MAX_LONG_STRING
    ensures var g := NO_FILE.(ty := f.ty, dc := f.dc);
            DecReference(g, f.reference != [], f.url != [], subVersion,
                         (if f.reference != [] then EncodeBytes(f.reference) else []) + tail) ==
            DecTail(g.(reference := f.reference), f.url != [], subVersion, tail)
  {
    if f.reference != [] {
      BytesRoundTrip(f.reference, tail);
    } else {
      assert [] + tail == tail;
    }
  }

  lemma LatestRoundTrip(f: FileID)
    requires WellFormed(f)
    ensures DecLatest(EncLatest(f)) == Some(f)
  {
    TypeWordExact(f);
    Pow256Values();
    var s := EncLatest(f);
    var reference := if f.reference != [] then EncodeBytes(f.reference) else [];
    var s2 := reference + EncTail(f);
    Regrouped(f, reference);
    WordRoundTrip(4, TypeWord(f), LE(4, f.dc) + s2);
    WordRoundTrip(4, f.dc, s2);
    var sub := s[|s| - 1];
    ReferenceRoundTrip(f, sub, EncTail(f));
    LastByte(f);
    TailRoundTrip(f, NO_FILE.(ty := f.ty, dc := f.dc, reference := f.reference));
  }

  lemma Regrouped(f: FileID, reference: seq<Byte>)
    requires reference == if f.reference != [] then EncodeBytes(f.reference) else []
    ensures EncLatest(f) == LE(4, TypeWord(f)) + (LE(4, f.dc) + (reference + EncTail(f)))
  {
    Regroup(LE(4, TypeWord(f)), LE(4, f.dc) + reference, EncTail(f));
    Regroup(LE(4, f.dc), reference, EncTail(f));
  }

  /** Unless a URL ends it, the serialisation ends with the sub-version. */
  lemma LastByte(f: FileID)
    ensures |EncLatest(f)| > 0
    ensures f.url == [] ==> EncLatest(f)[|EncLatest(f)| - 1] == SUB_VERSION
  {
    if f.url == [] {
      var body := if Photo(f.ty) then EncSource(f.source) else [];
      assert EncTail(f)[|EncTail(f)| - 1] == (body + [SUB_VERSION])[|body|];
    }
  }

  // ---------------------------------------------------------------- the compressed form

  function EncodeFileID(f: FileID): seq<Byte>
  {
    Rle.Encode(EncLatest(f) + [VERSION])
  }

  /** The bytes behind the text form; versions 2 and 3 and unknown ones are refused. */
  function DecodeFileID(bytes: seq<Byte>): Option<FileID>
  {
    if bytes == [] then None
    else
      var data := Rle.Decode(bytes);
      if |data| < 2 || data[|data| - 1] != VERSION then None else DecLatest(data[..|data| - 1])
  }

  lemma ShortComesBack(f: FileID)
    requires WellFormed(f) && !Rle.LongRun(EncLatest(f) + [VERSION])
    ensures DecodeFileID(EncodeFileID(f)) == Some(f)
  {
    var data := EncLatest(f) + [VERSION];
    LastByte(f);
    Rle.RoundTrip(data);
    assert data[..|data| - 1] == EncLatest(f);
    LatestRoundTrip(f);
    assert Rle.Decode([]) == [];
  }

  // ---------------------------------------------------------------- what decoding must consume

  lemma {:induction false} FieldsConsume(fs: seq<Field>, s: seq<Byte>, p: Source, q: Source)
    requires DecFields(fs, s, p).Ok?
    ensures |s| == |EncFields(fs, q)| + |DecFields(fs, s, p).rest|
    ensures DecFields(fs, s, p).value.ty == p.ty
    decreases |fs|
  {
    if fs != [] {
      var r := ReadField(fs[0], s);
      SetGet(p, fs[0], r.value, fs[0]);
      FieldsConsume(fs[1..], r.rest, Set(p, fs[0], r.value), q);
    }
  }

  lemma {:induction false} EncFieldsAppend(a: seq<Field>, b: seq<Field>, q: Source)
    ensures |EncFields(a + b, q)| == |EncFields(a, q)| + |EncFields(b, q)|
    decreases |a|
  {
    if a == [] {
      assert a + b == b;
    } else {
      assert (a + b)[1..] == a[1..] + b;
      EncFieldsAppend(a[1..], b, q);
    }
  }

  /** Whatever the sub-version, a source takes at least the bytes of its current form. */
  lemma SourceConsumes(subVersion: Byte, s: seq<Byte>)
    requires DecSource(subVersion, s).Ok?
    ensures |s| >= |EncSource(DecSource(subVersion, s).value)|
  {
    var q := DecSource(subVersion, s).value;
    if subVersion < 22 {
      FieldsConsume([Volume, Secret, Local], s, NO_SOURCE, q);
      assert EncFields([Secret], q) == LE(8, q.secret) + EncFields([Secret][1..], q);
      ThreeFields(q);
    } else {
      var pre, post := if subVersion < 32 then [Volume] else [], if subVersion < 32 then [Local] else [];
      FieldsConsume(pre, s, NO_SOURCE, q);
      var r := DecFields(pre, s, NO_SOURCE);
      var ty, s2 := ReadSigned(4, r.rest).value, ReadSigned(4, r.rest).rest;
      FieldsConsume(Layout(ty) + post, s2, r.value.(ty := ty), q);
      EncFieldsAppend(Layout(ty), post, q);
    }
  }

  lemma ThreeFields(q: Source)
    ensures |EncFields([Volume, Secret, Local], q)| == 20
  {
    assert [Volume, Secret, Local][1..] == [Secret, Local] && [Secret, Local][1..] == [Local] && [Local][1..] == [];
    assert EncFields([Local], q) == LE(4, q.local) + EncFields([], q);
    assert EncFields([Secret, Local], q) == LE(8, q.secret) + EncFields([Local], q);
  }

  lemma BytesConsume(s: seq<Byte>)
    requires ReadBytes(s).Ok?
    ensures |s| >= |EncodeBytes(ReadBytes(s).value)| + |ReadBytes(s).rest|
  {
    BytesAligned(ReadBytes(s).value);
  }

  lemma TailConsumes(g: FileID, hasWeb: bool, subVersion: Byte, s: seq<Byte>)
    requires DecTail(g, hasWeb, subVersion, s).Some? && g.url == []
    requires hasWeb <==> DecTail(g, hasWeb, subVersion, s).value.url != []
    ensures |s| + 1 >= |EncTail(DecTail(g, hasWeb, subVersion, s).value)|
  {
    if hasWeb {
      BytesConsume(s);
    } else if Photo(g.ty) {
      SourceConsumes(subVersion, ReadSigned(8, ReadSigned(8, s).rest).rest);
    }
  }

  /** A decoded identifier whose flags mean what they say took at least its own serialisation less one byte. */
  lemma LatestConsumes(s: seq<Byte>, f: FileID)
    requires DecLatest(s) == Some(f)
    requires HasBit(ReadWord(4, s).value, WEB_FLAG) <==> f.url != []
    requires HasBit(ReadWord(4, s).value, REFERENCE_FLAG) <==> f.reference != []
    ensures |s| + 1 >= |EncLatest(f)|
  {
    var w, s1 := ReadWord(4, s).value, ReadWord(4, s).rest;
    var s2 := ReadWord(4, s1).rest;
    var sub := s[|s| - 1];
    var g := NO_FILE.(ty := f.ty, dc := f.dc);
    if HasBit(w, REFERENCE_FLAG) {
      BytesConsume(s2);
      TailConsumes(g.(reference := f.reference), HasBit(w, WEB_FLAG), sub, ReadBytes(s2).rest);
    } else {
      TailConsumes(g, HasBit(w, WEB_FLAG), sub, s2);
    }
  }

  lemma {:induction false} EncFieldsShort(fs: seq<Field>, q: Source)
    ensures |EncFields(fs, q)| <= 8 * |fs|
  {
    if fs != [] {
      EncFieldsShort(fs[1..], q);
    }
  }

  lemma PlainIsShort(f: FileID)
    requires f.reference == [] && f.url == []
    ensures |EncLatest(f)| < 100
  {
    EncFieldsShort(Layout(f.source.ty), f.source);
  }

  /** With a reference or a URL the fourth byte of the type word is not zero. */
  lemma FlaggedWord(f: FileID)
    requires 0 <= f.ty < LAST_TYPE && (f.reference != [] || f.url != [])
    ensures LE(4, TypeWord(f))[3] != 0
  {
    TypeWordExact(f);
    FlagValues();
    var w := TypeWord(f);
    FlagBits(f.ty, f.url != [], f.reference != []);
    assert w >= 0x100_0000;
    TopByte(w);
  }

  lemma TopByte(w: nat)
    requires 0x100_0000 <= w < 0x1_0000_0000
    ensures LE(4, w)[3] != 0
  {
    assert LE(4, w)[3] == LE(3, w / 256)[2] == LE(2, w / 256 / 256)[1] == LE(1, w / 256 / 256 / 256)[0];
  }

  lemma TypeWordSurvives(f: FileID)
    requires WellFormed(f) && (f.reference != [] || f.url != [])
    ensures LE(4, TypeWord(f)) <= Rle.Decode(EncodeFileID(f))
  {
    FlaggedWord(f);
    WordSurvives(LE(4, TypeWord(f)), EncLatest(f) + [VERSION]);
  }

  lemma WordSurvives(w: seq<Byte>, s: seq<Byte>)
    requires |w| == 4 && w <= s && w[3] != 0
    ensures w <= Rle.Decode(Rle.Encode(s))
  {
    assert w == w[..3] + [w[3]];
    assert s == w[..3] + [w[3]] + s[4..];
    Rle.PrefixSurvives(w[..3], w[3], s[4..]);
  }

  /** After a long run was lost the rest is too short to decode to the same identifier. */
  lemma LongIsLost(f: FileID)
    requires WellFormed(f) && Rle.LongRun(EncLatest(f) + [VERSION])
    ensures DecodeFileID(EncodeFileID(f)) != Some(f)
  {
    if f.reference == [] && f.url == [] { PlainIsShort(f); }
    TypeWordSurvives(f);
    Rle.LongRunShrinks(EncLatest(f) + [VERSION]);
    var data := Rle.Decode(EncodeFileID(f));
    assert data[..4] == LE(4, TypeWord(f));
    TooShort(f, data);
  }

  lemma TooShort(f: FileID, data: seq<Byte>)
    requires WellFormed(f) && |data| >= 4 && data[..4] == LE(4, TypeWord(f)) && |data| + 1 < |EncLatest(f)|
    ensures DecLatest(data[..|data| - 1]) != Some(f)
  {
    if DecLatest(data[..|data| - 1]) == Some(f) {
      SurvivingFlags(f, data);
      LatestConsumes(data[..|data| - 1], f);
    }
  }

  lemma SurvivingFlags(f: FileID, data: seq<Byte>)
    requires WellFormed(f) && |data| >= 4 && data[..4] == LE(4, TypeWord(f))
    requires |data| >= 2 && DecLatest(data[..|data| - 1]) == Some(f)
    ensures ReadWord(4, data[..|data| - 1]) == Ok(TypeWord(f), data[..|data| - 1][4..])
    ensures HasBit(TypeWord(f), WEB_FLAG) <==> f.url != []
    ensures HasBit(TypeWord(f), REFERENCE_FLAG) <==> f.reference != []
  {
    TypeWordExact(f);
    Pow256Values();
    var t := data[..|data| - 1];
    assert t[..4] == data[..4];
    WordRoundTrip(4, TypeWord(f), []);
    assert LE(4, TypeWord(f)) + [] == LE(4, TypeWord(f));
  }

  // ---------------------------------------------------------------- what decoding returns is well formed

  lemma SignedInRange(n: nat, s: seq<Byte>)
    requires ReadSigned(n, s).Ok?
    ensures InRange(n, ReadSigned(n, s).value)
  {
    FromLEBound(s[..n]);
  }

  lemma BytesInRange(s: seq<Byte>)
    requires ReadBytes(s).Ok?
    ensures |ReadBytes(s).value| <= MAX_LONG_STRING
  {
    if s[0] == FIRST_LONG_STRING_BYTE {
      FromLEBound(s[1..4]);
      Pow256Values();
    }
  }

  lemma FieldInRange(f: Field, s: seq<Byte>)
    requires ReadField(f, s).Ok?
    ensures FitsField(f, ReadField(f, s).value)
  {
    if f.FileType? {
      FromLEBound(s[..4]);
      Pow256Values();
    } else {
      SignedInRange(Width(f), s);
    }
  }

  /** Decoded fields are in range and the others are left alone. */
  lemma {:induction false} FieldsInRange(fs: seq<Field>, s: seq<Byte>, p: Source)
    requires DecFields(fs, s, p).Ok?
    ensures var q := DecFields(fs, s, p).value;
            && q.ty == p.ty && q.photoSize == p.photoSize
            && forall f :: if f in fs then FitsField(f, Get(q, f)) else Get(q, f) == Get(p, f)
    decreases |fs|
  {
    if fs != [] {
      var v, rest := ReadField(fs[0], s).value, ReadField(fs[0], s).rest;
      FieldInRange(fs[0], s);
      FieldsInRange(fs[1..], rest, Set(p, fs[0], v));
      forall f ensures Get(Set(p, fs[0], v), f) == if f == fs[0] then v else Get(p, f) {
        SetGet(p, fs[0], v, f);
      }
      SetGet(p, fs[0], v, fs[0]);
    }
  }

  lemma SourceInRange(s: seq<Byte>)
    requires DecSource(SUB_VERSION, s).Ok?
    ensures WellFormedSource(DecSource(SUB_VERSION, s).value)
  {
    var ty, rest := ReadSigned(4, s).value, ReadSigned(4, s).rest;
    assert Layout(ty) + [] == Layout(ty);
    FieldsInRange(Layout(ty), rest, NO_SOURCE.(ty := ty));
  }

  lemma TailInRange(g: FileID, hasWeb: bool, subVersion: Byte, s: seq<Byte>)
    requires DecTail(g, hasWeb, subVersion, s).Some? && g == NO_FILE.(ty := g.ty, dc := g.dc, reference := g.reference)
    requires 0 <= g.ty < LAST_TYPE && 0 <= g.dc < 0x1_0000_0000 && |g.reference| <= MAX_LONG_STRING
    requires DecTail(g, hasWeb, subVersion, s).value.url == [] ==> subVersion == SUB_VERSION
    ensures WellFormed(DecTail(g, hasWeb, subVersion, s).value)
  {
    if hasWeb {
      BytesInRange(s);
      Pow256Values();
      assert Layout(0) == [Secret] && FitsField(Secret, 0);
    } else {
      SignedInRange(8, s);
      var s1 := ReadSigned(8, s).rest;
      SignedInRange(8, s1);
      if Photo(g.ty) { SourceInRange(ReadSigned(8, s1).rest); }
    }
  }

  lemma DecodedInRange(s: seq<Byte>, f: FileID)
    requires DecLatest(s) == Some(f) && (f.url == [] ==> s[|s| - 1] == SUB_VERSION)
    ensures WellFormed(f)
  {
    Pow256Values();
    var w, s1 := ReadWord(4, s).value, ReadWord(4, s).rest;
    FromLEBound(s1[..4]);
    var dc, s2 := ReadWord(4, s1).value, ReadWord(4, s1).rest;
    FlagsRemoved(w);
    var g := NO_FILE.(ty := WithoutBit(WithoutBit(w, WEB_FLAG), REFERENCE_FLAG), dc := dc);
    if HasBit(w, REFERENCE_FLAG) {
      BytesInRange(s2);
      TailInRange(g.(reference := ReadBytes(s2).value), HasBit(w, WEB_FLAG), s[|s| - 1], ReadBytes(s2).rest);
    } else {
      TailInRange(g, HasBit(w, WEB_FLAG), s[|s| - 1], s2);
    }
  }

  lemma FlagsRemoved(w: nat)
    ensures WithoutBit(WithoutBit(w, WEB_FLAG), REFERENCE_FLAG) >= 0
  {
    FlagValues();
  }

  /** Only well-formed identifiers can come back. */
  lemma ReturnedIsWellFormed(f: FileID)
    requires DecodeFileID(EncodeFileID(f)) == Some(f)
    ensures WellFormed(f)
  {
    var data := Rle.Decode(EncodeFileID(f));
    if f.url == [] { SubVersionStays(f); }
    DecodedInRange(data[..|data| - 1], f);
  }

  lemma SubVersionStays(f: FileID)
    requires f.url == []
    ensures var data := Rle.Decode(EncodeFileID(f)); |data| >= 2 && data[|data| - 2] == SUB_VERSION
  {
    LastByte(f);
    var s := EncLatest(f);
    BeforeLast(s, VERSION);
    var head := Rle.EndSurvives(s[..|s| - 1], SUB_VERSION, VERSION);
  }

  lemma BeforeLast(s: seq<Byte>, b: Byte)
    requires s != []
    ensures s + [b] == s[..|s| - 1] + [s[|s| - 1], b]
  {
  }

  /**
    An identifier comes back unchanged exactly when it is well formed and its serialisation has no
    256 zeros in a row.
   */
  lemma RoundTrip(f: FileID)
    ensures DecodeFileID(EncodeFileID(f)) == Some(f) <==> WellFormed(f) && !Rle.LongRun(EncLatest(f) + [VERSION])
  {
    if DecodeFileID(EncodeFileID(f)) == Some(f) { ReturnedIsWellFormed(f); }
    if WellFormed(f) {
      if Rle.LongRun(EncLatest(f) + [VERSION]) { LongIsLost(f); } else { ShortComesBack(f); }
    }
  }

  /** No identifier whose file reference holds 256 zeros in a row comes back. */
  lemma ZerosInReferenceAreLost(f: FileID, k: nat)
    requires Rle.ZeroRun(f.reference, k)
    ensures DecodeFileID(EncodeFileID(f)) != Some(f)
  {
    var before, after := ReferenceInside(f);
    ZeroRunInside(before, f.reference, after, k);
    RoundTrip(f);
  }

  lemma ReferenceInside(f: FileID) returns (before: seq<Byte>, after: seq<Byte>)
    requires f.reference != []
    ensures EncLatest(f) + [VERSION] == before + f.reference + after
  {
    var head, h := LE(4, TypeWord(f)) + LE(4, f.dc), StringHeader(|f.reference|);
    var pad := Zeros(PaddedLength(|h| + |f.reference|) - (|h| + |f.reference|));
    before, after := head + h, pad + (EncTail(f) + [VERSION]);
    assert EncodeBytes(f.reference) == h + f.reference + pad;
    Regrouped(f, h + f.reference + pad);
    Nested(LE(4, TypeWord(f)), LE(4, f.dc), h, f.reference, pad, EncTail(f), [VERSION]);
  }

  lemma Nested(a: seq<Byte>, b: seq<Byte>, h: seq<Byte>, r: seq<Byte>, pad: seq<Byte>, tail: seq<Byte>, last: seq<Byte>)
    ensures a + (b + (h + r + pad + tail)) + last == a + b + h + r + (pad + (tail + last))
  {
    Regroup(a + b, h, r);
    Regroup(a + b, h + r, pad);
    Regroup(a + b, h + r + pad, tail);
    Regroup(a, b, h + r + pad + tail);
    Regroup(a + b + (h + r) + pad, tail, last);
    Regroup(a + b + (h + r), pad, tail + last);
  }

  lemma ZeroRunInside(before: seq<Byte>, run: seq<Byte>, after: seq<Byte>, k: nat)
    requires Rle.ZeroRun(run, k)
    ensures Rle.ZeroRun(before + run + after, |before| + k)
  {
    var s := before + run + after;
    assert forall j :: |before| <= j < |before| + |run| ==> s[j] == run[j - |before|];
  }

  /** For instance a document with a reference of 300 zeros. */
  lemma ZeroReferenceIsLost()
    ensures var f := FileID(5, 2, 0, 0, Zeros(300), [], NO_SOURCE);
            WellFormed(f) && DecodeFileID(EncodeFileID(f)) != Some(f)
  {
    var f := FileID(5, 2, 0, 0, Zeros(300), [], NO_SOURCE);
    Pow256Values();
    ZerosInReferenceAreLost(f, 0);
  }

  // ---------------------------------------------------------------- encoding and decoding with a buffer

  method PutSource(p: Source, b: Buffer)
    modifies b
    ensures b.Buf == old(b.Buf) + EncSource(p)
  {
    b.PutWord(4, p.ty);
    var fields := Layout(p.ty);
    ghost var head := b.Buf;
    for i := 0 to |fields|
      invariant b.Buf + EncFields(fields[i..], p) == head + EncFields(fields, p)
    {
      assert fields[i..][1..] == fields[i + 1..];
      Regroup(b.Buf, LE(Width(fields[i]), Get(p, fields[i])), EncFields(fields[i + 1..], p));
      b.PutWord(Width(fields[i]), Get(p, fields[i]));
    }
    assert EncFields(fields[|fields|..], p) == [] && b.Buf + [] == b.Buf;
    Regroup(old(b.Buf), LE(4, p.ty), EncFields(fields, p));
  }

  /** `encodeLatestFileID`: a URL ends the serialisation before the identifier and the sub-version. */
  method PutFileID(f: FileID, b: Buffer)
    modifies b
    ensures b.Buf == old(b.Buf) + EncLatest(f)
  {
    ghost var start := b.Buf;
    b.PutWord(4, TypeWord(f));
    b.PutWord(4, f.dc);
    ghost var reference := if f.reference != [] then EncodeBytes(f.reference) else [];
    if f.reference != [] { b.PutBytes(f.reference); }
    Headed(start, f, reference);
    ghost var head := b.Buf;
    if f.url != [] {
      b.PutBytes(f.url);
    } else {
      b.PutWord(8, f.id);
      b.PutWord(8, f.accessHash);
      ghost var body := if Photo(f.ty) then EncSource(f.source) else [];
      if Photo(f.ty) { PutSource(f.source, b); }
      b.Put([SUB_VERSION]);
      Tailed(head, f, body);
    }
    Regroup(start, EncHead(f), EncTail(f));
  }

  lemma Headed(start: seq<Byte>, f: FileID, reference: seq<Byte>)
    requires reference == if f.reference != [] then EncodeBytes(f.reference) else []
    ensures start + LE(4, TypeWord(f)) + LE(4, f.dc) + reference == start + EncHead(f)
    ensures reference == [] ==> start + LE(4, TypeWord(f)) + LE(4, f.dc) == start + EncHead(f)
  {
    Regroup(start, LE(4, TypeWord(f)), LE(4, f.dc));
    Regroup(start, LE(4, TypeWord(f)) + LE(4, f.dc), reference);
    Regroup(LE(4, TypeWord(f)), LE(4, f.dc), reference);
    assert LE(4, f.dc) + [] == LE(4, f.dc);
  }

  lemma Tailed(head: seq<Byte>, f: FileID, body: seq<Byte>)
    requires f.url == [] && body == if Photo(f.ty) then EncSource(f.source) else []
    ensures head + LE(8, f.id) + LE(8, f.accessHash) + body + [SUB_VERSION] == head + EncTail(f)
    ensures body == [] ==> head + LE(8, f.id) + LE(8, f.accessHash) + [SUB_VERSION] == head + EncTail(f)
  {
    var a, c, d := LE(8, f.id), LE(8, f.accessHash), [SUB_VERSION];
    Regroup(head, a, c);
    Regroup(head, a + c, body);
    Regroup(head, a + c + body, d);
    Regroup(a, c, body);
    Regroup(a, c + body, d);
    Regroup(c, body, d);
    assert head + a + c + [] == head + a + c;
  }

  method TakeFields(fs: seq<Field>, p: Source, b: Buffer) returns (r: Option<Source>)
    modifies b
    ensures r == Value(DecFields(fs, old(b.Buf), p)) && b.Buf == DecFields(fs, old(b.Buf), p).rest
    decreases |fs|
  {
    if fs == [] { return Some(p); }
    var v: Option<int>;
    if fs[0].FileType? {
      var w := b.Word(4);
      v := if w.Some? then Some(w.value) else None;
    } else {
      v := b.Int(Width(fs[0]));
    }
    if v.None? { return None; }
    r := TakeFields(fs[1..], Set(p, fs[0], v.value), b);
  }

  /** `PhotoSizeSource.decode` for every sub-version. */
  method TakeSource(subVersion: Byte, b: Buffer) returns (r: Option<Source>)
    modifies b
    ensures r == Value(DecSource(subVersion, old(b.Buf)))
  {
    if subVersion < 22 {
      r := TakeFields([Volume, Secret, Local], NO_SOURCE, b);
      return;
    }
    var p := TakeFields(if subVersion < 32 then [Volume] else [], NO_SOURCE, b);
    if p.None? { return None; }
    var ty := b.Int(4);
    if ty.None? || ty.value < 0 || ty.value >= LAST_SOURCE { return None; }
    r := TakeFields(Layout(ty.value) + (if subVersion < 32 then [Local] else []), p.value.(ty := ty.value), b);
  }

  /** `decodeLatestFileID`. */
  method TakeFileID(b: Buffer) returns (r: Option<FileID>)
    modifies b
    ensures r == DecLatest(old(b.Buf))
  {
    if |b.Buf| < 1 { return None; }
    var subVersion := b.Buf[|b.Buf| - 1];
    var w := b.Word(4);
    if w.None? { return None; }
    var ty := WithoutBit(WithoutBit(w.value, WEB_FLAG), REFERENCE_FLAG);
    if ty >= LAST_TYPE { return None; }
    var dc := b.Word(4);
    if dc.None? { return None; }
    var f := NO_FILE.(ty := ty, dc := dc.value);
    if HasBit(w.value, REFERENCE_FLAG) {
      var reference := b.Bytes();
      if reference.None? { return None; }
      f := f.(reference := reference.value);
    }
    if HasBit(w.value, WEB_FLAG) {
      var url := b.Bytes();
      if url.None? { return None; }
      return Some(f.(url := url.value));
    }
    var id := b.Int(8);
    if id.None? { return None; }
    var hash := b.Int(8);
    if hash.None? { return None; }
    f := f.(id := id.value, accessHash := hash.value);
    if !Photo(ty) { return Some(f); }
    var source := TakeSource(subVersion, b);
    if source.None? { return None; }
    return Some(f.(source := source.value));
  }

  /** `EncodeFileID` up to its text form. */
  method Pack(f: FileID) returns (bytes: seq<Byte>)
    ensures bytes == EncodeFileID(f)
  {
    var b := new Buffer([]);
    PutFileID(f, b);
    assert [] + EncLatest(f) == EncLatest(f);
    bytes := Rle.RleEncode(b.Buf + [VERSION]);
  }

  /** `DecodeFileID` from the bytes behind the text form. */
  method Unpack(bytes: seq<Byte>) returns (r: Option<FileID>)
    ensures r == DecodeFileID(bytes)
  {
    if bytes == [] { return None; }
    var data := Rle.RleDecode(bytes);
    if |data| < 2 || data[|data| - 1] != VERSION { return None; }
    var b := new Buffer(data[..|data| - 1]);
    r := TakeFileID(b);
  }
}

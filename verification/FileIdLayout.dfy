/**
  The bytes of a file_id, field by field, and what is read of photo sources written by older versions.
 */
module FileIdLayout {
  import opened Bin
  import opened FileId

  // ---------------------------------------------------------------- the current form

  /**
    Two flags above the type, the data centre, the optional reference, then the URL or the rest,
    and the version bytes.
   */
  lemma IdLaidOut(f: FileID)
    requires 0 <= f.ty < 18
    ensures EncLatest(f) + [VERSION] ==
            LE(4, f.ty + (if f.url != [] then 0x100_0000 else 0) + (if f.reference != [] then 0x200_0000 else 0)) +
            (LE(4, f.dc) + ((if f.reference != [] then EncodeBytes(f.reference) else []) +
                            (TailLaidOut(f) + [4])))
  {
    FlagValues();
    FlagBits(f.ty, f.url != [], f.reference != []);
    var w, dc, r := LE(4, TypeWord(f)), LE(4, f.dc), if f.reference != [] then EncodeBytes(f.reference) else [];
    Regroup(w, dc + r, EncTail(f));
    Regroup(dc, r, EncTail(f));
    Regroup(w, dc + (r + EncTail(f)), [VERSION]);
    Regroup(dc, r + EncTail(f), [VERSION]);
    Regroup(r, EncTail(f), [VERSION]);
    TailIsLaidOut(f);
  }

  function TailLaidOut(f: FileID): seq<Byte>
  {
    if f.url != [] then EncodeBytes(f.url)
    else LE(8, f.id) + (LE(8, f.accessHash) + ((if f.ty in {0, 1, 2} then SourceLaidOut(f.source) else []) + [34]))
  }

  /** The variants of a photo source: thumbnails carry types, the others identifiers, volumes and secrets. */
  function SourceLaidOut(p: Source): seq<Byte>
  {
    LE(4, p.ty) +
    (var dialog, sticker := LE(8, p.dialog) + LE(8, p.dialogHash), LE(8, p.sticker) + LE(8, p.stickerHash);
     var place := LE(8, p.volume) + LE(4, p.local);
     match p.ty
     case 0 => LE(8, p.secret)
     case 1 => LE(4, p.fileType) + LE(4, p.thumbnail)
     case 2 => dialog
     case 3 => dialog
     case 4 => sticker
     case 5 => LE(8, p.volume) + LE(8, p.secret) + LE(4, p.local)
     case 6 => dialog + place
     case 7 => dialog + place
     case 8 => sticker + place
     case 9 => sticker + LE(4, p.stickerVersion)
     case _ => [])
  }

  lemma TailIsLaidOut(f: FileID)
    ensures EncTail(f) == TailLaidOut(f)
  {
    SourceIsLaidOut(f.source);
  }

  lemma FirstField(f: Field, fs: seq<Field>, p: Source)
    ensures EncFields([f] + fs, p) == LE(Width(f), Get(p, f)) + EncFields(fs, p)
  {
    assert ([f] + fs)[1..] == fs;
  }

  lemma TwoFields(f: Field, g: Field, fs: seq<Field>, p: Source)
    ensures EncFields([f, g] + fs, p) == LE(Width(f), Get(p, f)) + LE(Width(g), Get(p, g)) + EncFields(fs, p)
  {
    assert [f, g] + fs == [f] + ([g] + fs);
    FirstField(f, [g] + fs, p);
    FirstField(g, fs, p);
    Regroup(LE(Width(f), Get(p, f)), LE(Width(g), Get(p, g)), EncFields(fs, p));
  }

  lemma OnlyOne(f: Field, p: Source)
    ensures EncFields([f], p) == LE(Width(f), Get(p, f))
  {
    FirstField(f, [], p);
    assert [f] + [] == [f];
  }

  lemma OnlyTwo(f: Field, g: Field, p: Source)
    ensures EncFields([f, g], p) == LE(Width(f), Get(p, f)) + LE(Width(g), Get(p, g))
  {
    TwoFields(f, g, [], p);
    assert [f, g] + [] == [f, g];
  }

  /** A source is written as its variant says. */
  lemma SourceIsLaidOut(p: Source)
    ensures EncSource(p) == SourceLaidOut(p)
  {
    match p.ty {
      case 0 => OnlyOne(Secret, p);
      case 1 => OnlyTwo(FileType, Thumbnail, p);
      case 2 => OnlyTwo(Dialog, DialogHash, p);
      case 3 => OnlyTwo(Dialog, DialogHash, p);
      case 4 => OnlyTwo(Sticker, StickerHash, p);
      case 5 =>
        TwoFields(Volume, Secret, [Local], p);
        OnlyOne(Local, p);
        assert [Volume, Secret] + [Local] == [Volume, Secret, Local];
      case 6 => FourFields(Dialog, DialogHash, p);
      case 7 => FourFields(Dialog, DialogHash, p);
      case 8 => FourFields(Sticker, StickerHash, p);
      case 9 =>
        TwoFields(Sticker, StickerHash, [StickerVersion], p);
        OnlyOne(StickerVersion, p);
        assert [Sticker, StickerHash] + [StickerVersion] == [Sticker, StickerHash, StickerVersion];
      case _ =>
    }
  }

  lemma FourFields(f: Field, g: Field, p: Source)
    ensures EncFields([f, g, Volume, Local], p) ==
            LE(Width(f), Get(p, f)) + LE(Width(g), Get(p, g)) + (LE(8, p.volume) + LE(4, p.local))
  {
    TwoFields(f, g, [Volume, Local], p);
    OnlyTwo(Volume, Local, p);
    assert [f, g] + [Volume, Local] == [f, g, Volume, Local];
  }
  // ---------------------------------------------------------------- forms of older versions

  /** Before sub-version 22 a source is a volume, a secret and a local identifier without a variant. */
  lemma EarlySourceRead(subVersion: Byte, volume: int, secret: int, local: int, rest: seq<Byte>)
    requires subVersion < 22 && InRange(8, volume) && InRange(8, secret) && InRange(4, local)
    ensures DecSource(subVersion, LE(8, volume) + (LE(8, secret) + (LE(4, local) + rest))) ==
            Ok(NO_SOURCE.(volume := volume, secret := secret, local := local), rest)
  {
    SignedRoundTrip(8, volume, LE(8, secret) + (LE(4, local) + rest));
    SignedRoundTrip(8, secret, LE(4, local) + rest);
    SignedRoundTrip(4, local, rest);
    var p := NO_SOURCE.(volume := volume);
    ReadFirst(Volume, [Secret, Local], LE(8, volume) + (LE(8, secret) + (LE(4, local) + rest)), NO_SOURCE);
    ReadFirst(Secret, [Local], LE(8, secret) + (LE(4, local) + rest), p);
    ReadFirst(Local, [], LE(4, local) + rest, p.(secret := secret));
  }

  lemma ReadFirst(f: Field, fs: seq<Field>, s: seq<Byte>, p: Source)
    requires ReadField(f, s).Ok?
    ensures DecFields([f] + fs, s, p) == DecFields(fs, ReadField(f, s).rest, Set(p, f, ReadField(f, s).value))
  {
    assert ([f] + fs)[1..] == fs;
  }

  /**
    From sub-version 22 to 31 the variant stands between a volume and a local identifier. The local
    identifier overrides that of the variant, the volume only stays where the variant has none.
   */
  lemma MiddleSourceRead(subVersion: Byte, q: Source, volume: int, local: int, rest: seq<Byte>)
    requires 22 <= subVersion < 32 && WellFormedSource(q) && InRange(8, volume) && InRange(4, local)
    ensures DecSource(subVersion, LE(8, volume) + (EncSource(q) + (LE(4, local) + rest))) ==
            Ok(q.(volume := if q.ty in {5, 6, 7, 8} then q.volume else volume, local := local), rest)
  {
    var fields, tail := EncFields(Layout(q.ty), q), LE(4, local) + rest;
    SignedRoundTrip(8, volume, EncSource(q) + tail);
    ReadFirst(Volume, [], LE(8, volume) + (EncSource(q) + tail), NO_SOURCE);
    assert [Volume] + [] == [Volume];
    assert DecFields([Volume], LE(8, volume) + (EncSource(q) + tail), NO_SOURCE) ==
           Ok(NO_SOURCE.(volume := volume), EncSource(q) + tail);
    Regroup(LE(4, q.ty), fields, tail);
    Pow256Values();
    SignedRoundTrip(4, q.ty, fields + tail);
    VariantThenLocal(q, volume, local, rest);
  }

  lemma VariantThenLocal(q: Source, volume: int, local: int, rest: seq<Byte>)
    requires WellFormedSource(q) && InRange(4, local)
    ensures DecFields(Layout(q.ty) + [Local], EncFields(Layout(q.ty), q) + (LE(4, local) + rest),
                      NO_SOURCE.(volume := volume, ty := q.ty)) ==
            Ok(q.(volume := if q.ty in {5, 6, 7, 8} then q.volume else volume, local := local), rest)
  {
    var p := NO_SOURCE.(volume := volume, ty := q.ty);
    FieldsThenLocal(Layout(q.ty), q, p, local, rest);
    var r := DecFields(Layout(q.ty) + [Local], EncFields(Layout(q.ty), q) + (LE(4, local) + rest), p).value;
    Merged(q, volume, local, r);
  }

  lemma Merged(q: Source, volume: int, local: int, r: Source)
    requires WellFormedSource(q) && r.ty == q.ty && r.photoSize == q.photoSize
    requires forall f :: Get(r, f) == if f.Local? then local else if f in Layout(q.ty) then Get(q, f)
                                      else if f.Volume? then volume else 0
    ensures r == q.(volume := if q.ty in {5, 6, 7, 8} then q.volume else volume, local := local)
  {
    assert Volume in Layout(q.ty) <==> q.ty in {5, 6, 7, 8};
    var x := q.(volume := if q.ty in {5, 6, 7, 8} then q.volume else volume, local := local);
    forall f ensures Get(r, f) == Get(x, f) {
      if f !in Layout(q.ty) { assert Get(q, f) == 0; }
    }
    SourceExtensional(r, x);
  }

  /** Fields of the variant come from `q`, the others are as they were; the local identifier is read last. */
  lemma {:induction false} FieldsThenLocal(fs: seq<Field>, q: Source, p: Source, local: int, rest: seq<Byte>)
    requires (forall f :: f in fs ==> FitsField(f, Get(q, f))) && InRange(4, local)
    ensures var r := DecFields(fs + [Local], EncFields(fs, q) + (LE(4, local) + rest), p);
            && r.Ok? && r.rest == rest && r.value.ty == p.ty && r.value.photoSize == p.photoSize
            && forall f :: Get(r.value, f) == if f.Local? then local else if f in fs then Get(q, f) else Get(p, f)
    decreases |fs|
  {
    var tail := LE(4, local) + rest;
    if fs == [] {
      SignedRoundTrip(4, local, rest);
      assert [] + tail == tail;
      ReadFirst(Local, [], tail, p);
      forall g ensures Get(Set(p, Local, local), g) == if g.Local? then local else Get(p, g) {
        SetGet(p, Local, local, g);
      }
    } else {
      var f := fs[0];
      Regroup(LE(Width(f), Get(q, f)), EncFields(fs[1..], q), tail);
      FieldRoundTrip(f, Get(q, f), EncFields(fs[1..], q) + tail);
      assert fs + [Local] == [f] + (fs[1..] + [Local]);
      ReadFirst(f, fs[1..] + [Local], EncFields(fs, q) + tail, p);
      var p' := Set(p, f, Get(q, f));
      forall g ensures Get(p', g) == if g == f then Get(q, f) else Get(p, g) { SetGet(p, f, Get(q, f), g); }
      FieldsThenLocal(fs[1..], q, p', local, rest);
    }
  }
}

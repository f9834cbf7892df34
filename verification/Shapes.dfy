/**
  Body shape digests: the stream hashed for a definition, and why comparing digests
  amounts to comparing the ordered fields.
 */
module Shapes {
  import opened Bin
  import opened Schema
  import opened Streams

  const DOMAIN := "gotd.tl.semantic.body.v1"

  function Flag(b: bool): seq<Byte>
  {
    [if b then 1 else 0]
  }

  function KindByte(k: TypeKind): Byte
  {
    match k
    case TypePrimitive => 0
    case TypeNamed => 1
    case TypeVector => 2
    case TypeGenericRef => 3
  }

  function Name(s: string): seq<Byte>
  {
    Blob(Text(s))
  }

  function TypeBytes(t: TypeRef): seq<Byte>
  {
    TypeHeader(t) + (if t.arg.Some? then TypeBytes(t.arg.value) else [])
  }

  function TypeHeader(t: TypeRef): seq<Byte>
  {
    [KindByte(t.kind)] + (Name(t.qname) + (Flag(t.bare) + (Flag(t.percent) + Flag(t.arg.Some?))))
  }

  function ConditionBytes(c: Option<Condition>): seq<Byte>
  {
    match c
    case None => Flag(false)
    case Some(cond) => Flag(true) + (Name(cond.word) + ([cond.bit % 256] + Flag(cond.presenceOnly)))
  }

  function FieldBytes(f: FieldShape): seq<Byte>
  {
    [if f.kind.FieldValue? then 0 else 1] + (Name(f.name) + (LE(8, f.ordinal) +
    ((if f.kind.FieldValue? then TypeBytes(f.ty) else []) + ConditionBytes(f.cond))))
  }

  /** Everything hashed into the body shape of a definition. */
  function BodyStream(d: Definition): seq<Byte>
  {
    BodyStreamIn(DOMAIN, d)
  }

  function BodyStreamIn(domain: string, d: Definition): seq<Byte>
  {
    Name(domain) + (Flag(d.base) + (LE(8, |d.genericParams|) + (List(Name, d.genericParams) + FieldSection(d))))
  }

  // ---------------------------------------------------------------- what fits

  ghost predicate FitsName(s: string)
  {
    ByteString(s) && |s| < WORD
  }

  ghost predicate FitsType(t: TypeRef)
  {
    FitsName(t.qname) && (t.arg.Some? ==> FitsType(t.arg.value))
  }

  ghost predicate FitsField(f: FieldShape)
  {
    && FitsName(f.name) && f.ordinal < WORD && FitsType(f.ty)
    && (f.cond.Some? ==> FitsName(f.cond.value.word) && f.cond.value.bit < 256)
  }

  /** Names are byte strings and lengths fit 64 bits, as they do for every Go value. */
  ghost predicate FitsDefinition(d: Definition)
  {
    && |d.genericParams| < WORD && |d.fields| < WORD
    && (forall i :: 0 <= i < |d.genericParams| ==> FitsName(d.genericParams[i]))
    && (forall i :: 0 <= i < |d.fields| ==> FitsField(d.fields[i]))
  }

  // ---------------------------------------------------------------- unique parsing

  lemma ByteCancel(a: Byte, b: Byte, x: seq<Byte>, y: seq<Byte>)
    requires [a] + x == [b] + y
    ensures a == b && x == y
  {
    assert a == ([a] + x)[0] && b == ([b] + y)[0];
    assert x == ([a] + x)[1..] && y == ([b] + y)[1..];
  }

  lemma FlagCancel(a: bool, b: bool, x: seq<Byte>, y: seq<Byte>)
    requires Flag(a) + x == Flag(b) + y
    ensures a == b && x == y
  {
    ByteCancel(if a then 1 else 0, if b then 1 else 0, x, y);
  }

  lemma NameCancel(a: string, b: string, x: seq<Byte>, y: seq<Byte>)
    requires FitsName(a) && FitsName(b) && Name(a) + x == Name(b) + y
    ensures a == b && x == y
  {
    BlobCancel(Text(a), Text(b), x, y);
    TextInjective(a, b);
  }

  lemma TypeHeaderRest(t: TypeRef, x: seq<Byte>)
    ensures TypeHeader(t) + x ==
            [KindByte(t.kind)] + (Name(t.qname) + (Flag(t.bare) + (Flag(t.percent) + (Flag(t.arg.Some?) + x))))
  {
    var a, b, c, d, e := [KindByte(t.kind)], Name(t.qname), Flag(t.bare), Flag(t.percent), Flag(t.arg.Some?);
    Regroup(a, b + (c + (d + e)), x);
    Regroup(b, c + (d + e), x);
    Regroup(c, d + e, x);
    Regroup(d, e, x);
  }

  lemma TypeHeaderCancel(t: TypeRef, u: TypeRef, x: seq<Byte>, y: seq<Byte>)
    requires FitsType(t) && FitsType(u) && TypeHeader(t) + x == TypeHeader(u) + y
    ensures t.kind == u.kind && t.qname == u.qname && t.bare == u.bare && t.percent == u.percent &&
            t.arg.Some? == u.arg.Some?
    ensures x == y
  {
    TypeHeaderRest(t, x);
    TypeHeaderRest(u, y);
    var x1, y1 := Flag(t.arg.Some?) + x, Flag(u.arg.Some?) + y;
    var x2, y2 := Flag(t.percent) + x1, Flag(u.percent) + y1;
    var x3, y3 := Flag(t.bare) + x2, Flag(u.bare) + y2;
    ByteCancel(KindByte(t.kind), KindByte(u.kind), Name(t.qname) + x3, Name(u.qname) + y3);
    NameCancel(t.qname, u.qname, x3, y3);
    FlagCancel(t.bare, u.bare, x2, y2);
    FlagCancel(t.percent, u.percent, x1, y1);
    FlagCancel(t.arg.Some?, u.arg.Some?, x, y);
  }

  /** A type reference of any nesting is read back unambiguously. */
  lemma {:induction false} TypeCancel(t: TypeRef, u: TypeRef, x: seq<Byte>, y: seq<Byte>)
    requires FitsType(t) && FitsType(u) && TypeBytes(t) + x == TypeBytes(u) + y
    ensures t == u && x == y
    decreases t
  {
    var ta := if t.arg.Some? then TypeBytes(t.arg.value) else [];
    var ua := if u.arg.Some? then TypeBytes(u.arg.value) else [];
    Regroup(TypeHeader(t), ta, x);
    Regroup(TypeHeader(u), ua, y);
    TypeHeaderCancel(t, u, ta + x, ua + y);
    if t.arg.Some? {
      TypeCancel(t.arg.value, u.arg.value, x, y);
    } else {
      assert [] + x == x && [] + y == y;
    }
  }

  lemma ConditionCancel(a: Option<Condition>, b: Option<Condition>, x: seq<Byte>, y: seq<Byte>)
    requires a.Some? ==> FitsName(a.value.word) && a.value.bit < 256
    requires b.Some? ==> FitsName(b.value.word) && b.value.bit < 256
    requires ConditionBytes(a) + x == ConditionBytes(b) + y
    ensures a == b && x == y
  {
    var ax := if a.Some? then Name(a.value.word) + ([a.value.bit] + (Flag(a.value.presenceOnly) + x)) else x;
    var bx := if b.Some? then Name(b.value.word) + ([b.value.bit] + (Flag(b.value.presenceOnly) + y)) else y;
    ConditionRest(a, x);
    ConditionRest(b, y);
    FlagCancel(a.Some?, b.Some?, ax, bx);
    if a.Some? {
      var p, q := Flag(a.value.presenceOnly) + x, Flag(b.value.presenceOnly) + y;
      NameCancel(a.value.word, b.value.word, [a.value.bit] + p, [b.value.bit] + q);
      ByteCancel(a.value.bit, b.value.bit, p, q);
      FlagCancel(a.value.presenceOnly, b.value.presenceOnly, x, y);
    }
  }

  lemma ConditionRest(a: Option<Condition>, x: seq<Byte>)
    requires a.Some? ==> a.value.bit < 256
    ensures ConditionBytes(a) + x ==
            Flag(a.Some?) + (if a.Some? then Name(a.value.word) + ([a.value.bit] + (Flag(a.value.presenceOnly) + x))
                             else x)
  {
    if a.Some? {
      var n, b, f := Name(a.value.word), [a.value.bit], Flag(a.value.presenceOnly);
      Regroup(Flag(true), n + (b + f), x);
      Regroup(n, b + f, x);
      Regroup(b, f, x);
    }
  }

  /** The part of a field that the digest covers: the type of a flags word is not. */
  function Covered(f: FieldShape): FieldShape
  {
    if f.kind.FieldValue? then f else f.(ty := TypeRef(TypePrimitive, "", false, false, None))
  }

  function CoveredFields(fs: seq<FieldShape>): (r: seq<FieldShape>)
    ensures |r| == |fs| && forall i :: 0 <= i < |fs| ==> r[i] == Covered(fs[i])
  {
    seq(|fs|, i requires 0 <= i < |fs| => Covered(fs[i]))
  }

  lemma {:induction false} CoveredSameBytes(fs: seq<FieldShape>)
    ensures List(FieldBytes, CoveredFields(fs)) == List(FieldBytes, fs)
  {
    if fs != [] {
      var n := |fs| - 1;
      CoveredSameBytes(fs[..n]);
      assert CoveredFields(fs)[..n] == CoveredFields(fs[..n]);
      CoveredFieldSameBytes(fs[n]);
    }
  }

  lemma CoveredFieldSameBytes(f: FieldShape)
    ensures FieldBytes(Covered(f)) == FieldBytes(f)
  {
  }

  lemma FieldRest(f: FieldShape, x: seq<Byte>)
    ensures FieldBytes(f) + x ==
            [if f.kind.FieldValue? then 0 else 1] + (Name(f.name) + (LE(8, f.ordinal) +
            ((if f.kind.FieldValue? then TypeBytes(f.ty) else []) + (ConditionBytes(f.cond) + x))))
  {
    var k: Byte := if f.kind.FieldValue? then 0 else 1;
    var n, o, c := Name(f.name), LE(8, f.ordinal), ConditionBytes(f.cond);
    var t := if f.kind.FieldValue? then TypeBytes(f.ty) else [];
    Regroup([k], n + (o + (t + c)), x);
    Regroup(n, o + (t + c), x);
    Regroup(o, t + c, x);
    Regroup(t, c, x);
  }

  lemma FieldCancel(f: FieldShape, g: FieldShape, x: seq<Byte>, y: seq<Byte>)
    requires FitsField(f) && FitsField(g) && FieldBytes(f) + x == FieldBytes(g) + y
    ensures Covered(f) == Covered(g) && x == y
  {
    FieldRest(f, x);
    FieldRest(g, y);
    var ft := if f.kind.FieldValue? then TypeBytes(f.ty) else [];
    var gt := if g.kind.FieldValue? then TypeBytes(g.ty) else [];
    var x1, y1 := ConditionBytes(f.cond) + x, ConditionBytes(g.cond) + y;
    var x2, y2 := LE(8, f.ordinal) + (ft + x1), LE(8, g.ordinal) + (gt + y1);
    ByteCancel(if f.kind.FieldValue? then 0 else 1, if g.kind.FieldValue? then 0 else 1, Name(f.name) + x2,
               Name(g.name) + y2);
    NameCancel(f.name, g.name, x2, y2);
    WordCancel(f.ordinal, g.ordinal, ft + x1, gt + y1);
    if f.kind.FieldValue? {
      TypeCancel(f.ty, g.ty, x1, y1);
    } else {
      assert [] + x1 == x1 && [] + y1 == y1;
    }
    ConditionCancel(f.cond, g.cond, x, y);
  }

  lemma FieldSplits(f: FieldShape, g: FieldShape)
    requires FitsField(f) && FitsField(g)
    ensures Splits(FieldBytes, Covered(f), Covered(g))
  {
    CoveredFieldSameBytes(f);
    CoveredFieldSameBytes(g);
    forall x, y | FieldBytes(Covered(f)) + x == FieldBytes(Covered(g)) + y ensures Covered(f) == Covered(g) && x == y {
      FieldCancel(f, g, x, y);
    }
  }

  lemma FieldsCancel(a: seq<FieldShape>, b: seq<FieldShape>)
    requires |a| == |b| && forall i :: 0 <= i < |a| ==> FitsField(a[i]) && FitsField(b[i])
    requires List(FieldBytes, a) == List(FieldBytes, b)
    ensures forall i :: 0 <= i < |a| ==> SameFieldShape(a[i], b[i])
  {
    forall i | 0 <= i < |a| ensures Splits(FieldBytes, CoveredFields(a)[i], CoveredFields(b)[i]) {
      FieldSplits(a[i], b[i]);
    }
    CoveredSameBytes(a);
    CoveredSameBytes(b);
    ListCancel(FieldBytes, CoveredFields(a), CoveredFields(b), [], []);
    assert forall i :: 0 <= i < |a| ==> CoveredFields(a)[i] == CoveredFields(b)[i];
  }

  lemma NamesCancel(a: seq<string>, b: seq<string>, x: seq<Byte>, y: seq<Byte>)
    requires |a| == |b| && forall i :: 0 <= i < |a| ==> FitsName(a[i]) && FitsName(b[i])
    requires List(Name, a) + x == List(Name, b) + y
    ensures a == b && x == y
  {
    forall i | 0 <= i < |a| ensures Splits(Name, a[i], b[i]) {
      forall p, q | Name(a[i]) + p == Name(b[i]) + q ensures a[i] == b[i] && p == q {
        NameCancel(a[i], b[i], p, q);
      }
    }
    ListCancel(Name, a, b, x, y);
  }

  function FieldSection(d: Definition): seq<Byte>
  {
    LE(8, |d.fields|) + List(FieldBytes, d.fields)
  }

  lemma HeaderCancel(domain: string, a: Definition, b: Definition, x: seq<Byte>, y: seq<Byte>)
    requires FitsName(domain) && FitsDefinition(a) && FitsDefinition(b)
    requires Name(domain) + (Flag(a.base) + (LE(8, |a.genericParams|) + (List(Name, a.genericParams) + x))) ==
             Name(domain) + (Flag(b.base) + (LE(8, |b.genericParams|) + (List(Name, b.genericParams) + y)))
    ensures a.base == b.base && a.genericParams == b.genericParams && x == y
  {
    var x3, y3 := List(Name, a.genericParams) + x, List(Name, b.genericParams) + y;
    var x4, y4 := LE(8, |a.genericParams|) + x3, LE(8, |b.genericParams|) + y3;
    NameCancel(domain, domain, Flag(a.base) + x4, Flag(b.base) + y4);
    FlagCancel(a.base, b.base, x4, y4);
    WordCancel(|a.genericParams|, |b.genericParams|, x3, y3);
    NamesCancel(a.genericParams, b.genericParams, x, y);
  }

  lemma FieldSectionCancel(a: Definition, b: Definition)
    requires FitsDefinition(a) && FitsDefinition(b) && FieldSection(a) == FieldSection(b)
    ensures |a.fields| == |b.fields| && forall i :: 0 <= i < |a.fields| ==> SameFieldShape(a.fields[i], b.fields[i])
  {
    WordCancel(|a.fields|, |b.fields|, List(FieldBytes, a.fields), List(FieldBytes, b.fields));
    FieldsCancel(a.fields, b.fields);
  }

  lemma SameBodySameFields(a: Definition, b: Definition)
    requires SameBody(a, b)
    ensures FieldSection(a) == FieldSection(b)
  {
    CoveredSameBytes(a.fields);
    CoveredSameBytes(b.fields);
    assert CoveredFields(a.fields) == CoveredFields(b.fields);
  }

  lemma StreamsEqualIn(domain: string, a: Definition, b: Definition)
    requires FitsName(domain) && FitsDefinition(a) && FitsDefinition(b)
    ensures BodyStreamIn(domain, a) == BodyStreamIn(domain, b) <==> SameBody(a, b)
  {
    if SameBody(a, b) {
      SameBodySameFields(a, b);
    } else if BodyStreamIn(domain, a) == BodyStreamIn(domain, b) {
      HeaderCancel(domain, a, b, FieldSection(a), FieldSection(b));
      FieldSectionCancel(a, b);
    }
  }

  lemma DomainFits()
    ensures FitsName(DOMAIN)
  {
  }

  /** Two definitions hash the same bytes exactly when base flag, generic parameters and ordered fields agree. */
  lemma BodyStreamsEqualIffSameBody(a: Definition, b: Definition)
    requires FitsDefinition(a) && FitsDefinition(b)
    ensures BodyStream(a) == BodyStream(b) <==> SameBody(a, b)
  {
    DomainFits();
    StreamsEqualIn(DOMAIN, a, b);
  }
  /** A type begins with the number of its kind: primitive, named, vector or generic. */
  lemma KindsNumbered(t: TypeRef)
    ensures TypeBytes(t)[0] == match t.kind case TypePrimitive => 0 case TypeNamed => 1 case TypeVector => 2 case _ => 3
  {
    assert TypeBytes(t)[0] == TypeHeader(t)[0] == KindByte(t.kind);
  }
}

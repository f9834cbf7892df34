/**
  The smallest encoding of a type, used to refuse vectors that cannot fit the remaining input
  before any element is read.
 */
module WireSize {
  import opened Bin
  import opened Schema
  import opened Values
  import opened LayerCodec

  /** The lower bound the compiler emits for a type. */
  function MinimumSize(t: TypeRef): nat
  {
    match t.kind
    case TypePrimitive =>
      if t.qname in {"int", "Int", "int32", "bool", "Bool", "true", "false", "True"} then 4
      else if t.qname in {"int53", "int64", "long", "Long", "double", "Double"} then 8
      else if t.qname == "int128" then 16
      else if t.qname == "int256" then 32
      else if t.qname in {"bytes", "Bytes", "string", "String", "Object"} then 4
      else 0
    case TypeVector => if t.qname == "Vector" && !t.bare && !t.percent then 8 else 4
    case TypeNamed => if t.bare || t.percent then 0 else 4
    case TypeGenericRef => 4
  }

  function ElementMinimumSize(t: TypeRef): nat
  {
    if t.kind.TypeVector? && t.arg.Some? then MinimumSize(t.arg.value) else 0
  }

  // ---------------------------------------------------------------- encodings

  /** Whole words, and no shorter than `least`. */
  ghost predicate Sized(r: Res, least: nat)
  {
    r.Wrote? ==> |r.bytes| % 4 == 0 && |r.bytes| >= least
  }

  lemma PrimitiveSize(t: TypeRef, v: Value)
    requires PlainPrimitive(t)
    ensures Sized(EncPrim(t.qname, v), MinimumSize(t))
  {
    if PrimFits(KindOf(t.qname), v) && (KindOf(t.qname).KBytes? || KindOf(t.qname).KString?) {
      BytesAligned(if v.Nil? then [] else v.p.data);
    }
  }

  lemma {:induction false} KeptSize(parts: seq<Res>, least: nat)
    requires forall i :: 0 <= i < |parts| ==> Sized(parts[i], least)
    ensures |KeptBytes(parts)| % 4 == 0 && |KeptBytes(parts)| >= KeptCount(parts) * least
  {
    if parts != [] {
      KeptSize(parts[1..], least);
      OneMore(KeptCount(parts[1..]), least);
      assert Sized(parts[0], least);
    }
  }

  lemma {:induction false} EmitSize(c: Definition, p: Definition, slots: seq<Slot>, parts: seq<Res>, i: nat)
    requires Aligned(c, slots) && |parts| == |p.fields| && i <= |p.fields|
    requires forall k :: 0 <= k < |parts| ==> Sized(parts[k], 0)
    ensures Sized(EmitFrom(c, p, slots, parts, i), 0)
    decreases |p.fields| - i
  {
    if i < |p.fields| {
      EmitSize(c, p, slots, parts, i + 1);
      assert Sized(Emitted(c, p, slots, parts, i), 0);
      ThenSized(Emitted(c, p, slots, parts, i), EmitFrom(c, p, slots, parts, i + 1));
    }
  }

  lemma ThenSized(a: Res, b: Res)
    requires Sized(a, 0) && Sized(b, 0)
    ensures Sized(Then(a, b), 0)
  {
  }

  lemma {:induction false} BareSize(env: Env, v: Value, depth: nat)
    requires v.Obj?
    ensures Sized(EncBare(env, v, depth), 0) && Sized(EncBoxed(env, v, depth), 4) && Sized(EncFamily(env, v, depth), 4)
    decreases v, 0
  {
    if depth < MAX_DEPTH && Encodable(env, v) {
      var c, p, parts := env.canonical.byKey[v.key], env.profile.byKey[v.key], EncParts(env, v, depth + 1);
      forall i | 0 <= i < |parts| ensures Sized(parts[i], 0) {
        var j := At(c, p, i);
        assert parts[i] == EncPart(env, v, i, depth + 1);
        if p.fields[i].kind.FieldValue? && j < |v.slots| && v.slots[j].Val? {
          EncodingSize(env, p.fields[i].ty, v.slots[j].v, depth + 1);
        }
      }
      EmitSize(c, p, v.slots, parts, 0);
    }
  }

  /** Every encoding is a whole number of words and at least the compiler's minimum. */
  lemma {:induction false} EncodingSize(env: Env, t: TypeRef, v: Value, depth: nat)
    ensures Sized(EncValue(env, t, v, depth), MinimumSize(t))
    decreases v, 1
  {
    if PlainPrimitive(t) {
      PrimitiveSize(t, v);
    } else if t.kind.TypeVector? {
      if t.arg.Some? && (v.Nil? || v.Vec?) { VectorSize(env, t, v, depth); }
    } else if v.Obj? {
      BareSize(env, v, depth);
    }
  }

  // ---------------------------------------------------------------- primitives byte for byte

  /** Numbers are words of 4 or 8 bytes. */
  lemma NumberBytes(name: string, v: Value)
    requires v.Prim?
    ensures name in {"int", "Int", "int32"} && v.p.PInt? && InRange(4, v.p.v) ==>
              EncPrim(name, v) == Wrote(LE(4, v.p.v))
    ensures name in {"int53", "int64", "long", "Long"} && v.p.PLong? && InRange(8, v.p.v) ==>
              EncPrim(name, v) == Wrote(LE(8, v.p.v))
    ensures name in {"double", "Double"} && v.p.PDouble? && v.p.bits < 0x1_0000_0000_0000_0000 ==>
              EncPrim(name, v) == Wrote(LE(8, v.p.bits))
  {
    Pow256Values();
  }

  /** Blocks of fixed length are written as they are, byte strings with their length, and nil as an empty one. */
  lemma BlockBytes(name: string, v: Value)
    ensures v.Prim? && v.p.PRaw? &&
            ((name == "int128" && |v.p.data| == 16) || (name == "int256" && |v.p.data| == 32)) ==>
              EncPrim(name, v) == Wrote(v.p.data)
    ensures name in {"bytes", "Bytes", "string", "String"} && v.Prim? && v.p.PBytes? && 0 < |v.p.data| <= 0xFF_FFFF ==>
              EncPrim(name, v) == Wrote(EncodeBytes(v.p.data))
    ensures name in {"bytes", "Bytes", "string", "String"} && v.Nil? ==> EncPrim(name, v) == Wrote(EncodeBytes([]))
  {
  }

  /** A bool is the identifier of its constructor. */
  lemma BoolBytes(name: string, b: bool)
    requires name in {"bool", "Bool", "true", "false", "True"}
    ensures EncPrim(name, Prim(PBool(b))) == Wrote(if b then [0xb5, 0x75, 0x72, 0x99] else [0x37, 0x97, 0x79, 0xbc])
  {
    IdentifierBytes();
  }

  // ---------------------------------------------------------------- the minimum is not too small

  ghost predicate Attains(env: Env, t: TypeRef, v: Value, depth: nat)
  {
    EncValue(env, t, v, depth).Wrote? && |EncValue(env, t, v, depth).bytes| == MinimumSize(t)
  }

  /** A value of a primitive that takes no more than it must. */
  function Smallest(k: PrimKind): Value
  {
    match k
    case KInt => Prim(PInt(0))
    case KLong => Prim(PLong(0))
    case KDouble => Prim(PDouble(0))
    case KRaw(n) => Prim(PRaw(Zeros(n)))
    case KBool => Prim(PBool(false))
    case _ => Nil
  }

  lemma PrimitiveAttained(env: Env, t: TypeRef, depth: nat)
    requires PlainPrimitive(t) && !KindOf(t.qname).KUnknown?
    ensures Attains(env, t, Smallest(KindOf(t.qname)), depth)
  {
    if KindOf(t.qname).KBytes? || KindOf(t.qname).KString? { BytesAligned([]); assert |EncodeBytes([])| == 4; }
  }

  /** Every primitive and every vector has a value of exactly the minimum size. */
  lemma MinimumAttained(env: Env, t: TypeRef, depth: nat) returns (v: Value)
    requires (PlainPrimitive(t) && !KindOf(t.qname).KUnknown?) || (t.kind.TypeVector? && t.arg.Some?)
    ensures Attains(env, t, v, depth)
  {
    if PlainPrimitive(t) {
      v := Smallest(KindOf(t.qname));
      PrimitiveAttained(env, t, depth);
    } else {
      v := Nil;
    }
  }

  /** So has every class or bare type that contains a constructor without fields. */
  lemma MinimumOfEmpty(env: Env, t: TypeRef, k: Key, depth: nat) returns (v: Value)
    requires t.kind.TypeNamed? && depth < MAX_DEPTH && Routed(env, k)
    requires env.canonical.byKey[k].fields == [] == env.profile.byKey[k].fields
    requires if BareNamed(t) then k == Key(CategoryType, t.qname) else k in ClassGroup(env, t.qname)
    ensures Attains(env, t, v, depth)
  {
    v := Obj(k, [], !BareNamed(t) && !Singular(env, t.qname));
    assert EncParts(env, v, depth + 1) == [];
    assert EncBare(env, v, depth) == Wrote([]);
    assert BareNamed(t) ==> EncValue(env, t, v, depth) == EncBare(env, v, depth);
    assert !BareNamed(t) ==> EncValue(env, t, v, depth) == EncBoxed(env, v, depth);
  }

  /** A vector that keeps n elements takes at least its header and n times the element minimum. */
  lemma {:induction false} VectorSize(env: Env, t: TypeRef, v: Value, depth: nat)
    requires t.kind.TypeVector? && t.arg.Some? && (v.Nil? || v.Vec?)
    ensures var parts := EncItems(env, t.arg.value, v, depth);
            Sized(AssembleVector(BoxedVector(t), parts), MinimumSize(t) + KeptCount(parts) * ElementMinimumSize(t))
    ensures Sized(EncValue(env, t, v, depth), MinimumSize(t))
    decreases v, 0
  {
    var parts := EncItems(env, t.arg.value, v, depth);
    forall i | 0 <= i < |parts| ensures Sized(parts[i], MinimumSize(t.arg.value)) {
      EncodingSize(env, t.arg.value, v.items[i], depth);
    }
    KeptSize(parts, MinimumSize(t.arg.value));
    AssembledSize(t, parts);
  }

  lemma {:induction false} AssembledSize(t: TypeRef, parts: seq<Res>)
    requires t.kind.TypeVector? && t.arg.Some?
    requires |KeptBytes(parts)| % 4 == 0 && |KeptBytes(parts)| >= KeptCount(parts) * ElementMinimumSize(t)
    ensures Sized(AssembleVector(BoxedVector(t), parts), MinimumSize(t) + KeptCount(parts) * ElementMinimumSize(t))
    ensures Sized(AssembleVector(BoxedVector(t), parts), MinimumSize(t))
  {
    assert KeptCount(parts) * ElementMinimumSize(t) >= 0;
  }

  // ---------------------------------------------------------------- decoding

  lemma ReadPrimConsumes(t: TypeRef, s: seq<Byte>)
    requires PlainPrimitive(t) && ReadPrim(KindOf(t.qname), s).Ok?
    ensures |ReadPrim(KindOf(t.qname), s).rest| + MinimumSize(t) <= |s|
  {
    KindConsumes(KindOf(t.qname), s);
    KindMinimum(t);
  }

  /** The least size of a primitive on the wire. */
  function Least(k: PrimKind): nat
  {
    match k
    case KInt => 4
    case KLong => 8
    case KDouble => 8
    case KRaw(n) => n
    case KBytes => 4
    case KString => 4
    case KBool => 4
    case KUnknown => 0
  }

  lemma KindMinimum(t: TypeRef)
    requires PlainPrimitive(t)
    ensures MinimumSize(t) <= Least(KindOf(t.qname))
  {
  }

  lemma KindConsumes(k: PrimKind, s: seq<Byte>)
    requires ReadPrim(k, s).Ok?
    ensures |ReadPrim(k, s).rest| + Least(k) <= |s|
  {
  }

  /** A successful decode consumes at least the minimum, so too short an input can be refused at once. */
  lemma {:induction false} DecodingConsumes(env: Env, lim: Limits, t: TypeRef, s: seq<Byte>, depth: nat, left: nat)
    requires DecValue(env, lim, t, s, depth, left).Got?
    ensures |DecValue(env, lim, t, s, depth, left).rest| + MinimumSize(t) <= |s|
    decreases Room(lim, depth), 2
  {
    match t.kind {
      case TypePrimitive =>
        if IsObjectType(t) {
          ClassConsumes(env, lim, env.canonical.byKey.Keys, s, depth, left);
        } else {
          ReadPrimConsumes(t, s);
        }
      case TypeVector => VectorConsumes(env, lim, t, s, depth, left);
      case TypeNamed =>
        if BareNamed(t) {
          BareConsumes(env, lim, Key(CategoryType, t.qname), false, s, depth, left);
        } else if Singular(env, t.qname) {
          var k :| k in ClassGroup(env, t.qname) &&
            DecValue(env, lim, t, s, depth, left) == DecWire(env, lim, k, false, s, depth, left);
          WireConsumes(env, lim, k, false, s, depth, left);
        } else {
          ClassConsumes(env, lim, ClassGroup(env, t.qname), s, depth, left);
        }
      case TypeGenericRef =>
    }
  }

  lemma {:induction false} VectorConsumes(env: Env, lim: Limits, t: TypeRef, s: seq<Byte>, depth: nat, left: nat)
    requires t.kind.TypeVector? && t.arg.Some? && DecVector(env, lim, t, s, depth, left).Got?
    ensures ReadVectorLength(BoxedVector(t), s).Ok? && ReadVectorLength(BoxedVector(t), s).value >= 0
    ensures |DecVector(env, lim, t, s, depth, left).rest| + MinimumSize(t) +
            ReadVectorLength(BoxedVector(t), s).value * ElementMinimumSize(t) <= |s|
    decreases Room(lim, depth), 1
  {
    var n, rest := ReadVectorLength(BoxedVector(t), s).value, ReadVectorLength(BoxedVector(t), s).rest;
    assert |rest| + MinimumSize(t) == |s|;
    ItemsConsume(env, lim, t.arg.value, n, rest, depth + 1, left - n);
  }

  /** n elements need at least n times the element minimum. */
  lemma {:induction false} ItemsConsume(env: Env, lim: Limits, t: TypeRef, n: nat, s: seq<Byte>, depth: nat, left: nat)
    requires DecItems(env, lim, t, n, s, depth, left).Got?
    ensures |DecItems(env, lim, t, n, s, depth, left).rest| + n * MinimumSize(t) <= |s|
    decreases Room(lim, depth), 3, n
  {
    if n > 0 {
      var d := FirstItem(env, lim, t, n, s, depth, left);
      DecodingConsumes(env, lim, t, s, depth, left);
      ItemsConsume(env, lim, t, n - 1, d.rest, depth, d.left);
      OneMore(n - 1, MinimumSize(t));
    }
  }

  lemma FirstItem(env: Env, lim: Limits, t: TypeRef, n: nat, s: seq<Byte>, depth: nat, left: nat)
    returns (d: Dec<Value>)
    requires n > 0 && DecItems(env, lim, t, n, s, depth, left).Got?
    ensures d == DecValue(env, lim, t, s, depth, left) && d.Got? &&
            DecItems(env, lim, t, n - 1, d.rest, depth, d.left).Got?
    ensures DecItems(env, lim, t, n, s, depth, left).rest == DecItems(env, lim, t, n - 1, d.rest, depth, d.left).rest
  {
    d := DecValue(env, lim, t, s, depth, left);
  }

  lemma {:induction false} ClassConsumes(env: Env, lim: Limits, allowed: set<Key>, s: seq<Byte>, depth: nat, left: nat)
    requires DecClass(env, lim, allowed, s, depth, left).Got?
    ensures |DecClass(env, lim, allowed, s, depth, left).rest| + 4 <= |s|
    decreases Room(lim, depth), 1
  {
    var k := WireKey(env.profile, ReadWord(4, s).value).value;
    WireConsumes(env, lim, k, true, s, depth, left);
  }

  lemma {:induction false} WireConsumes(env: Env, lim: Limits, k: Key, iface: bool, s: seq<Byte>, depth: nat, left: nat)
    requires DecWire(env, lim, k, iface, s, depth, left).Got?
    ensures |DecWire(env, lim, k, iface, s, depth, left).rest| + 4 <= |s|
    decreases Room(lim, depth), 0, 1
  {
    var rest := ReadId(env.profile.byKey[k].wireID, s).rest;
    BareConsumes(env, lim, k, iface, rest, depth, left);
  }

  lemma {:induction false} BareConsumes(env: Env, lim: Limits, k: Key, iface: bool, s: seq<Byte>, depth: nat, left: nat)
    requires DecBare(env, lim, k, iface, s, depth, left).Got?
    ensures |DecBare(env, lim, k, iface, s, depth, left).rest| <= |s|
    decreases Room(lim, depth), 0, 0
  {
    FieldsConsume(env, lim, k, 0, map[], s, depth + 1, left);
  }

  lemma {:induction false} FieldsConsume(env: Env, lim: Limits, k: Key, i: nat, words: map<string, Fields>,
                                         s: seq<Byte>, depth: nat, left: nat)
    requires Routed(env, k) && i <= |env.profile.byKey[k].fields| &&
             DecFields(env, lim, k, i, words, s, depth, left).Got?
    ensures |DecFields(env, lim, k, i, words, s, depth, left).rest| <= |s|
    decreases Room(lim, depth), 3, |env.profile.byKey[k].fields| - i
  {
    var p := env.profile.byKey[k];
    if i < |p.fields| {
      var f := p.fields[i];
      if f.kind.FieldFlagsWord? {
        var r := ReadFlags(s);
        FieldsConsume(env, lim, k, i + 1, words[f.name := r.value], r.rest, depth, left);
      } else if f.cond.Some? && !(f.cond.value.word in words && f.cond.value.bit < 32 &&
                                  words[f.cond.value.word][f.cond.value.bit]) {
        FieldsConsume(env, lim, k, i + 1, words, s, depth, left);
      } else if f.cond.Some? && f.cond.value.presenceOnly {
        FieldsConsume(env, lim, k, i + 1, words, s, depth, left);
      } else {
        DecodingConsumes(env, lim, f.ty, s, depth, left);
        var d := DecValue(env, lim, f.ty, s, depth, left);
        FieldsConsume(env, lim, k, i + 1, words, d.rest, depth, d.left);
      }
    }
  }
}

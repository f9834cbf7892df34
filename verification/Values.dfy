/**
  Go values of the generated structs: what a canonical value looks like before it is
  written to the wire.
 */
module Values {
  import opened Bin
  import opened Schema

  /** `bin.Fields`: 32 independent presence bits. */
  type Fields = s: seq<bool> | |s| == 32 witness seq(32, _ => false)

  datatype PrimVal =
    | PInt(v: int)
    | PLong(v: int)
    | PDouble(bits: nat)
    | PRaw(data: seq<Byte>)
    | PBytes(data: seq<Byte>)
    | PBool(b: bool)

  /**
    `Nil` is a nil slice, nil byte string or nil interface. An object is held either
    by value or, when `iface` is set, through a non-nil interface.
   */
  datatype Value =
    | Prim(p: PrimVal)
    | Nil
    | Vec(items: seq<Value>)
    | Obj(key: Key, slots: seq<Slot>, iface: bool)

  /** One struct field, in the order of the canonical definition. */
  datatype Slot = Flags(bits: Fields) | Val(v: Value)

  // ---------------------------------------------------------------- flag words

  function BitsToNat(s: seq<bool>): nat
  {
    if s == [] then 0 else (if s[0] then 1 else 0) + 2 * BitsToNat(s[1..])
  }

  function NatToBits(n: nat, v: nat): (s: seq<bool>)
    ensures |s| == n
  {
    if n == 0 then [] else [v % 2 == 1] + NatToBits(n - 1, v / 2)
  }

  lemma {:induction false} BitsRoundTrip(s: seq<bool>)
    ensures NatToBits(|s|, BitsToNat(s)) == s
    ensures BitsToNat(s) < Pow2(|s|)
  {
    if s != [] {
      BitsRoundTrip(s[1..]);
      var t := BitsToNat(s[1..]);
      assert BitsToNat(s) / 2 == t;
    }
  }

  lemma Pow2Of32()
    ensures Pow2(32) == 0x1_0000_0000
  {
    assert Pow2(4) == 16;
    assert Pow2(8) == 16 * Pow2(4);
    assert Pow2(12) == 16 * Pow2(8);
    assert Pow2(16) == 16 * Pow2(12);
    assert Pow2(20) == 16 * Pow2(16);
    assert Pow2(24) == 16 * Pow2(20);
    assert Pow2(28) == 16 * Pow2(24);
    assert Pow2(32) == 16 * Pow2(28);
  }

  function FlagsWire(f: Fields): seq<Byte>
  {
    LE(4, BitsToNat(f))
  }

  function ReadFlags(s: seq<Byte>): Read<Fields>
  {
    match ReadWord(4, s)
    case Ok(v, rest) => Ok(NatToBits(32, v), rest)
    case Err(rest) => Err(rest)
  }

  lemma FlagsRoundTrip(f: Fields, rest: seq<Byte>)
    ensures ReadFlags(FlagsWire(f) + rest) == Ok(f, rest)
  {
    BitsRoundTrip(f);
    Pow2Of32();
    Pow256Values();
    WordRoundTrip(4, BitsToNat(f), rest);
  }

  // ---------------------------------------------------------------- Go zero values

  predicate PrimIsZero(p: PrimVal)
  {
    match p
    case PInt(v) => v == 0
    case PLong(v) => v == 0
    case PDouble(bits) => bits == 0 || bits == 0x8000_0000_0000_0000
    case PRaw(data) => forall i :: 0 <= i < |data| ==> data[i] == 0
    case PBytes(_) => false
    case PBool(b) => !b
  }

  /** The generated zero test; `Nil` also stands for the empty string, which has no other representation. */
  predicate IsZero(v: Value)
  {
    match v
    case Prim(p) => PrimIsZero(p)
    case Nil => true
    case Vec(_) => false
    case Obj(_, slots, iface) => !iface && forall i :: 0 <= i < |slots| ==> SlotIsZero(slots[i])
  }

  predicate SlotIsZero(s: Slot)
  {
    match s
    case Flags(bits) => forall b :: 0 <= b < 32 ==> !bits[b]
    case Val(v) => IsZero(v)
  }

  // ---------------------------------------------------------------- primitives on the wire

  datatype PrimKind = KInt | KLong | KDouble | KRaw(n: nat) | KBytes | KString | KBool | KUnknown

  function KindOf(name: string): PrimKind
  {
    if name in {"int", "Int", "int32"} then KInt
    else if name in {"int53", "int64", "long", "Long"} then KLong
    else if name in {"double", "Double"} then KDouble
    else if name == "int128" then KRaw(16)
    else if name == "int256" then KRaw(32)
    else if name in {"bytes", "Bytes"} then KBytes
    else if name in {"string", "String"} then KString
    else if name in {"bool", "Bool", "true", "false", "True"} then KBool
    else KUnknown
  }

  /** The value has the Go type of the primitive, integers within their width. */
  predicate PrimFits(k: PrimKind, v: Value)
  {
    match k
    case KInt => v.Prim? && v.p.PInt? && -0x8000_0000 <= v.p.v < 0x8000_0000
    case KLong => v.Prim? && v.p.PLong? && -0x8000_0000_0000_0000 <= v.p.v < 0x8000_0000_0000_0000
    case KDouble => v.Prim? && v.p.PDouble? && v.p.bits < 0x1_0000_0000_0000_0000
    case KRaw(n) => v.Prim? && v.p.PRaw? && |v.p.data| == n
    case KBytes => v.Nil? || (v.Prim? && v.p.PBytes?)
    case KString => v.Nil? || (v.Prim? && v.p.PBytes? && v.p.data != [])
    case KBool => v.Prim? && v.p.PBool?
    case KUnknown => false
  }

  function PrimWire(k: PrimKind, v: Value): seq<Byte>
    requires PrimFits(k, v)
  {
    match k
    case KInt => LE(4, v.p.v)
    case KLong => LE(8, v.p.v)
    case KDouble => LE(8, v.p.bits)
    case KRaw(_) => v.p.data
    case KBytes => EncodeBytes(if v.Nil? then [] else v.p.data)
    case KString => EncodeBytes(if v.Nil? then [] else v.p.data)
    case KBool => LE(4, if v.p.b then TYPE_TRUE else TYPE_FALSE)
  }

  function VectorHeader(boxed: bool, count: nat): seq<Byte>
  {
    (if boxed then LE(4, TYPE_VECTOR) else []) + LE(4, count)
  }

  // ---------------------------------------------------------------- slots by field name

  /** The struct has one slot per field: a bit set for a flags word, a value otherwise. */
  predicate Aligned(d: Definition, slots: seq<Slot>)
  {
    && |slots| == |d.fields|
    && forall i :: 0 <= i < |slots| ==> (slots[i].Flags? <==> d.fields[i].kind.FieldFlagsWord?)
  }

  /** The explicit bit of a flags word in the struct. */
  predicate HasBit(d: Definition, slots: seq<Slot>, word: string, bit: nat)
    requires Aligned(d, slots)
  {
    var w := IndexOf(d.fields, word);
    w < |slots| && slots[w].Flags? && bit < 32 && slots[w].bits[bit]
  }
}

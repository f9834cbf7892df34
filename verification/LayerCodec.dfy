/**
  Meaning of the generated codecs of one layer. A canonical value is written in the
  field order and with the flag bits of the layer; constructors unknown to the layer are
  dropped; decoding rebuilds the canonical value. Only families without body obligations
  have a mechanical codec.
 */
module LayerCodec {
  import opened Bin
  import opened Schema
  import opened Values
  import Obligations

  const MAX_DEPTH := 64
  const MAX_VECTOR := 0x10_0000

  /**
    The canonical schema, the schema of one layer, the families present in both without
    obligations, and the zero value of every canonical struct.
   */
  datatype Env = Env(canonical: SchemaModel, profile: SchemaModel, clean: set<Key>, zero: map<Key, seq<Slot>>)

  /** Both schemas are valid, exactly the silent comparisons are clean, and zero structs are zero. */
  ghost predicate ValidEnv(env: Env)
  {
    && ValidSchema(env.canonical) && ValidSchema(env.profile)
    && (forall k :: k in env.clean <==>
          k in env.canonical.byKey && k in env.profile.byKey &&
          Obligations.SameFields(env.canonical.byKey[k], env.profile.byKey[k]))
    && (forall k :: k in env.canonical.byKey ==> k in env.zero && Aligned(env.canonical.byKey[k], env.zero[k]))
    && (forall k, i :: k in env.canonical.byKey && 0 <= i < |env.zero[k]| ==> SlotIsZero(env.zero[k][i]))
  }

  /** The family has a mechanical codec in this layer. */
  predicate Routed(env: Env, k: Key)
  {
    k in env.clean && k in env.canonical.byKey && k in env.profile.byKey && k in env.zero &&
    Aligned(env.canonical.byKey[k], env.zero[k])
  }

  /** `v` is a struct of a family with a mechanical codec. */
  predicate Encodable(env: Env, v: Value)
  {
    v.Obj? && Routed(env, v.key) && Aligned(env.canonical.byKey[v.key], v.slots)
  }

  /** Outcome of one encoder: bytes, the projection-drop error, or any other error. */
  datatype Res = Wrote(bytes: seq<Byte>) | Dropped | Failed

  // ---------------------------------------------------------------- routing

  predicate Singular(env: Env, class_: string)
  {
    |Constructors(env.canonical, class_)| == 1
  }

  /** Constructors a class value may have in this layer: members of the class on both sides. */
  function ClassGroup(env: Env, class_: string): set<Key>
  {
    Constructors(env.canonical, class_) * Constructors(env.profile, class_)
  }

  /** A constructor of the Update class, whose projection is never decided mechanically. */
  predicate IsUpdate(d: Definition)
  {
    d.key.category.CategoryType? && d.result.kind.TypeNamed? && !d.result.bare && d.result.qname == "Update"
  }

  predicate PlainPrimitive(t: TypeRef)
  {
    t.kind.TypePrimitive? && t.qname != "Object"
  }

  /** The class behind a field, seen through at most two vectors, is an interface. */
  predicate InterfaceField(env: Env, t: TypeRef)
  {
    var u := Unwrap(Unwrap(t));
    u.kind.TypeNamed? && !u.bare && !Singular(env, u.qname)
  }

  function Unwrap(t: TypeRef): TypeRef
  {
    if t.kind.TypeVector? && t.arg.Some? then t.arg.value else t
  }

  // ---------------------------------------------------------------- presence

  /** Canonical position of a profile field of a clean family. */
  function At(c: Definition, p: Definition, i: nat): nat
    requires i < |p.fields|
  {
    IndexOf(c.fields, p.fields[i].name)
  }

  predicate ValueOnSlot(f: FieldShape, word: string, bit: nat)
  {
    f.kind.FieldValue? && OnSlot(f, word, bit)
  }

  /** Some value field depends on this bit. */
  ghost predicate Owned(c: Definition, word: string, bit: nat)
  {
    exists j :: 0 <= j < |c.fields| && ValueOnSlot(c.fields[j], word, bit)
  }

  /** The generated presence expression of a canonical field: explicit bit or non-zero value. */
  predicate Present(c: Definition, slots: seq<Slot>, j: nat)
    requires Aligned(c, slots)
  {
    && j < |slots| && slots[j].Val?
    && (match c.fields[j].cond
        case None => true
        case Some(cond) => HasBit(c, slots, cond.word, cond.bit) || !IsZero(slots[j].v))
  }

  /** Optional non-primitive fields are encoded into their own buffer before the flags are known. */
  predicate Prepared(f: FieldShape)
  {
    f.kind.FieldValue? && f.cond.Some? && !f.cond.value.presenceOnly && !PlainPrimitive(f.ty)
  }

  predicate RawGroup(c: Definition, p: Definition, slots: seq<Slot>, word: string, bit: nat)
    requires Aligned(c, slots)
  {
    exists i :: 0 <= i < |p.fields| && ValueOnSlot(p.fields[i], word, bit) && Present(c, slots, At(c, p, i))
  }

  /** Presence after encoding: a prepared field follows its group unless its subtree was dropped. */
  predicate Survives(c: Definition, p: Definition, slots: seq<Slot>, parts: seq<Res>, i: nat)
    requires Aligned(c, slots) && |parts| == |p.fields| && i < |p.fields|
  {
    if Prepared(p.fields[i])
    then RawGroup(c, p, slots, p.fields[i].cond.value.word, p.fields[i].cond.value.bit) && !parts[i].Dropped?
    else Present(c, slots, At(c, p, i))
  }

  predicate FinalGroup(c: Definition, p: Definition, slots: seq<Slot>, parts: seq<Res>, word: string, bit: nat)
    requires Aligned(c, slots) && |parts| == |p.fields|
  {
    exists i :: 0 <= i < |p.fields| && ValueOnSlot(p.fields[i], word, bit) && Survives(c, p, slots, parts, i)
  }

  function WordBits(c: Definition, p: Definition, slots: seq<Slot>, parts: seq<Res>, word: string): Fields
    requires Aligned(c, slots) && |parts| == |p.fields|
  {
    seq(32, b requires 0 <= b < 32 => FinalGroup(c, p, slots, parts, word, b))
  }

  // ---------------------------------------------------------------- encoding

  /** Whether the body of profile field `i` is on the wire. */
  predicate OnWire(c: Definition, p: Definition, slots: seq<Slot>, parts: seq<Res>, i: nat)
    requires Aligned(c, slots) && |parts| == |p.fields| && i < |p.fields|
  {
    && p.fields[i].kind.FieldValue?
    && (match p.fields[i].cond
        case None => true
        case Some(cond) => !cond.presenceOnly && FinalGroup(c, p, slots, parts, cond.word, cond.bit))
  }

  function Emitted(c: Definition, p: Definition, slots: seq<Slot>, parts: seq<Res>, i: nat): Res
    requires Aligned(c, slots) && |parts| == |p.fields| && i < |p.fields|
  {
    if p.fields[i].kind.FieldFlagsWord? then Wrote(FlagsWire(WordBits(c, p, slots, parts, p.fields[i].name)))
    else if OnWire(c, p, slots, parts, i) then parts[i]
    else Wrote([])
  }

  function Then(a: Res, b: Res): Res
  {
    if !a.Wrote? then a else if !b.Wrote? then b else Wrote(a.bytes + b.bytes)
  }

  function EmitFrom(c: Definition, p: Definition, slots: seq<Slot>, parts: seq<Res>, i: nat): Res
    requires Aligned(c, slots) && |parts| == |p.fields| && i <= |p.fields|
    decreases |p.fields| - i
  {
    if i == |p.fields| then Wrote([])
    else Then(Emitted(c, p, slots, parts, i), EmitFrom(c, p, slots, parts, i + 1))
  }

  /** An explicit flag on a nil interface field is malformed before any projection is considered. */
  predicate Malformed(env: Env, c: Definition, slots: seq<Slot>)
    requires Aligned(c, slots)
  {
    exists j :: 0 <= j < |slots| && slots[j] == Val(Nil) && c.fields[j].cond.Some? &&
      InterfaceField(env, c.fields[j].ty) &&
      HasBit(c, slots, c.fields[j].cond.value.word, c.fields[j].cond.value.bit)
  }

  predicate PreparedFails(c: Definition, p: Definition, slots: seq<Slot>, parts: seq<Res>)
    requires Aligned(c, slots) && |parts| == |p.fields|
  {
    exists i :: 0 <= i < |p.fields| && Prepared(p.fields[i]) && parts[i].Failed? &&
      RawGroup(c, p, slots, p.fields[i].cond.value.word, p.fields[i].cond.value.bit)
  }

  /** A shared bit stays set although one of its prepared members was dropped. */
  predicate PartialGroup(c: Definition, p: Definition, slots: seq<Slot>, parts: seq<Res>)
    requires Aligned(c, slots) && |parts| == |p.fields|
  {
    exists i :: 0 <= i < |p.fields| && Prepared(p.fields[i]) && !Survives(c, p, slots, parts, i) &&
      FinalGroup(c, p, slots, parts, p.fields[i].cond.value.word, p.fields[i].cond.value.bit)
  }

  function Assemble(env: Env, c: Definition, p: Definition, slots: seq<Slot>, parts: seq<Res>): Res
    requires Aligned(c, slots) && |parts| == |p.fields|
  {
    if Malformed(env, c, slots) || PreparedFails(c, p, slots, parts) || PartialGroup(c, p, slots, parts) then Failed
    else EmitFrom(c, p, slots, parts, 0)
  }

  function KeptCount(parts: seq<Res>): nat
  {
    if parts == [] then 0 else (if parts[0].Wrote? then 1 else 0) + KeptCount(parts[1..])
  }

  function KeptBytes(parts: seq<Res>): seq<Byte>
  {
    if parts == [] then [] else (if parts[0].Wrote? then parts[0].bytes else []) + KeptBytes(parts[1..])
  }

  /** A vector keeps the elements that were not dropped; any other error fails it. */
  function AssembleVector(boxed: bool, parts: seq<Res>): Res
  {
    if exists i :: 0 <= i < |parts| && parts[i].Failed? then Failed
    else Wrote(Values.VectorHeader(boxed, KeptCount(parts)) + KeptBytes(parts))
  }

  function EncPrim(name: string, v: Value): Res
  {
    var k := KindOf(name);
    if !PrimFits(k, v) then Failed
    else if v.Prim? && v.p.PBytes? && |v.p.data| > MAX_LONG_STRING then Failed
    else Wrote(PrimWire(k, v))
  }

  /** The encoder generated for a type reference; `depth` counts enclosing constructors. */
  ghost function EncValue(env: Env, t: TypeRef, v: Value, depth: nat): Res
    decreases v, 4
  {
    match t.kind
    case TypePrimitive => if IsObjectType(t) then EncFamily(env, v, depth) else EncPrim(t.qname, v)
    case TypeGenericRef => Failed
    case TypeVector =>
      if t.arg.None? || !(v.Nil? || v.Vec?) then Failed
      else
        var items := if v.Nil? then [] else v.items;
        if |items| > MAX_VECTOR then Failed
        else AssembleVector(BoxedVector(t), EncItems(env, t.arg.value, v, depth))
    case TypeNamed =>
      if BareNamed(t) then
        if v.Obj? && !v.iface && v.key == Key(CategoryType, t.qname) then EncBare(env, v, depth) else Failed
      else if Singular(env, t.qname) then
        if v.Obj? && !v.iface && v.key in ClassGroup(env, t.qname) then EncBoxed(env, v, depth) else Failed
      else if v.Obj? && v.iface && v.key in Constructors(env.canonical, t.qname) then
        if v.key in env.profile.byKey && v.key !in ClassGroup(env, t.qname) then Failed else EncFamily(env, v, depth)
      else Failed
  }

  ghost function EncItems(env: Env, t: TypeRef, v: Value, depth: nat): (parts: seq<Res>)
    requires (v.Nil? || v.Vec?)
    ensures |parts| == if v.Nil? then 0 else |v.items|
    ensures v.Vec? ==> forall i :: 0 <= i < |v.items| ==> parts[i] == EncValue(env, t, v.items[i], depth)
    decreases v, 3
  {
    if v.Nil? then [] else seq(|v.items|, i requires 0 <= i < |v.items| => EncValue(env, t, v.items[i], depth))
  }

  /** Dispatch of an interface value: a family the layer does not know is dropped. */
  ghost function EncFamily(env: Env, v: Value, depth: nat): Res
    decreases v, 3
  {
    if !v.Obj? || !v.iface || v.key !in env.canonical.byKey then Failed
    else if v.key !in env.profile.byKey then (if IsUpdate(env.canonical.byKey[v.key]) then Failed else Dropped)
    else EncBoxed(env, v, depth)
  }

  ghost function EncBoxed(env: Env, v: Value, depth: nat): Res
    requires v.Obj?
    decreases v, 2
  {
    if v.key !in env.profile.byKey then Failed
    else Then(Wrote(LE(4, env.profile.byKey[v.key].wireID)), EncBare(env, v, depth))
  }

  ghost function EncBare(env: Env, v: Value, depth: nat): Res
    requires v.Obj?
    decreases v, 1
  {
    if depth >= MAX_DEPTH || !Encodable(env, v) then Failed
    else Assemble(env, env.canonical.byKey[v.key], env.profile.byKey[v.key], v.slots, EncParts(env, v, depth + 1))
  }

  /** The encoding of every profile field on its own. */
  ghost function EncParts(env: Env, v: Value, depth: nat): (parts: seq<Res>)
    requires Encodable(env, v)
    ensures |parts| == |env.profile.byKey[v.key].fields|
    ensures forall i :: 0 <= i < |parts| ==> parts[i] == EncPart(env, v, i, depth)
    decreases v, 0, 1
  {
    seq(|env.profile.byKey[v.key].fields|,
        i requires 0 <= i < |env.profile.byKey[v.key].fields| => EncPart(env, v, i, depth))
  }

  ghost function EncPart(env: Env, v: Value, i: nat, depth: nat): Res
    requires Encodable(env, v)
    requires i < |env.profile.byKey[v.key].fields|
    decreases v, 0, 0
  {
    var c, p := env.canonical.byKey[v.key], env.profile.byKey[v.key];
    var j := At(c, p, i);
    if p.fields[i].kind.FieldValue? && j < |v.slots| && v.slots[j].Val?
    then EncValue(env, p.fields[i].ty, v.slots[j].v, depth)
    else Wrote([])
  }

  // ---------------------------------------------------------------- decoding

  datatype Limits = Limits(maxDepth: nat, maxVector: nat)

  /** A decoded value with the remaining bytes and element budget; a configured limit was hit; or malformed input. */
  datatype Dec<+T> = Got(value: T, rest: seq<Byte>, left: nat) | Limit | Bad

  /** What was read for one profile field. */
  datatype Part = Word(bits: Fields) | Here(v: Value) | Missing

  function Room(lim: Limits, depth: nat): nat
  {
    if depth <= lim.maxDepth then lim.maxDepth - depth else 0
  }

  function ReadPrim(k: PrimKind, s: seq<Byte>): Read<Value>
  {
    match k
    case KInt => (match ReadSigned(4, s) case Ok(v, r) => Ok(Prim(PInt(v)), r) case Err(r) => Err(r))
    case KLong => (match ReadSigned(8, s) case Ok(v, r) => Ok(Prim(PLong(v)), r) case Err(r) => Err(r))
    case KDouble => (match ReadWord(8, s) case Ok(v, r) => Ok(Prim(PDouble(v)), r) case Err(r) => Err(r))
    case KRaw(n) => (match ReadRaw(n, s) case Ok(v, r) => Ok(Prim(PRaw(v)), r) case Err(r) => Err(r))
    case KBytes => ReadByteString(s)
    case KString => ReadByteString(s)
    case KBool => (match ReadBool(s) case Ok(v, r) => Ok(Prim(PBool(v)), r) case Err(r) => Err(r))
    case KUnknown => Err(s)
  }

  /** An empty byte string is read back as nil. */
  function ReadByteString(s: seq<Byte>): Read<Value>
  {
    match ReadBytes(s)
    case Ok(v, r) => Ok(if v == [] then Nil else Prim(PBytes(v)), r)
    case Err(r) => Err(r)
  }

  ghost predicate IsWireKey(s: SchemaModel, id: nat, k: Key)
  {
    k in s.byKey && s.byKey[k].wireID == id
  }

  /** The definition a wire identifier selects in the layer. */
  ghost function WireKey(s: SchemaModel, id: nat): Option<Key>
  {
    if exists k :: IsWireKey(s, id, k) then var k :| IsWireKey(s, id, k); Some(k) else None
  }

  ghost function DecValue(env: Env, lim: Limits, t: TypeRef, s: seq<Byte>, depth: nat, left: nat): Dec<Value>
    decreases Room(lim, depth), 2
  {
    match t.kind
    case TypePrimitive =>
      if IsObjectType(t) then DecClass(env, lim, env.canonical.byKey.Keys, s, depth, left)
      else (match ReadPrim(KindOf(t.qname), s) case Ok(v, rest) => Got(v, rest, left) case Err(_) => Bad)
    case TypeGenericRef => Bad
    case TypeVector => if t.arg.None? then Bad else DecVector(env, lim, t, s, depth, left)
    case TypeNamed =>
      if BareNamed(t) then DecBare(env, lim, Key(CategoryType, t.qname), false, s, depth, left)
      else if Singular(env, t.qname) then
        if ClassGroup(env, t.qname) == {} then Bad
        else
          var k :| k in ClassGroup(env, t.qname);
          DecWire(env, lim, k, false, s, depth, left)
      else DecClass(env, lim, ClassGroup(env, t.qname), s, depth, left)
  }

  ghost function DecVector(env: Env, lim: Limits, t: TypeRef, s: seq<Byte>, depth: nat, left: nat): Dec<Value>
    requires t.kind.TypeVector? && t.arg.Some?
    decreases Room(lim, depth), 1
  {
    if depth >= lim.maxDepth then Limit
    else
      match ReadVectorLength(BoxedVector(t), s)
      case Err(_) => Bad
      case Ok(n, rest) =>
        if n < 0 then Bad
        else if n > MAX_VECTOR || n > lim.maxVector || n > left then Limit
        else
          match DecItems(env, lim, t.arg.value, n, rest, depth + 1, left - n)
          case Got(items, rest', left') => Got(if items == [] then Nil else Vec(items), rest', left')
          case Limit => Limit
          case Bad => Bad
  }

  function ReadVectorLength(boxed: bool, s: seq<Byte>): Read<int>
  {
    if boxed then
      match ReadId(TYPE_VECTOR, s)
      case Ok(_, rest) => ReadSigned(4, rest)
      case Err(rest) => Err(rest)
    else ReadSigned(4, s)
  }

  ghost function DecItems(env: Env, lim: Limits, t: TypeRef, n: nat, s: seq<Byte>, depth: nat,
                          left: nat): Dec<seq<Value>>
    decreases Room(lim, depth), 3, n
  {
    if n == 0 then Got([], s, left)
    else
      match DecValue(env, lim, t, s, depth, left)
      case Limit => Limit
      case Bad => Bad
      case Got(v, rest, left') =>
        match DecItems(env, lim, t, n - 1, rest, depth, left')
        case Limit => Limit
        case Bad => Bad
        case Got(vs, rest', left'') => Got([v] + vs, rest', left'')
  }

  /** Peek at the identifier and decode the constructor it selects among `allowed`. */
  ghost function DecClass(env: Env, lim: Limits, allowed: set<Key>, s: seq<Byte>, depth: nat, left: nat): Dec<Value>
    decreases Room(lim, depth), 1
  {
    match ReadWord(4, s)
    case Err(_) => Bad
    case Ok(id, _) =>
      match WireKey(env.profile, id)
      case None => Bad
      case Some(k) => if k in allowed then DecWire(env, lim, k, true, s, depth, left) else Bad
  }

  ghost function DecWire(env: Env, lim: Limits, k: Key, iface: bool, s: seq<Byte>, depth: nat, left: nat): Dec<Value>
    decreases Room(lim, depth), 0, 1
  {
    if k !in env.profile.byKey then Bad
    else
      match ReadId(env.profile.byKey[k].wireID, s)
      case Err(_) => Bad
      case Ok(_, rest) => DecBare(env, lim, k, iface, rest, depth, left)
  }

  ghost function DecBare(env: Env, lim: Limits, k: Key, iface: bool, s: seq<Byte>, depth: nat, left: nat): Dec<Value>
    decreases Room(lim, depth), 0, 0
  {
    if depth >= lim.maxDepth then Limit
    else if !Routed(env, k) then Bad
    else
      match DecFields(env, lim, k, 0, map[], s, depth + 1, left)
      case Limit => Limit
      case Bad => Bad
      case Got(parts, rest, left') =>
        Got(Obj(k, Assign(env.canonical.byKey[k], env.profile.byKey[k], env.zero[k], parts), iface), rest, left')
  }

  /** Reads the profile fields in order; conditional fields consult the flag words read before them. */
  ghost function DecFields(env: Env, lim: Limits, k: Key, i: nat, words: map<string, Fields>, s: seq<Byte>, depth: nat,
                           left: nat)
    : (d: Dec<seq<Part>>)
    requires Routed(env, k) && i <= |env.profile.byKey[k].fields|
    ensures d.Got? ==> |d.value| == |env.profile.byKey[k].fields| - i
    decreases Room(lim, depth), 3, |env.profile.byKey[k].fields| - i
  {
    var p := env.profile.byKey[k];
    if i == |p.fields| then Got([], s, left)
    else
      var f := p.fields[i];
      if f.kind.FieldFlagsWord? then
        match ReadFlags(s)
        case Err(_) => Bad
        case Ok(bits, rest) => Prepend(Word(bits),
                                       DecFields(env, lim, k, i + 1, words[f.name := bits], rest, depth, left))
      else if f.cond.Some? && !(f.cond.value.word in words && f.cond.value.bit < 32 &&
                                words[f.cond.value.word][f.cond.value.bit]) then
        Prepend(Missing, DecFields(env, lim, k, i + 1, words, s, depth, left))
      else if f.cond.Some? && f.cond.value.presenceOnly then
        Prepend(Here(Prim(PBool(true))), DecFields(env, lim, k, i + 1, words, s, depth, left))
      else
        match DecValue(env, lim, f.ty, s, depth, left)
        case Limit => Limit
        case Bad => Bad
        case Got(v, rest, left') => Prepend(Here(v), DecFields(env, lim, k, i + 1, words, rest, depth, left'))
  }

  function Prepend(part: Part, d: Dec<seq<Part>>): Dec<seq<Part>>
  {
    match d
    case Got(parts, rest, left) => Got([part] + parts, rest, left)
    case Limit => Limit
    case Bad => Bad
  }

  /** Assignment of the decoded fields to a zero struct: each sets its own slot and its canonical flag bit. */
  function Assign(c: Definition, p: Definition, zero: seq<Slot>, parts: seq<Part>): seq<Slot>
    requires Aligned(c, zero) && |parts| == |p.fields|
  {
    seq(|zero|, j requires 0 <= j < |zero| => AssignedSlot(c, p, zero, parts, j))
  }

  function AssignedSlot(c: Definition, p: Definition, zero: seq<Slot>, parts: seq<Part>, j: nat): Slot
    requires Aligned(c, zero) && |parts| == |p.fields| && j < |zero|
  {
    match zero[j]
    case Flags(bits) =>
      Flags(seq(32, b requires 0 <= b < 32 => bits[b] || SetBy(c, p, parts, c.fields[j].name, b)))
    case Val(_) =>
      var i := IndexOf(p.fields, c.fields[j].name);
      if i < |parts| && parts[i].Here? then Val(parts[i].v) else zero[j]
  }

  predicate SetBy(c: Definition, p: Definition, parts: seq<Part>, word: string, bit: nat)
    requires |parts| == |p.fields|
  {
    exists i :: 0 <= i < |parts| && parts[i].Here? && At(c, p, i) < |c.fields| &&
      ValueOnSlot(c.fields[At(c, p, i)], word, bit)
  }

  // ---------------------------------------------------------------- the normal form

  /** A canonical field is finally present: it survived under its name in the profile. */
  predicate SurvivesCanonical(c: Definition, p: Definition, slots: seq<Slot>, parts: seq<Res>, j: nat)
    requires Aligned(c, slots) && |parts| == |p.fields| && j < |c.fields|
  {
    var i := IndexOf(p.fields, c.fields[j].name);
    i < |p.fields| && Survives(c, p, slots, parts, i)
  }

  /** Some member of the canonical flag group is finally present. */
  predicate CanonicalGroup(c: Definition, p: Definition, slots: seq<Slot>, parts: seq<Res>, word: string, bit: nat)
    requires Aligned(c, slots) && |parts| == |p.fields|
  {
    exists j :: 0 <= j < |c.fields| && ValueOnSlot(c.fields[j], word, bit) && SurvivesCanonical(c, p, slots, parts, j)
  }

  function NormPrim(v: Value): Value
  {
    if v.Prim? && v.p.PBytes? && v.p.data == [] then Nil else v
  }

  /**
    What survives a trip through the layer: dropped elements and subtrees are gone, empty
    and nil slices coincide, a flag bit is set exactly when some member of its canonical
    group survived, and members of a surviving group keep their (normalised) values.
   */
  ghost function Norm(env: Env, t: TypeRef, v: Value, depth: nat): Value
    decreases v, 3
  {
    if PlainPrimitive(t) then NormPrim(v)
    else if t.kind.TypeVector? then
      if v.Vec? && t.arg.Some? then
        var kept := NormKept(env, t.arg.value, v, 0, depth);
        if kept == [] then Nil else Vec(kept)
      else v
    else if v.Obj? then NormObj(env, v, depth)
    else v
  }

  ghost function NormKept(env: Env, t: TypeRef, v: Value, i: nat, depth: nat): seq<Value>
    requires v.Vec? && i <= |v.items|
    decreases v, 2, |v.items| - i
  {
    if i == |v.items| then []
    else
      (if EncValue(env, t, v.items[i], depth).Wrote? then [Norm(env, t, v.items[i], depth)] else [])
      + NormKept(env, t, v, i + 1, depth)
  }

  ghost function NormObj(env: Env, v: Value, depth: nat): Value
    requires v.Obj?
    decreases v, 1
  {
    if Encodable(env, v)
    then Obj(v.key, seq(|v.slots|, j requires 0 <= j < |v.slots| => NormSlot(env, v, j, depth + 1)), v.iface)
    else v
  }

  ghost function NormSlot(env: Env, v: Value, j: nat, depth: nat): Slot
    requires Encodable(env, v) && j < |v.slots|
    decreases v, 0
  {
    var c, p := env.canonical.byKey[v.key], env.profile.byKey[v.key];
    var parts := EncParts(env, v, depth);
    match v.slots[j]
    case Flags(_) => Flags(seq(32, b requires 0 <= b < 32 => CanonicalGroup(c, p, v.slots, parts, c.fields[j].name, b)))
    case Val(x) =>
      match c.fields[j].cond
      case None => Val(Norm(env, c.fields[j].ty, x, depth))
      case Some(cond) =>
        if !CanonicalGroup(c, p, v.slots, parts, cond.word, cond.bit) then env.zero[v.key][j]
        else if cond.presenceOnly then Val(Prim(PBool(true)))
        else Val(Norm(env, c.fields[j].ty, x, depth))
  }
}

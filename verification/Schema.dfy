/**
  The semantic schema model shared by the layer compiler: type references, ordered
  field shapes, definitions and one validated schema per layer.
 */
module Schema {
  import opened Bin

  datatype Category = CategoryType | CategoryFunction

  /** Stable identity of a constructor or method; wire identifiers are not part of it. */
  datatype Key = Key(category: Category, qname: string)

  datatype TypeKind = TypePrimitive | TypeNamed | TypeVector | TypeGenericRef

  datatype TypeRef = TypeRef(kind: TypeKind, qname: string, bare: bool, percent: bool, arg: Option<TypeRef>)

  datatype FieldKind = FieldValue | FieldFlagsWord

  datatype Condition = Condition(word: string, bit: nat, presenceOnly: bool)

  datatype FieldShape = FieldShape(kind: FieldKind, name: string, ordinal: nat, ty: TypeRef, cond: Option<Condition>)

  datatype Definition = Definition(
    key: Key, wireID: nat, genericParams: seq<string>, fields: seq<FieldShape>, result: TypeRef, base: bool)

  datatype SchemaModel = SchemaModel(byKey: map<Key, Definition>)

  // ---------------------------------------------------------------- validation

  /** What the definition validator of the repository accepts. */
  ghost predicate ValidDefinition(d: Definition)
  {
    && d.wireID < 0x1_0000_0000
    && (forall i :: 0 <= i < |d.fields| ==> d.fields[i].ordinal == i && d.fields[i].name != "")
    && UniqueNames(d.fields)
    && (forall i :: 0 <= i < |d.fields| && d.fields[i].cond.Some? ==> ValidCondition(d, i))
  }

  ghost predicate UniqueNames(fields: seq<FieldShape>)
  {
    forall i, j :: 0 <= i < |fields| && 0 <= j < |fields| && fields[i].name == fields[j].name ==> i == j
  }

  /** A conditional field is a value whose flags word is written before it; only `true` carries no body. */
  ghost predicate ValidCondition(d: Definition, i: nat)
    requires i < |d.fields| && d.fields[i].cond.Some?
  {
    var c := d.fields[i].cond.value;
    && d.fields[i].kind.FieldValue?
    && c.bit < 32
    && exists j :: 0 <= j < i && d.fields[j].kind.FieldFlagsWord? && d.fields[j].name == c.word
  }

  ghost predicate ValidSchema(s: SchemaModel)
  {
    && (forall k :: k in s.byKey ==> s.byKey[k].key == k && ValidDefinition(s.byKey[k]))
    && (forall k, k' :: k in s.byKey && k' in s.byKey && s.byKey[k].wireID == s.byKey[k'].wireID ==> k == k')
  }

  // ---------------------------------------------------------------- shapes and classes

  /** Equality of body digests: base flag, generic parameters and the ordered fields (types of flags words excluded). */
  predicate SameBody(a: Definition, b: Definition)
  {
    && a.base == b.base
    && a.genericParams == b.genericParams
    && |a.fields| == |b.fields|
    && forall i :: 0 <= i < |a.fields| ==> SameFieldShape(a.fields[i], b.fields[i])
  }

  predicate SameFieldShape(f: FieldShape, g: FieldShape)
  {
    && f.kind == g.kind && f.name == g.name && f.ordinal == g.ordinal && f.cond == g.cond
    && (f.kind.FieldValue? ==> f.ty == g.ty)
  }

  function Constructors(s: SchemaModel, class_: string): set<Key>
  {
    set k | k in s.byKey && k.category.CategoryType? && s.byKey[k].result.qname == class_
  }

  function Lookup(s: SchemaModel, k: Key): Option<Definition>
  {
    if k in s.byKey then Some(s.byKey[k]) else None
  }

  predicate TypeDynamic(t: TypeRef)
  {
    match t.kind
    case TypeVector => t.arg.Some? && TypeDynamic(t.arg.value)
    case TypeGenericRef => true
    case TypePrimitive => t.qname == "Object"
    case TypeNamed => false
  }

  /** The field depends on this bit of this flags word. */
  predicate OnSlot(f: FieldShape, word: string, bit: nat)
  {
    f.cond.Some? && f.cond.value.word == word && f.cond.value.bit == bit
  }

  /** Index of the field with this name, or the number of fields. */
  function IndexOf(fields: seq<FieldShape>, name: string): (i: nat)
    ensures i <= |fields|
    ensures i < |fields| ==> fields[i].name == name
    ensures forall j :: 0 <= j < i ==> fields[j].name != name
  {
    if fields == [] then 0
    else if fields[0].name == name then 0
    else 1 + IndexOf(fields[1..], name)
  }

  predicate IsObjectType(t: TypeRef)
  {
    t.kind.TypePrimitive? && t.qname == "Object"
  }

  predicate BareNamed(t: TypeRef)
  {
    t.kind.TypeNamed? && (t.bare || t.percent)
  }

  predicate BoxedVector(t: TypeRef)
  {
    t.kind.TypeVector? && t.qname == "Vector" && !t.bare && !t.percent
  }
}

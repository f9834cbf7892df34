/**
  What the edges of a transitive digest mean for values: everything that can be inside a value of a
  digested definition is digested, too, and an edge that is not dynamic leads to a definition that a
  field can really hold.
 */
module GraphCoverage {
  import opened Schema
  import opened Values
  import opened GraphDigest
  import DirectBytes

  // ---------------------------------------------------------------- everything inside a value

  /** Every object at this place and everything inside it has a reached key. */
  ghost predicate ReachedAt(s: SchemaModel, roots: seq<Key>, t: TypeRef, v: Value)
    decreases v, 1
  {
    match t.kind
    case TypeVector => v.Vec? && t.arg.Some? ==>
      forall i :: 0 <= i < |v.items| ==> ReachedAt(s, roots, t.arg.value, v.items[i])
    case TypePrimitive => IsObjectType(t) ==> ReachedInside(s, roots, v)
    case _ => ReachedInside(s, roots, v)
  }

  ghost predicate ReachedInside(s: SchemaModel, roots: seq<Key>, v: Value)
    decreases v, 0
  {
    v.Obj? ==>
      && Reached(s, roots, v.key) && v.key in s.byKey && Aligned(s.byKey[v.key], v.slots)
      && forall j :: 0 <= j < |v.slots| && v.slots[j].Val? ==>
           ReachedAt(s, roots, s.byKey[v.key].fields[j].ty, v.slots[j].v)
  }

  /** What a field of this type can hold depends on nothing outside the reached keys. */
  ghost predicate Covered(s: SchemaModel, roots: seq<Key>, t: TypeRef)
  {
    && (TypeDynamic(t) ==> forall k :: k in s.byKey ==> Reached(s, roots, k))
    && forall k :: k in TypeDependencies(s, t) ==> Reached(s, roots, k)
  }

  lemma FieldsCovered(s: SchemaModel, roots: seq<Key>, k: Key, i: nat)
    requires k in s.byKey && Reached(s, roots, k) && i < |s.byKey[k].fields| && s.byKey[k].fields[i].kind.FieldValue?
    ensures Covered(s, roots, s.byKey[k].fields[i].ty)
  {
    var d := s.byKey[k];
    var t := d.fields[i].ty;
    TypeDependenciesPresent(s, t);
    forall dep | dep in TypeDependencies(s, t) ensures Reached(s, roots, dep) {
      assert FieldDependsOn(s, d, i, dep);
      ReachedStep(s, roots, k, dep);
    }
    if TypeDynamic(t) {
      assert Dynamic(d);
      forall dep | dep in s.byKey ensures Reached(s, roots, dep) { ReachedStep(s, roots, k, dep); }
    }
  }

  lemma {:induction false} FieldsReached(s: SchemaModel, roots: seq<Key>, v: Value)
    requires DirectBytes.HasFields(s, v) && v.Obj? && Reached(s, roots, v.key)
    ensures ReachedInside(s, roots, v)
    decreases v, 0
  {
    var d := s.byKey[v.key];
    forall j | 0 <= j < |v.slots| && v.slots[j].Val? ensures ReachedAt(s, roots, d.fields[j].ty, v.slots[j].v) {
      FieldsCovered(s, roots, v.key, j);
      PlaceReached(s, roots, d.fields[j].ty, v.slots[j].v);
    }
  }

  lemma {:induction false} PlaceReached(s: SchemaModel, roots: seq<Key>, t: TypeRef, v: Value)
    requires DirectBytes.HasType(s, t, v) && Covered(s, roots, t)
    ensures ReachedAt(s, roots, t, v)
    decreases v, 1
  {
    if t.kind.TypeVector? {
      if v.Vec? && t.arg.Some? {
        assert Covered(s, roots, t.arg.value);
        forall i | 0 <= i < |v.items| ensures ReachedAt(s, roots, t.arg.value, v.items[i]) {
          PlaceReached(s, roots, t.arg.value, v.items[i]);
        }
      }
    } else if v.Obj? && (!t.kind.TypePrimitive? || IsObjectType(t)) {
      FieldsReached(s, roots, v);
    }
  }

  /**
    Every object inside a value of a digested definition, through vectors, classes, bare constructors
    and dynamic fields, belongs to a digested definition.
   */
  lemma DigestCoversValues(g: Graph, roots: seq<Key>, rs: seq<Record>, v: Value)
    requires ValidGraph(g) && Describes(g, roots, rs)
    requires v.Obj? && v.key in KeysOf(rs) && DirectBytes.HasFields(g.schema, v)
    ensures ReachedInside(g.schema, roots, v) && forall k :: k in KeysOf(rs) <==> Reached(g.schema, roots, k)
  {
    FieldsReached(g.schema, roots, v);
  }

  // ---------------------------------------------------------------- no edge without a value

  function Innermost(t: TypeRef): TypeRef
  {
    if t.kind.TypeVector? && t.arg.Some? then Innermost(t.arg.value) else t
  }

  /** A value with nothing in it. */
  function Hollow(d: Definition): seq<Slot>
  {
    seq(|d.fields|, i requires 0 <= i < |d.fields| =>
      if d.fields[i].kind.FieldFlagsWord? then Flags(seq(32, _ => false)) else Val(Nil))
  }

  lemma HollowTyped(s: SchemaModel, k: Key)
    requires k in s.byKey
    ensures DirectBytes.HasFields(s, Obj(k, Hollow(s.byKey[k]), true))
  {
    var v := Obj(k, Hollow(s.byKey[k]), true);
    forall i | 0 <= i < |v.slots| && v.slots[i].Val?
      ensures DirectBytes.HasType(s, s.byKey[k].fields[i].ty, v.slots[i].v)
    {
    }
  }

  ghost predicate Occurs(s: SchemaModel, t: TypeRef, k: Key)
  {
    exists slots :: DirectBytes.HasType(s, t, Obj(k, slots, true)) && k in s.byKey && Aligned(s.byKey[k], slots)
  }

  lemma {:induction false} DependenciesOfInnermost(s: SchemaModel, t: TypeRef)
    ensures TypeDependencies(s, t) == TypeDependencies(s, Innermost(t))
    decreases t
  {
    if t.kind.TypeVector? && t.arg.Some? { DependenciesOfInnermost(s, t.arg.value); }
  }

  /**
    A static edge leads to a constructor that the innermost type of the field can hold, and to every such constructor,
    unless the type names a constructor where a class should be: then the edge leads to that constructor.
   */
  lemma EdgesAreConstructors(s: SchemaModel, t: TypeRef, k: Key)
    requires Innermost(t).kind.TypeNamed?
    ensures var u := Innermost(t);
            if BareNamed(u) || Constructors(s, u.qname) != {} then k in TypeDependencies(s, t) <==> Occurs(s, u, k)
            else !Occurs(s, u, k) && (k in TypeDependencies(s, t) <==> k == Key(CategoryType, u.qname) && k in s.byKey)
  {
    DependenciesOfInnermost(s, t);
    var u := Innermost(t);
    if k in s.byKey && (if BareNamed(u) then k == Key(CategoryType, u.qname) else k in Constructors(s, u.qname)) {
      HollowTyped(s, k);
      assert DirectBytes.HasType(s, u, Obj(k, Hollow(s.byKey[k]), true));
    }
  }
}

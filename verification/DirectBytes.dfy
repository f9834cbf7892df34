/**
  What the direct/retag/rewrite decision promises about bytes. The wire form of a value
  is defined for any schema; a family classified direct has the same wire form under the
  canonical schema and under the layer, at every nesting depth.
 */
module DirectBytes {
  import opened Bin
  import opened Schema
  import opened Values
  import opened StaticDirty

  datatype Action = Absent | Unavailable | ProfileOnly | Policy | Direct | Retag | Rewrite

  /** The decision table of one family in one layer. */
  function Classify(u: Universe, k: Key, bodyObligations: bool, nested: bool): Action
  {
    match (Lookup(u.canonical, k), Lookup(u.target, k))
    case (None, None) => Absent
    case (Some(_), None) => Unavailable
    case (None, Some(_)) => ProfileOnly
    case (Some(c), Some(t)) =>
      if bodyObligations then Policy
      else if SameBody(c, t) && c.wireID == t.wireID && !nested then Direct
      else if SameBody(c, t) && c.wireID != t.wireID && !nested then Retag
      else Rewrite
  }

  // ---------------------------------------------------------------- wire form under a schema

  /**
    Bits of a flags word after the generated `SetFlags`: explicit bits plus the bits of non-zero
    conditional fields.
   */
  function EffectiveFlags(d: Definition, slots: seq<Slot>, w: nat): Fields
    requires Aligned(d, slots) && w < |slots| && slots[w].Flags?
  {
    seq(32, b requires 0 <= b < 32 => slots[w].bits[b] || SetByField(d, slots, d.fields[w].name, b))
  }

  predicate SetByField(d: Definition, slots: seq<Slot>, word: string, bit: nat)
    requires Aligned(d, slots)
  {
    exists j :: 0 <= j < |slots| && slots[j].Val? && OnSlot(d.fields[j], word, bit) && !IsZero(slots[j].v)
  }

  /** Whether the body of field `i` is written. */
  predicate Written(d: Definition, slots: seq<Slot>, i: nat)
    requires Aligned(d, slots) && i < |slots|
  {
    match d.fields[i].cond
    case None => true
    case Some(c) =>
      !c.presenceOnly && (HasBit(d, slots, c.word, c.bit) || SetByField(d, slots, c.word, c.bit))
  }

  function Join(a: Option<seq<Byte>>, b: Option<seq<Byte>>): Option<seq<Byte>>
  {
    if a.Some? && b.Some? then Some(a.value + b.value) else None
  }

  /** The generated encoder of schema `s`, as a function: `None` is an encoding error. */
  function Wire(s: SchemaModel, t: TypeRef, v: Value): Option<seq<Byte>>
    decreases v, 3
  {
    match t.kind
    case TypePrimitive =>
      if IsObjectType(t) then WireBoxed(s, v)
      else if PrimFits(KindOf(t.qname), v) then Some(PrimWire(KindOf(t.qname), v)) else None
    case TypeGenericRef => WireBoxed(s, v)
    case TypeNamed => if BareNamed(t) then WireBare(s, v) else WireBoxed(s, v)
    case TypeVector =>
      if t.arg.None? then None
      else match v {
        case Nil => Some(Values.VectorHeader(BoxedVector(t), 0))
        case Vec(items) => Join(Some(Values.VectorHeader(BoxedVector(t), |items|)), WireItems(s, t.arg.value, v, 0))
        case _ => None
      }
  }

  function WireItems(s: SchemaModel, t: TypeRef, v: Value, i: nat): Option<seq<Byte>>
    requires v.Vec? && i <= |v.items|
    decreases v, 1, |v.items| - i
  {
    if i == |v.items| then Some([]) else Join(Wire(s, t, v.items[i]), WireItems(s, t, v, i + 1))
  }

  function WireBoxed(s: SchemaModel, v: Value): Option<seq<Byte>>
    decreases v, 2
  {
    if v.Obj? && v.key in s.byKey then Join(Some(LE(4, s.byKey[v.key].wireID)), WireBare(s, v)) else None
  }

  function WireBare(s: SchemaModel, v: Value): Option<seq<Byte>>
    decreases v, 1
  {
    if v.Obj? && v.key in s.byKey && Aligned(s.byKey[v.key], v.slots) then WireFields(s, v, 0) else None
  }

  function WireFields(s: SchemaModel, v: Value, i: nat): Option<seq<Byte>>
    requires v.Obj? && v.key in s.byKey && Aligned(s.byKey[v.key], v.slots) && i <= |v.slots|
    decreases v, 0, |v.slots| - i
  {
    if i == |v.slots| then Some([])
    else
      var d := s.byKey[v.key];
      var here :=
        if v.slots[i].Flags? then Some(FlagsWire(EffectiveFlags(d, v.slots, i)))
        else if Written(d, v.slots, i) then Wire(s, d.fields[i].ty, v.slots[i].v)
        else Some([]);
      Join(here, WireFields(s, v, i + 1))
  }

  // ---------------------------------------------------------------- typing under the canonical schema

  /** `v` can occur where the canonical schema says `t`. */
  ghost predicate HasType(s: SchemaModel, t: TypeRef, v: Value)
    decreases v, 1
  {
    match t.kind
    case TypePrimitive => IsObjectType(t) ==> HasFields(s, v)
    case TypeGenericRef => HasFields(s, v)
    case TypeNamed =>
      v.Obj? ==>
        && HasFields(s, v)
        && (if BareNamed(t) then v.key == Key(CategoryType, t.qname) else v.key in Constructors(s, t.qname))
    case TypeVector => v.Vec? && t.arg.Some? ==> forall i :: 0 <= i < |v.items| ==> HasType(s, t.arg.value, v.items[i])
  }

  ghost predicate HasFields(s: SchemaModel, v: Value)
    decreases v, 0
  {
    v.Obj? ==>
      && v.key in s.byKey
      && Aligned(s.byKey[v.key], v.slots)
      && forall i :: 0 <= i < |v.slots| && v.slots[i].Val? ==> HasType(s, s.byKey[v.key].fields[i].ty, v.slots[i].v)
  }

  // ---------------------------------------------------------------- which identifiers a value writes

  /** Every identifier written for `v` is the same in both schemas. */
  ghost predicate KeepsIds(u: Universe, t: TypeRef, v: Value)
    decreases v, 3
  {
    match t.kind
    case TypePrimitive => IsObjectType(t) ==> KeepsBoxedId(u, v)
    case TypeGenericRef => KeepsBoxedId(u, v)
    case TypeNamed => if BareNamed(t) then KeepsInnerIds(u, v) else KeepsBoxedId(u, v)
    case TypeVector => v.Vec? && t.arg.Some? ==> forall i :: 0 <= i < |v.items| ==> KeepsIds(u, t.arg.value, v.items[i])
  }

  ghost predicate KeepsBoxedId(u: Universe, v: Value)
    decreases v, 2
  {
    v.Obj? && v.key in u.canonical.byKey && v.key in u.target.byKey ==>
      u.canonical.byKey[v.key].wireID == u.target.byKey[v.key].wireID && KeepsInnerIds(u, v)
  }

  ghost predicate KeepsInnerIds(u: Universe, v: Value)
    decreases v, 1
  {
    v.Obj? && v.key in u.canonical.byKey && Aligned(u.canonical.byKey[v.key], v.slots) ==>
      forall i :: 0 <= i < |v.slots| && v.slots[i].Val? && Written(u.canonical.byKey[v.key], v.slots, i) ==>
        KeepsIds(u, u.canonical.byKey[v.key].fields[i].ty, v.slots[i].v)
  }

  /** Writing `v` as `t` under one schema puts an object of family `f` on the wire with its identifier. */
  ghost predicate WritesBoxed(s: SchemaModel, f: Key, t: TypeRef, v: Value)
    decreases v, 3
  {
    match t.kind
    case TypePrimitive => IsObjectType(t) && IsOrHoldsBoxed(s, f, v)
    case TypeGenericRef => IsOrHoldsBoxed(s, f, v)
    case TypeNamed => if BareNamed(t) then HoldsBoxed(s, f, v) else IsOrHoldsBoxed(s, f, v)
    case TypeVector => v.Vec? && t.arg.Some? && exists i ::
                         0 <= i < |v.items| && WritesBoxed(s, f, t.arg.value, v.items[i])
  }

  ghost predicate IsOrHoldsBoxed(s: SchemaModel, f: Key, v: Value)
    decreases v, 2
  {
    v.Obj? && (v.key == f || HoldsBoxed(s, f, v))
  }

  /** Some written field of `v`, at any depth, holds an object of family `f` boxed. */
  ghost predicate HoldsBoxed(s: SchemaModel, f: Key, v: Value)
    decreases v, 1
  {
    v.Obj? && v.key in s.byKey && Aligned(s.byKey[v.key], v.slots) &&
      exists i :: 0 <= i < |v.slots| && v.slots[i].Val? && Written(s.byKey[v.key], v.slots, i) &&
        WritesBoxed(s, f, s.byKey[v.key].fields[i].ty, v.slots[i].v)
  }

  // ---------------------------------------------------------------- the core induction

  /** Families with the same body on both sides, closed under everything their fields can hold. */
  ghost predicate SameBodyClosed(u: Universe, s: set<Key>)
  {
    forall k :: k in s ==>
      && k in u.canonical.byKey && k in u.target.byKey
      && SameBody(u.canonical.byKey[k], u.target.byKey[k])
      && forall i :: 0 <= i < |u.canonical.byKey[k].fields| && u.canonical.byKey[k].fields[i].kind.FieldValue? ==>
           Covers(u, s, u.canonical.byKey[k].fields[i].ty)
  }

  ghost predicate Covers(u: Universe, s: set<Key>, t: TypeRef)
  {
    TypeDependencies(u, t) * u.canonical.byKey.Keys <= s && (TypeDynamic(t) ==> u.canonical.byKey.Keys <= s)
  }

  ghost predicate SameWire(a: Option<seq<Byte>>, b: Option<seq<Byte>>, same: bool)
  {
    && (a.Some? <==> b.Some?)
    && (a.Some? ==> |a.value| == |b.value| && (a.value == b.value <==> same))
  }

  lemma JoinSame(a: Option<seq<Byte>>, b: Option<seq<Byte>>, a': Option<seq<Byte>>, b': Option<seq<Byte>>, p: bool,
                 q: bool)
    requires SameWire(a, a', p) && SameWire(b, b', q)
    ensures SameWire(Join(a, b), Join(a', b'), p && q)
  {
    if a.Some? && b.Some? {
      var x, x' := a.value + b.value, a'.value + b'.value;
      if x == x' {
        assert a.value == x[..|a.value|] == a'.value;
        assert b.value == x[|a.value|..] == b'.value;
      }
    }
  }

  lemma IdBytes(a: nat, b: nat)
    requires a < 0x1_0000_0000 && b < 0x1_0000_0000
    ensures LE(4, a) == LE(4, b) <==> a == b
  {
    Pow256Values();
    WordRoundTrip(4, a, []);
    WordRoundTrip(4, b, []);
  }

  /**
    For values built from families with unchanged bodies, both schemas write equally
    many bytes, and they write equal bytes exactly when no written identifier changed.
   */
  lemma {:induction false} WireAgrees(u: Universe, s: set<Key>, t: TypeRef, v: Value)
    requires ValidUniverse(u) && SameBodyClosed(u, s) && Covers(u, s, t) && HasType(u.canonical, t, v)
    ensures SameWire(Wire(u.canonical, t, v), Wire(u.target, t, v), KeepsIds(u, t, v))
    decreases v, 3
  {
    match t.kind {
      case TypePrimitive =>
        if IsObjectType(t) { BoxedAgrees(u, s, v); }
      case TypeGenericRef => BoxedAgrees(u, s, v);
      case TypeNamed =>
        if v.Obj? {
          if BareNamed(t) { BareAgrees(u, s, v); } else { BoxedAgrees(u, s, v); }
        }
      case TypeVector =>
        if t.arg.Some? && v.Vec? {
          ItemsAgree(u, s, t, v, 0);
          var h := Some(Values.VectorHeader(BoxedVector(t), |v.items|));
          JoinSame(h, WireItems(u.canonical, t.arg.value, v, 0), h, WireItems(u.target, t.arg.value, v, 0),
                   true, KeepsItemIds(u, t.arg.value, v, 0));
        }
    }
  }

  ghost predicate KeepsItemIds(u: Universe, t: TypeRef, v: Value, i: nat)
    requires v.Vec?
  {
    forall j :: i <= j < |v.items| ==> KeepsIds(u, t, v.items[j])
  }

  lemma {:induction false} ItemsAgree(u: Universe, s: set<Key>, t: TypeRef, v: Value, i: nat)
    requires ValidUniverse(u) && SameBodyClosed(u, s) && t.kind.TypeVector? && t.arg.Some? && Covers(u, s, t)
    requires v.Vec? && i <= |v.items| && HasType(u.canonical, t, v)
    ensures SameWire(WireItems(u.canonical, t.arg.value, v, i), WireItems(u.target, t.arg.value, v, i),
                     KeepsItemIds(u, t.arg.value, v, i))
    decreases v, 1, |v.items| - i
  {
    if i < |v.items| {
      var a := t.arg.value;
      WireAgrees(u, s, a, v.items[i]);
      ItemsAgree(u, s, t, v, i + 1);
      JoinSame(Wire(u.canonical, a, v.items[i]), WireItems(u.canonical, a, v, i + 1),
               Wire(u.target, a, v.items[i]), WireItems(u.target, a, v, i + 1),
               KeepsIds(u, a, v.items[i]), KeepsItemIds(u, a, v, i + 1));
      assert KeepsItemIds(u, a, v, i) <==> KeepsIds(u, a, v.items[i]) && KeepsItemIds(u, a, v, i + 1);
    }
  }

  lemma {:induction false} BoxedAgrees(u: Universe, s: set<Key>, v: Value)
    requires ValidUniverse(u) && SameBodyClosed(u, s) && HasFields(u.canonical, v) && (v.Obj? ==> v.key in s)
    ensures SameWire(WireBoxed(u.canonical, v), WireBoxed(u.target, v), KeepsBoxedId(u, v))
    decreases v, 2
  {
    if v.Obj? {
      BareAgrees(u, s, v);
      var c, t := u.canonical.byKey[v.key], u.target.byKey[v.key];
      IdBytes(c.wireID, t.wireID);
      JoinSame(Some(LE(4, c.wireID)), WireBare(u.canonical, v), Some(LE(4, t.wireID)), WireBare(u.target, v),
               c.wireID == t.wireID, KeepsInnerIds(u, v));
    }
  }

  lemma {:induction false} BareAgrees(u: Universe, s: set<Key>, v: Value)
    requires ValidUniverse(u) && SameBodyClosed(u, s) && HasFields(u.canonical, v) && v.Obj? && v.key in s
    ensures SameWire(WireBare(u.canonical, v), WireBare(u.target, v), KeepsInnerIds(u, v))
    decreases v, 1
  {
    assert Aligned(u.target.byKey[v.key], v.slots);
    forall i | 0 <= i < |v.slots|
      ensures SameWire(FieldWire(u.canonical, v, i), FieldWire(u.target, v, i), KeepsFieldId(u, v, i))
    {
      FieldAgrees(u, s, v, i);
    }
    FieldsAgree(u, v, 0);
  }

  ghost predicate KeepsFieldIds(u: Universe, v: Value, i: nat)
    requires v.Obj? && v.key in u.canonical.byKey && Aligned(u.canonical.byKey[v.key], v.slots)
  {
    forall j :: i <= j < |v.slots| && v.slots[j].Val? && Written(u.canonical.byKey[v.key], v.slots, j) ==>
      KeepsIds(u, u.canonical.byKey[v.key].fields[j].ty, v.slots[j].v)
  }

  /** Same shapes give the same flag bits and the same set of written fields. */
  lemma SameBodySamePresence(c: Definition, t: Definition, slots: seq<Slot>, i: nat)
    requires SameBody(c, t) && Aligned(c, slots) && i < |slots|
    requires UniqueNames(c.fields) && UniqueNames(t.fields)
    ensures Aligned(t, slots)
    ensures Written(c, slots, i) == Written(t, slots, i)
    ensures slots[i].Flags? ==> EffectiveFlags(c, slots, i) == EffectiveFlags(t, slots, i)
  {
    forall word, bit: nat
      ensures SetByField(c, slots, word, bit) == SetByField(t, slots, word, bit)
    {
      SameSetByField(c, t, slots, word, bit);
      SameSetByField(t, c, slots, word, bit);
    }
    if c.fields[i].cond.Some? {
      SameIndex(c, t, c.fields[i].cond.value.word);
    }
  }

  lemma SameSetByField(c: Definition, t: Definition, slots: seq<Slot>, word: string, bit: nat)
    requires SameBody(c, t) && Aligned(c, slots) && Aligned(t, slots)
    ensures SetByField(c, slots, word, bit) ==> SetByField(t, slots, word, bit)
  {
    if SetByField(c, slots, word, bit) {
      var j :| 0 <= j < |slots| && slots[j].Val? && OnSlot(c.fields[j], word, bit) && !IsZero(slots[j].v);
      assert OnSlot(t.fields[j], word, bit);
    }
  }

  lemma SameIndex(c: Definition, t: Definition, name: string)
    requires SameBody(c, t) && UniqueNames(c.fields) && UniqueNames(t.fields)
    ensures IndexOf(c.fields, name) == IndexOf(t.fields, name)
  {
    var i, j := IndexOf(c.fields, name), IndexOf(t.fields, name);
    if i < |c.fields| { assert t.fields[i].name == name; }
    if j < |c.fields| { assert c.fields[j].name == name; }
  }

  ghost predicate EachFieldAgrees(u: Universe, v: Value)
    requires v.Obj? && v.key in u.canonical.byKey && v.key in u.target.byKey
    requires Aligned(u.canonical.byKey[v.key], v.slots) && Aligned(u.target.byKey[v.key], v.slots)
  {
    forall j :: 0 <= j < |v.slots| ==> SameWire(FieldWire(u.canonical, v, j), FieldWire(u.target, v, j),
                                                KeepsFieldId(u, v, j))
  }

  lemma {:induction false} FieldsAgree(u: Universe, v: Value, i: nat)
    requires v.Obj? && v.key in u.canonical.byKey && v.key in u.target.byKey && i <= |v.slots|
    requires Aligned(u.canonical.byKey[v.key], v.slots) && Aligned(u.target.byKey[v.key], v.slots) &&
             EachFieldAgrees(u, v)
    ensures SameWire(WireFields(u.canonical, v, i), WireFields(u.target, v, i), KeepsFieldIds(u, v, i))
    decreases |v.slots| - i
  {
    if i < |v.slots| {
      FieldsAgree(u, v, i + 1);
      FieldBefore(u, v, i);
    }
  }

  /** What one field contributes. */
  function FieldWire(s: SchemaModel, v: Value, i: nat): Option<seq<Byte>>
    requires v.Obj? && v.key in s.byKey && Aligned(s.byKey[v.key], v.slots) && i < |v.slots|
  {
    var d := s.byKey[v.key];
    if v.slots[i].Flags? then Some(FlagsWire(EffectiveFlags(d, v.slots, i)))
    else if Written(d, v.slots, i) then Wire(s, d.fields[i].ty, v.slots[i].v)
    else Some([])
  }

  lemma SplitFields(s: SchemaModel, v: Value, i: nat)
    requires v.Obj? && v.key in s.byKey && Aligned(s.byKey[v.key], v.slots) && i < |v.slots|
    ensures WireFields(s, v, i) == Join(FieldWire(s, v, i), WireFields(s, v, i + 1))
  {
  }

  ghost predicate KeepsFieldId(u: Universe, v: Value, i: nat)
    requires v.Obj? && v.key in u.canonical.byKey && Aligned(u.canonical.byKey[v.key], v.slots) && i < |v.slots|
  {
    var c := u.canonical.byKey[v.key];
    v.slots[i].Val? && Written(c, v.slots, i) ==> KeepsIds(u, c.fields[i].ty, v.slots[i].v)
  }

  lemma {:induction false} FieldAgrees(u: Universe, s: set<Key>, v: Value, i: nat)
    requires ValidUniverse(u) && SameBodyClosed(u, s) && HasFields(u.canonical, v) && v.Obj? && v.key in s &&
             i < |v.slots|
    ensures Aligned(u.target.byKey[v.key], v.slots)
    ensures SameWire(FieldWire(u.canonical, v, i), FieldWire(u.target, v, i), KeepsFieldId(u, v, i))
    decreases v, 0, 0
  {
    var c, t := u.canonical.byKey[v.key], u.target.byKey[v.key];
    SameBodySamePresence(c, t, v.slots, i);
    if v.slots[i].Val? && Written(c, v.slots, i) {
      assert Covers(u, s, c.fields[i].ty);
      WireAgrees(u, s, c.fields[i].ty, v.slots[i].v);
    }
  }

  lemma FieldBefore(u: Universe, v: Value, i: nat)
    requires v.Obj? && v.key in u.canonical.byKey && v.key in u.target.byKey && i < |v.slots|
    requires Aligned(u.canonical.byKey[v.key], v.slots) && Aligned(u.target.byKey[v.key], v.slots)
    requires SameWire(FieldWire(u.canonical, v, i), FieldWire(u.target, v, i), KeepsFieldId(u, v, i))
    requires SameWire(WireFields(u.canonical, v, i + 1), WireFields(u.target, v, i + 1), KeepsFieldIds(u, v, i + 1))
    ensures SameWire(WireFields(u.canonical, v, i), WireFields(u.target, v, i), KeepsFieldIds(u, v, i))
  {
    SplitFields(u.canonical, v, i);
    SplitFields(u.target, v, i);
    JoinSame(FieldWire(u.canonical, v, i), WireFields(u.canonical, v, i + 1), FieldWire(u.target, v, i),
             WireFields(u.target, v, i + 1),
             KeepsFieldId(u, v, i), KeepsFieldIds(u, v, i + 1));
    OneMoreField(u, v, i);
  }

  lemma OneMoreField(u: Universe, v: Value, i: nat)
    requires v.Obj? && v.key in u.canonical.byKey && Aligned(u.canonical.byKey[v.key], v.slots) && i < |v.slots|
    ensures KeepsFieldIds(u, v, i) <==> KeepsFieldId(u, v, i) && KeepsFieldIds(u, v, i + 1)
  {
  }

  // ---------------------------------------------------------------- the theorems

  ghost function UnchangedFamilies(u: Universe, states: map<Key, Dirty>): set<Key>
    requires Analysis(u, states)
  {
    set k | k in u.families && k in u.canonical.byKey && !BodyChanged(u, k) && !states[k].nested
  }

  /** A family the analysis left unmarked reaches, besides itself, only unchanged families. */
  lemma UnmarkedIsClosed(u: Universe, states: map<Key, Dirty>, f: Key)
    requires ValidUniverse(u) && Analysis(u, states)
    requires f in u.canonical.byKey && f in u.target.byKey && SameBody(u.canonical.byKey[f], u.target.byKey[f])
    requires !states[f].nested
    ensures SameBodyClosed(u, UnchangedFamilies(u, states) + {f})
  {
    var s := UnchangedFamilies(u, states) + {f};
    forall k, i | k in s && 0 <= i < |u.canonical.byKey[k].fields| && u.canonical.byKey[k].fields[i].kind.FieldValue?
      ensures Covers(u, s, u.canonical.byKey[k].fields[i].ty)
    {
      FieldCovered(u, states, k, i);
    }
  }

  lemma FieldCovered(u: Universe, states: map<Key, Dirty>, k: Key, i: nat)
    requires ValidUniverse(u) && Analysis(u, states) && k in u.canonical.byKey && !states[k].nested
    requires i < |u.canonical.byKey[k].fields| && u.canonical.byKey[k].fields[i].kind.FieldValue?
    ensures Covers(u, UnchangedFamilies(u, states) + {k}, u.canonical.byKey[k].fields[i].ty)
    ensures forall d :: d in TypeDependencies(u, u.canonical.byKey[k].fields[i].ty) ==> DependsOn(u, k, d)
  {
    var t := u.canonical.byKey[k].fields[i].ty;
    var nested := NestedKeys(states);
    assert k !in nested;
    forall d | d in TypeDependencies(u, t)
      ensures DependsOn(u, k, d)
      ensures d in u.canonical.byKey ==> d == k || d in UnchangedFamilies(u, states)
    {
      assert DefinitionDependsOn(u, u.canonical.byKey[k], d);
      assert d != k ==> !BodyChanged(u, d) && d !in nested;
    }
    if TypeDynamic(t) {
      assert DefinitionDynamic(u.canonical.byKey[k]);
      assert IsDynamic(u, k);
      assert !SomeBodyChanged(u);
      assert NestedClosed(u, {});
      assert nested <= {};
      assert forall d :: d in u.families ==> d !in nested && !states[d].nested;
    }
  }

  ghost predicate SameIds(u: Universe, s: set<Key>)
  {
    forall k :: k in s && k in u.canonical.byKey && k in u.target.byKey ==>
      u.canonical.byKey[k].wireID == u.target.byKey[k].wireID
  }

  lemma {:induction false} SameIdsKept(u: Universe, s: set<Key>, t: TypeRef, v: Value)
    requires SameBodyClosed(u, s) && SameIds(u, s) && Covers(u, s, t) && HasType(u.canonical, t, v)
    requires u.canonical.byKey.Keys <= u.families
    ensures KeepsIds(u, t, v)
    decreases v, 1
  {
    if t.kind.TypeVector? {
      if v.Vec? && t.arg.Some? {
        forall i | 0 <= i < |v.items| ensures KeepsIds(u, t.arg.value, v.items[i]) {
          SameIdsKept(u, s, t.arg.value, v.items[i]);
        }
      }
    } else if v.Obj? && (t.kind.TypePrimitive? ==> IsObjectType(t)) {
      SameInnerIdsKept(u, s, v);
    }
  }

  lemma {:induction false} SameInnerIdsKept(u: Universe, s: set<Key>, v: Value)
    requires SameBodyClosed(u, s) && SameIds(u, s) && v.Obj? && v.key in s && HasFields(u.canonical, v)
    requires u.canonical.byKey.Keys <= u.families
    ensures KeepsInnerIds(u, v)
    decreases v, 0
  {
    var c := u.canonical.byKey[v.key];
    forall i | 0 <= i < |v.slots| && v.slots[i].Val? && Written(c, v.slots, i)
      ensures KeepsIds(u, c.fields[i].ty, v.slots[i].v)
    {
      SameIdsKept(u, s, c.fields[i].ty, v.slots[i].v);
    }
  }

  /** Of the families in `s` exactly `f` has a new identifier. */
  ghost predicate OnlyIdChanged(u: Universe, s: set<Key>, f: Key)
  {
    forall k :: k in s && k in u.canonical.byKey && k in u.target.byKey ==>
      (u.canonical.byKey[k].wireID == u.target.byKey[k].wireID <==> k != f)
  }

  /** If only one identifier changed, a value keeps all it writes exactly when it writes none of that family. */
  lemma {:induction false} IdsKeptUnlessBoxed(u: Universe, s: set<Key>, f: Key, t: TypeRef, v: Value)
    requires SameBodyClosed(u, s) && OnlyIdChanged(u, s, f) && Covers(u, s, t) && HasType(u.canonical, t, v)
    requires u.canonical.byKey.Keys <= u.families
    ensures KeepsIds(u, t, v) <==> !WritesBoxed(u.canonical, f, t, v)
    decreases v, 1
  {
    if t.kind.TypeVector? {
      if v.Vec? && t.arg.Some? {
        forall i | 0 <= i < |v.items|
          ensures KeepsIds(u, t.arg.value, v.items[i]) <==> !WritesBoxed(u.canonical, f, t.arg.value, v.items[i])
        {
          IdsKeptUnlessBoxed(u, s, f, t.arg.value, v.items[i]);
        }
      }
    } else if v.Obj? && (t.kind.TypePrimitive? ==> IsObjectType(t)) {
      InnerIdsKeptUnlessBoxed(u, s, f, v);
    }
  }

  lemma {:induction false} InnerIdsKeptUnlessBoxed(u: Universe, s: set<Key>, f: Key, v: Value)
    requires SameBodyClosed(u, s) && OnlyIdChanged(u, s, f) && v.Obj? && v.key in s && HasFields(u.canonical, v)
    requires u.canonical.byKey.Keys <= u.families
    ensures KeepsInnerIds(u, v) <==> !HoldsBoxed(u.canonical, f, v)
    ensures KeepsBoxedId(u, v) <==> !IsOrHoldsBoxed(u.canonical, f, v)
    decreases v, 0
  {
    var c := u.canonical.byKey[v.key];
    forall i | 0 <= i < |v.slots| && v.slots[i].Val? && Written(c, v.slots, i)
      ensures KeepsIds(u, c.fields[i].ty, v.slots[i].v) <==> !WritesBoxed(u.canonical, f, c.fields[i].ty, v.slots[i].v)
    {
      IdsKeptUnlessBoxed(u, s, f, c.fields[i].ty, v.slots[i].v);
    }
  }

  /**
    Direct means direct: every canonical value of a direct family, boxed or bare and
    through any nesting of vectors, classes, bare constructors and recursion, has the
    same bytes under the layer's schema as under the canonical one.
   */
  lemma DirectKeepsBytes(u: Universe, states: map<Key, Dirty>, f: Key, bodyObligations: bool, v: Value)
    requires ValidUniverse(u) && Analysis(u, states) && f in u.families
    requires Classify(u, f, bodyObligations, states[f].nested) == Direct
    requires v.Obj? && v.key == f && HasFields(u.canonical, v)
    ensures WireBoxed(u.canonical, v) == WireBoxed(u.target, v)
    ensures WireBare(u.canonical, v) == WireBare(u.target, v)
  {
    UnmarkedIsClosed(u, states, f);
    var s := UnchangedFamilies(u, states);
    assert s + {f} == s;
    assert SameIds(u, s);
    SameInnerIdsKept(u, s, v);
    BoxedAgrees(u, s, v);
    BareAgrees(u, s, v);
  }

  /**
    Retag replaces only the outer identifier. That is enough exactly when the value holds no
    boxed object of its own family, and always when the family does not depend on itself.
   */
  lemma RetagBodyExact(u: Universe, states: map<Key, Dirty>, f: Key, bodyObligations: bool, v: Value)
    requires ValidUniverse(u) && Analysis(u, states) && f in u.families
    requires Classify(u, f, bodyObligations, states[f].nested) == Retag
    requires v.Obj? && v.key == f && HasFields(u.canonical, v)
    ensures WireBare(u.canonical, v).Some? <==> WireBare(u.target, v).Some?
    ensures WireBare(u.canonical, v).Some? ==>
              (WireBare(u.canonical, v) == WireBare(u.target, v) <==> !HoldsBoxed(u.canonical, f, v))
    ensures !DependsOn(u, f, f) ==> WireBare(u.canonical, v) == WireBare(u.target, v)
  {
    var s := UnchangedFamilies(u, states) + {f};
    RetagClosed(u, states, f);
    BareAgrees(u, s, v);
    InnerIdsKeptUnlessBoxed(u, s, f, v);
    if !DependsOn(u, f, f) {
      IndependentKeepsIds(u, states, f, v);
    }
  }

  lemma RetagClosed(u: Universe, states: map<Key, Dirty>, f: Key)
    requires ValidUniverse(u) && Analysis(u, states) && f in u.canonical.byKey && f in u.target.byKey &&
             !states[f].nested
    requires SameBody(u.canonical.byKey[f], u.target.byKey[f]) &&
             u.canonical.byKey[f].wireID != u.target.byKey[f].wireID
    ensures SameBodyClosed(u, UnchangedFamilies(u, states) + {f}) &&
            OnlyIdChanged(u, UnchangedFamilies(u, states) + {f}, f)
  {
    UnmarkedIsClosed(u, states, f);
  }

  /** A retagged family that does not depend on itself writes only unchanged identifiers inside. */
  lemma IndependentKeepsIds(u: Universe, states: map<Key, Dirty>, f: Key, v: Value)
    requires ValidUniverse(u) && Analysis(u, states) && f in u.families && f in u.canonical.byKey && f in u.target.byKey
    requires BodyChanged(u, f) && !states[f].nested && !DependsOn(u, f, f)
    requires v.Obj? && v.key == f && HasFields(u.canonical, v)
    ensures KeepsInnerIds(u, v)
  {
    var c := u.canonical.byKey[f];
    var clean := UnchangedFamilies(u, states);
    forall i | 0 <= i < |v.slots| && v.slots[i].Val? && Written(c, v.slots, i)
      ensures KeepsIds(u, c.fields[i].ty, v.slots[i].v)
    {
      FieldCovered(u, states, f, i);
      CleanClosed(u, states);
      assert SomeBodyChanged(u);
      assert f !in NestedKeys(states);
      assert TypeDynamic(c.fields[i].ty) ==> DefinitionDynamic(c);
      assert Covers(u, clean, c.fields[i].ty);
      SameIdsKept(u, clean, c.fields[i].ty, v.slots[i].v);
    }
  }

  lemma CleanClosed(u: Universe, states: map<Key, Dirty>)
    requires ValidUniverse(u) && Analysis(u, states)
    ensures SameBodyClosed(u, UnchangedFamilies(u, states)) && SameIds(u, UnchangedFamilies(u, states))
  {
    var s := UnchangedFamilies(u, states);
    forall k, i | k in s && 0 <= i < |u.canonical.byKey[k].fields| && u.canonical.byKey[k].fields[i].kind.FieldValue?
      ensures Covers(u, s, u.canonical.byKey[k].fields[i].ty)
    {
      FieldCovered(u, states, k, i);
      assert s + {k} == s;
    }
  }

  // ---------------------------------------------------------------- a retagged family that contains itself

  const NODE := Key(CategoryType, "node")
  const NODES := TypeRef(TypeVector, "Vector", false, false, Some(TypeRef(TypeNamed, "Node", false, false, None)))

  function NodeSchema(id: nat): SchemaModel
  {
    SchemaModel(map[NODE := Definition(NODE, id, [], [FieldShape(FieldValue, "next", 0, NODES, None)],
                                       TypeRef(TypeNamed, "Node", false, false, None), false)])
  }

  const NODE_UNIVERSE := Universe({NODE}, NodeSchema(1), NodeSchema(2))

  const NODE_LEAF := Obj(NODE, [Val(Nil)], true)
  const NODE_PAIR := Obj(NODE, [Val(Vec([NODE_LEAF]))], true)

  /**
    The reverse graph skips self edges, so a recursive constructor whose identifier
    changed is still classified retag although its nested copies carry the new identifier.
   */
  lemma RetagSelfReferenceCounterexample(states: map<Key, Dirty>)
    requires Analysis(NODE_UNIVERSE, states)
    ensures Classify(NODE_UNIVERSE, NODE, false, states[NODE].nested) == Retag
    ensures WireBare(NodeSchema(1), NODE_PAIR) != WireBare(NodeSchema(2), NODE_PAIR)
    ensures HasFields(NodeSchema(1), NODE_PAIR)
  {
    NodeUnmarked(states);
    NodeTyped(1);
    NodeIdChanges();
    NodeEncodes(1);
    var u := NODE_UNIVERSE;
    BareAgrees(u, {NODE}, NODE_PAIR);
  }

  lemma NodeUnmarked(states: map<Key, Dirty>)
    requires Analysis(NODE_UNIVERSE, states)
    ensures !states[NODE].nested
  {
    var u := NODE_UNIVERSE;
    assert !TypeDynamic(NODES);
    assert !IsDynamic(u, NODE);
    assert NestedClosed(u, {});
    assert NODE !in NestedKeys(states);
  }

  lemma NodeIdChanges()
    ensures ValidUniverse(NODE_UNIVERSE) && SameBodyClosed(NODE_UNIVERSE, {NODE})
    ensures !KeepsInnerIds(NODE_UNIVERSE, NODE_PAIR)
  {
    var u := NODE_UNIVERSE;
    assert Written(u.canonical.byKey[NODE], NODE_PAIR.slots, 0);
    assert !KeepsBoxedId(u, NODE_LEAF);
    assert !KeepsIds(u, NODES.arg.value, Vec([NODE_LEAF]).items[0]);
    assert !KeepsIds(u, NODES, Vec([NODE_LEAF]));
  }

  lemma NodeTyped(id: nat)
    ensures HasFields(NodeSchema(id), NODE_PAIR)
  {
    assert HasFields(NodeSchema(id), NODE_LEAF);
    assert NODE in Constructors(NodeSchema(id), "Node");
    assert HasType(NodeSchema(id), NODES.arg.value, Vec([NODE_LEAF]).items[0]);
    assert HasType(NodeSchema(id), NODES, Vec([NODE_LEAF]));
  }

  lemma NodeEncodes(id: nat)
    ensures WireBare(NodeSchema(id), NODE_PAIR).Some?
  {
    var s := NodeSchema(id);
    assert WireFields(s, NODE_LEAF, 1) == Some([]);
    assert WireBare(s, NODE_LEAF).Some?;
    assert WireBoxed(s, NODE_LEAF).Some?;
    var v := Vec([NODE_LEAF]);
    assert WireItems(s, NODES.arg.value, v, 1) == Some([]);
    assert Wire(s, NODES.arg.value, v.items[0]).Some?;
    assert WireItems(s, NODES.arg.value, v, 0).Some?;
    assert Wire(s, NODES, v).Some?;
    assert WireFields(s, NODE_PAIR, 1) == Some([]);
    assert WireFields(s, NODE_PAIR, 0).Some?;
  }
}

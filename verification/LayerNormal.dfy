/**
  What a layer gives back when it drops nothing: a value that depends only on the canonical
  schema, with flag words saying exactly what is set. The values that come back unchanged are
  characterised by their canonical definitions alone, not by the bits and field order of the layer.
 */
module LayerNormal {
  import opened Bin
  import opened Schema
  import opened Values
  import opened LayerCodec
  import opened LayerRoundTrip
  import opened LayerRewrite
  import DirectBytes
  import Obligations

  type ZeroMap = map<Key, seq<Slot>>

  /** A struct of a known family. */
  predicate Shaped(s: SchemaModel, zero: ZeroMap, v: Value)
  {
    && v.Obj? && v.key in s.byKey && Aligned(s.byKey[v.key], v.slots)
    && v.key in zero && Aligned(s.byKey[v.key], zero[v.key])
  }

  ghost predicate ZeroStructs(s: SchemaModel, zero: ZeroMap)
  {
    forall k :: k in s.byKey && k in zero && Aligned(s.byKey[k], zero[k]) ==>
      ValidDefinition(s.byKey[k]) && forall i :: 0 <= i < |zero[k]| ==> SlotIsZero(zero[k][i])
  }

  // ---------------------------------------------------------------- flag normalisation

  /**
    Flag normalisation under the canonical schema: empty slices are nil, a bit is set exactly
    when it has an owner and its group is raised, fields of other groups are zero and
    presence-only members of raised groups are true.
   */
  ghost function Clear(s: SchemaModel, zero: ZeroMap, t: TypeRef, v: Value): Value
    decreases v, 1
  {
    if PlainPrimitive(t) then NormPrim(v)
    else if t.kind.TypeVector? then
      if v.Vec? && t.arg.Some? then
        if v.items == [] then Nil
        else Vec(seq(|v.items|, i requires 0 <= i < |v.items| => Clear(s, zero, t.arg.value, v.items[i])))
      else v
    else if Shaped(s, zero, v) then Obj(v.key, seq(|v.slots|,
                                                   j requires 0 <= j < |v.slots| => ClearSlot(s, zero, v, j)), v.iface)
    else v
  }

  ghost function ClearSlot(s: SchemaModel, zero: ZeroMap, v: Value, j: nat): Slot
    requires Shaped(s, zero, v) && j < |v.slots|
    decreases v, 0
  {
    var c := s.byKey[v.key];
    match v.slots[j]
    case Flags(_) =>
      Flags(seq(32, b requires 0 <= b < 32 => Owned(c, c.fields[j].name, b) && Raised(c, v.slots, c.fields[j].name, b)))
    case Val(x) =>
      match c.fields[j].cond
      case None => Val(Clear(s, zero, c.fields[j].ty, x))
      case Some(cond) =>
        if !Raised(c, v.slots, cond.word, cond.bit) then zero[v.key][j]
        else if cond.presenceOnly then Val(Prim(PBool(true)))
        else Val(Clear(s, zero, c.fields[j].ty, x))
  }

  // ---------------------------------------------------------------- values that are their own normal form

  /** Empty is nil, no unowned bit is set, fields of unset groups are zero and set presence-only members are true. */
  ghost predicate Exact(s: SchemaModel, zero: ZeroMap, t: TypeRef, v: Value)
    decreases v, 2
  {
    if PlainPrimitive(t) then NormPrim(v) == v
    else if t.kind.TypeVector? then
      v.Vec? && t.arg.Some? ==> v.items != [] && forall i :: 0 <= i < |v.items| ==>
        Exact(s, zero, t.arg.value, v.items[i])
    else Shaped(s, zero, v) ==> ExactSlots(s, zero, v)
  }

  ghost predicate ExactSlots(s: SchemaModel, zero: ZeroMap, v: Value)
    requires Shaped(s, zero, v)
    decreases v, 1
  {
    forall j :: 0 <= j < |v.slots| ==> ExactSlot(s, zero, v, j)
  }

  ghost predicate ExactSlot(s: SchemaModel, zero: ZeroMap, v: Value, j: nat)
    requires Shaped(s, zero, v) && j < |v.slots|
    decreases v, 0
  {
    var c := s.byKey[v.key];
    match v.slots[j]
    case Flags(bits) => forall b :: 0 <= b < 32 && bits[b] ==> Owned(c, c.fields[j].name, b)
    case Val(x) =>
      match c.fields[j].cond
      case None => Exact(s, zero, c.fields[j].ty, x)
      case Some(cond) =>
        if !HasBit(c, v.slots, cond.word, cond.bit) then v.slots[j] == zero[v.key][j]
        else if cond.presenceOnly then x == Prim(PBool(true))
        else Exact(s, zero, c.fields[j].ty, x)
  }

  ghost predicate FixedSlots(s: SchemaModel, zero: ZeroMap, v: Value)
    requires Shaped(s, zero, v)
  {
    forall j :: 0 <= j < |v.slots| ==> ClearSlot(s, zero, v, j) == v.slots[j]
  }

  /** Every raised group with an owner has its bit set. */
  ghost predicate BitsTell(c: Definition, slots: seq<Slot>)
    requires Aligned(c, slots)
  {
    forall j :: 0 <= j < |slots| && c.fields[j].cond.Some? ==>
      (Raised(c, slots, c.fields[j].cond.value.word, c.fields[j].cond.value.bit) ==>
         HasBit(c, slots, c.fields[j].cond.value.word, c.fields[j].cond.value.bit))
  }

  lemma OwnerTells(c: Definition, slots: seq<Slot>, word: string, bit: nat)
    requires Aligned(c, slots) && BitsTell(c, slots) && Owned(c, word, bit)
    ensures Raised(c, slots, word, bit) <==> HasBit(c, slots, word, bit)
  {
    var j :| 0 <= j < |c.fields| && ValueOnSlot(c.fields[j], word, bit);
  }

  lemma ExactTells(s: SchemaModel, zero: ZeroMap, v: Value)
    requires ZeroStructs(s, zero) && Shaped(s, zero, v) && ExactSlots(s, zero, v)
    ensures BitsTell(s.byKey[v.key], v.slots)
  {
    var c := s.byKey[v.key];
    forall j | 0 <= j < |v.slots| && c.fields[j].cond.Some?
      ensures var cond := c.fields[j].cond.value;
              Raised(c, v.slots, cond.word, cond.bit) ==> HasBit(c, v.slots, cond.word, cond.bit)
    {
      var cond := c.fields[j].cond.value;
      if DirectBytes.SetByField(c, v.slots, cond.word, cond.bit) {
        var k :| 0 <= k < |v.slots| && v.slots[k].Val? && OnSlot(c.fields[k], cond.word, cond.bit) &&
          !IsZero(v.slots[k].v);
        assert ExactSlot(s, zero, v, k);
        assert SlotIsZero(zero[v.key][k]);
      }
    }
  }

  /** The slot of a flags word among the fields of a valid definition. */
  lemma WordAt(c: Definition, slots: seq<Slot>, j: nat) returns (w: nat)
    requires ValidDefinition(c) && Aligned(c, slots) && j < |slots| && c.fields[j].cond.Some?
    ensures w < |slots| && slots[w].Flags? && c.fields[w].name == c.fields[j].cond.value.word &&
            c.fields[j].cond.value.bit < 32
    ensures IndexOf(c.fields, c.fields[j].cond.value.word) == w &&
            ValueOnSlot(c.fields[j], c.fields[w].name, c.fields[j].cond.value.bit)
  {
    assert ValidCondition(c, j);
    w :| 0 <= w < j && c.fields[w].kind.FieldFlagsWord? && c.fields[w].name == c.fields[j].cond.value.word;
  }

  lemma FixedTells(s: SchemaModel, zero: ZeroMap, v: Value)
    requires ZeroStructs(s, zero) && Shaped(s, zero, v) && FixedSlots(s, zero, v)
    ensures BitsTell(s.byKey[v.key], v.slots)
  {
    var c := s.byKey[v.key];
    forall j | 0 <= j < |v.slots| && c.fields[j].cond.Some?
      ensures var cond := c.fields[j].cond.value;
              Raised(c, v.slots, cond.word, cond.bit) ==> HasBit(c, v.slots, cond.word, cond.bit)
    {
      var w := WordAt(c, v.slots, j);
      var cond := c.fields[j].cond.value;
      assert ClearSlot(s, zero, v, w).bits[cond.bit] == v.slots[w].bits[cond.bit];
    }
  }

  lemma FlagsFixedIffExact(s: SchemaModel, zero: ZeroMap, v: Value, j: nat)
    requires ZeroStructs(s, zero) && Shaped(s, zero, v) && BitsTell(s.byKey[v.key], v.slots) && j < |v.slots| &&
             v.slots[j].Flags?
    ensures ClearSlot(s, zero, v, j) == v.slots[j] <==> ExactSlot(s, zero, v, j)
  {
    var c := s.byKey[v.key];
    var name := c.fields[j].name;
    assert IndexOf(c.fields, name) == j;
    var bits := ClearSlot(s, zero, v, j).bits;
    forall b | 0 <= b < 32 ensures bits[b] <==> Owned(c, name, b) && v.slots[j].bits[b] {
      if Owned(c, name, b) { OwnerTells(c, v.slots, name, b); }
    }
    if ExactSlot(s, zero, v, j) { assert bits == v.slots[j].bits; }
  }

  lemma {:induction false} ValueFixedIffExact(s: SchemaModel, zero: ZeroMap, v: Value, j: nat)
    requires ZeroStructs(s, zero) && Shaped(s, zero, v) && BitsTell(s.byKey[v.key], v.slots) && j < |v.slots| &&
             v.slots[j].Val?
    ensures ClearSlot(s, zero, v, j) == v.slots[j] <==> ExactSlot(s, zero, v, j)
    decreases v, 0
  {
    var c := s.byKey[v.key];
    if c.fields[j].cond.Some? {
      OwnerTells(c, v.slots, c.fields[j].cond.value.word, c.fields[j].cond.value.bit);
    }
    ClearIffExact(s, zero, c.fields[j].ty, v.slots[j].v);
  }

  lemma {:induction false} SlotsFixedIffExact(s: SchemaModel, zero: ZeroMap, v: Value)
    requires ZeroStructs(s, zero) && Shaped(s, zero, v)
    ensures FixedSlots(s, zero, v) <==> ExactSlots(s, zero, v)
    decreases v, 1
  {
    if FixedSlots(s, zero, v) { FixedTells(s, zero, v); }
    if ExactSlots(s, zero, v) { ExactTells(s, zero, v); }
    if BitsTell(s.byKey[v.key], v.slots) {
      forall j | 0 <= j < |v.slots| ensures ClearSlot(s, zero, v, j) == v.slots[j] <==> ExactSlot(s, zero, v, j) {
        if v.slots[j].Flags? { FlagsFixedIffExact(s, zero, v, j); } else { ValueFixedIffExact(s, zero, v, j); }
      }
    }
  }

  /** Exactly the exact values are their own normal form. */
  lemma {:induction false} ClearIffExact(s: SchemaModel, zero: ZeroMap, t: TypeRef, v: Value)
    requires ZeroStructs(s, zero)
    ensures Clear(s, zero, t, v) == v <==> Exact(s, zero, t, v)
    decreases v, 2
  {
    if PlainPrimitive(t) {
    } else if t.kind.TypeVector? {
      if v.Vec? && t.arg.Some? && v.items != [] {
        var items := Clear(s, zero, t, v).items;
        forall i | 0 <= i < |v.items| ensures items[i] == v.items[i] <==> Exact(s, zero, t.arg.value, v.items[i]) {
          ClearIffExact(s, zero, t.arg.value, v.items[i]);
        }
        assert items == v.items <==> forall i :: 0 <= i < |v.items| ==> items[i] == v.items[i];
      }
    } else if Shaped(s, zero, v) {
      var slots := Clear(s, zero, t, v).slots;
      SlotsFixedIffExact(s, zero, v);
      assert slots == v.slots <==> FixedSlots(s, zero, v) by {
        assert forall j :: 0 <= j < |v.slots| ==> slots[j] == ClearSlot(s, zero, v, j);
      }
    }
  }

  lemma ClearShaped(s: SchemaModel, zero: ZeroMap, t: TypeRef, v: Value)
    requires Shaped(s, zero, v) && !PlainPrimitive(t) && !t.kind.TypeVector?
    ensures Shaped(s, zero, Clear(s, zero, t, v))
  {
    var v' := Clear(s, zero, t, v);
    assert forall k :: 0 <= k < |v.slots| ==> v'.slots[k] == ClearSlot(s, zero, v, k);
  }

  lemma {:induction false} ClearSlotIsExact(s: SchemaModel, zero: ZeroMap, t: TypeRef, v: Value, j: nat)
    requires ZeroStructs(s, zero) && Shaped(s, zero, v) && j < |v.slots| && !PlainPrimitive(t) && !t.kind.TypeVector?
    ensures Shaped(s, zero, Clear(s, zero, t, v)) && ExactSlot(s, zero, Clear(s, zero, t, v), j)
    decreases v, 0
  {
    var c, v' := s.byKey[v.key], Clear(s, zero, t, v);
    assert forall k :: 0 <= k < |v.slots| ==> v'.slots[k] == ClearSlot(s, zero, v, k);
    if v.slots[j].Val? {
      if c.fields[j].cond.Some? {
        var w := WordAt(c, v.slots, j);
        var cond := c.fields[j].cond.value;
        assert v'.slots[w].bits[cond.bit] <==> Raised(c, v.slots, cond.word, cond.bit);
      }
      ClearIsExact(s, zero, c.fields[j].ty, v.slots[j].v);
    }
  }

  /** Normalising is final: a second trip through any such layer changes nothing. */
  lemma {:induction false} ClearIsExact(s: SchemaModel, zero: ZeroMap, t: TypeRef, v: Value)
    requires ZeroStructs(s, zero)
    ensures Exact(s, zero, t, Clear(s, zero, t, v))
    decreases v, 1
  {
    if PlainPrimitive(t) {
    } else if t.kind.TypeVector? {
      if v.Vec? && t.arg.Some? && v.items != [] {
        forall i | 0 <= i < |v.items| ensures Exact(s, zero, t.arg.value, Clear(s, zero, t, v).items[i]) {
          ClearIsExact(s, zero, t.arg.value, v.items[i]);
        }
      }
    } else if Shaped(s, zero, v) {
      var v' := Clear(s, zero, t, v);
      ClearShaped(s, zero, t, v);
      forall j | 0 <= j < |v'.slots| ensures ExactSlot(s, zero, v', j) {
        ClearSlotIsExact(s, zero, t, v, j);
      }
    }
  }

  // ---------------------------------------------------------------- nothing is dropped

  /** Every element and every written field, at any depth, can be written in the layer. */
  ghost predicate AllWritten(env: Env, t: TypeRef, v: Value, depth: nat)
    decreases v, 1
  {
    if PlainPrimitive(t) then true
    else if t.kind.TypeVector? then
      v.Vec? && t.arg.Some? ==> forall i :: 0 <= i < |v.items| ==>
        EncValue(env, t.arg.value, v.items[i], depth).Wrote? && AllWritten(env, t.arg.value, v.items[i], depth)
    else v.Obj? ==> Encodable(env, v) && FieldsWritten(env, v, depth + 1)
  }

  ghost predicate FieldsWritten(env: Env, v: Value, depth: nat)
    requires Encodable(env, v)
    decreases v, 0
  {
    var c := env.canonical.byKey[v.key];
    && AllEncoded(c, env.profile.byKey[v.key], v.slots, EncParts(env, v, depth))
    && forall j :: 0 <= j < |v.slots| && v.slots[j].Val? && DirectBytes.Written(c, v.slots, j) ==>
         AllWritten(env, c.fields[j].ty, v.slots[j].v, depth)
  }

  lemma {:induction false} SlotIsClear(env: Env, v: Value, j: nat, depth: nat)
    requires Facts(env) && Encodable(env, v) && FieldsWritten(env, v, depth) && j < |v.slots|
    ensures NormSlot(env, v, j, depth) == ClearSlot(env.canonical, env.zero, v, j)
    decreases v, 0
  {
    var c, p, parts := env.canonical.byKey[v.key], env.profile.byKey[v.key], EncParts(env, v, depth);
    assert FamilyFacts(env, v.key);
    if v.slots[j].Flags? {
      forall b | 0 <= b < 32
        ensures CanonicalGroup(c, p, v.slots, parts, c.fields[j].name, b) <==>
                Owned(c, c.fields[j].name, b) && Raised(c, v.slots, c.fields[j].name, b)
      {
        CanonicalIsRaised(c, p, v.slots, parts, c.fields[j].name, b);
      }
    } else {
      if c.fields[j].cond.Some? {
        var cond := c.fields[j].cond.value;
        assert ValueOnSlot(c.fields[j], cond.word, cond.bit);
        CanonicalIsRaised(c, p, v.slots, parts, cond.word, cond.bit);
      }
      if DirectBytes.Written(c, v.slots, j) { NormIsClear(env, c.fields[j].ty, v.slots[j].v, depth); }
    }
  }

  /** The normal forms of the elements from `i` on. */
  ghost function Norms(env: Env, t: TypeRef, v: Value, i: nat, depth: nat): seq<Value>
    requires v.Vec? && i <= |v.items|
  {
    seq(|v.items| - i, k requires 0 <= k < |v.items| - i => Norm(env, t, v.items[i + k], depth))
  }

  lemma {:induction false} NormsSplit(env: Env, t: TypeRef, v: Value, i: nat, depth: nat)
    requires v.Vec? && i < |v.items|
    ensures Norms(env, t, v, i, depth) == [Norm(env, t, v.items[i], depth)] + Norms(env, t, v, i + 1, depth)
  {
  }

  lemma {:induction false} KeptIsAll(env: Env, t: TypeRef, v: Value, i: nat, depth: nat)
    requires v.Vec? && i <= |v.items|
    requires forall k :: 0 <= k < |v.items| ==> EncValue(env, t, v.items[k], depth).Wrote?
    ensures NormKept(env, t, v, i, depth) == Norms(env, t, v, i, depth)
    decreases |v.items| - i
  {
    if i < |v.items| {
      KeptIsAll(env, t, v, i + 1, depth);
      KeptFirst(env, t, v, i, depth);
      NormsSplit(env, t, v, i, depth);
    }
  }

  lemma {:induction false} KeptFirst(env: Env, t: TypeRef, v: Value, i: nat, depth: nat)
    requires v.Vec? && i < |v.items| && EncValue(env, t, v.items[i], depth).Wrote?
    ensures NormKept(env, t, v, i, depth) == [Norm(env, t, v.items[i], depth)] + NormKept(env, t, v, i + 1, depth)
  {
  }

  lemma {:induction false} VectorIsClear(env: Env, t: TypeRef, v: Value, depth: nat)
    requires Facts(env) && AllWritten(env, t, v, depth) && t.kind.TypeVector? && v.Vec? && t.arg.Some?
    ensures Norm(env, t, v, depth) == Clear(env.canonical, env.zero, t, v)
    decreases v, 0
  {
    var a := t.arg.value;
    var kept := NormKept(env, a, v, 0, depth);
    KeptIsAll(env, a, v, 0, depth);
    forall i | 0 <= i < |v.items| ensures kept[i] == Clear(env.canonical, env.zero, a, v.items[i]) {
      NormIsClear(env, a, v.items[i], depth);
    }
    assert v.items != [] ==> kept == Clear(env.canonical, env.zero, t, v).items;
  }

  /** If nothing is dropped, what survives a trip through the layer is the flag normalisation, whatever the layer. */
  lemma {:induction false} NormIsClear(env: Env, t: TypeRef, v: Value, depth: nat)
    requires Facts(env) && AllWritten(env, t, v, depth)
    ensures Norm(env, t, v, depth) == Clear(env.canonical, env.zero, t, v)
    decreases v, 1
  {
    if PlainPrimitive(t) {
    } else if t.kind.TypeVector? {
      if v.Vec? && t.arg.Some? {
        VectorIsClear(env, t, v, depth);
      }
    } else if v.Obj? {
      forall j | 0 <= j < |v.slots| ensures NormSlot(env, v, j, depth + 1) == ClearSlot(env.canonical, env.zero, v, j) {
        SlotIsClear(env, v, j, depth + 1);
      }
      assert NormObj(env, v, depth).slots == Clear(env.canonical, env.zero, t, v).slots;
    }
  }

  /** Where every family that can be reached is available, nothing of a placed value within the limits is dropped. */
  lemma {:induction false} RewriteDropsNothing(env: Env, s: set<Key>, t: TypeRef, v: Value, depth: nat)
    requires Facts(env) && Available(env, s) && Carries(env, s, t) && Within(env, t, v, depth) && Placed(env, t, v)
    ensures AllWritten(env, t, v, depth)
    decreases v, 1
  {
    if PlainPrimitive(t) {
    } else if t.kind.TypeVector? {
      if v.Vec? {
        forall i | 0 <= i < |v.items|
          ensures EncValue(env, t.arg.value, v.items[i], depth).Wrote? &&
                  AllWritten(env, t.arg.value, v.items[i], depth)
        {
          PlacedExact(env, s, t.arg.value, v.items[i], depth);
          RewriteDropsNothing(env, s, t.arg.value, v.items[i], depth);
        }
      }
    } else {
      CarriedKey(env, s, t, v, depth);
      ObjectDropsNothing(env, s, v, depth);
    }
  }

  lemma {:induction false} ObjectDropsNothing(env: Env, s: set<Key>, v: Value, depth: nat)
    requires Facts(env) && Available(env, s) && v.Obj? && v.key in s && WithinObj(env, v, depth) && PlacedObj(env, v)
    ensures Encodable(env, v) && FieldsWritten(env, v, depth + 1)
    decreases v, 0
  {
    PartsEncoded(env, s, v, depth);
    var c := env.canonical.byKey[v.key];
    assert CarriesFields(env, s, v.key);
    forall j | 0 <= j < |v.slots| && v.slots[j].Val? && DirectBytes.Written(c, v.slots, j)
      ensures AllWritten(env, c.fields[j].ty, v.slots[j].v, depth + 1)
    {
      RewriteDropsNothing(env, s, c.fields[j].ty, v.slots[j].v, depth + 1);
    }
  }

  // ---------------------------------------------------------------- whole round trips

  /**
    In every valid environment, whatever is written for a layer is read back as its normal
    form, or stopped by a decode limit exactly when the written value exceeds one.
   */
  lemma EncodedValueComesBack(env: Env, lim: Limits, t: TypeRef, v: Value, rest: seq<Byte>, left: nat)
    requires ValidEnv(env) && EncValue(env, t, v, 0).Wrote?
    ensures DecValue(env, lim, t, EncValue(env, t, v, 0).bytes + rest, 0, left) ==
            Expected(Shallow(env, lim, t, v, 0, 0), Count(env, t, v, 0), Norm(env, t, v, 0), rest, left)
  {
    ValidEnvFacts(env);
    RoundTrip(env, lim, t, v, 0, rest, 0, left);
  }

  /**
    If every family the type can reach is present without body obligations, a value within the
    limits is written exactly when it is placed, and then comes back as its flag normalisation
    under the canonical schema, whatever happened to flag bits and field order.
   */
  lemma RewrittenValueComesBack(env: Env, s: set<Key>, lim: Limits, t: TypeRef, v: Value, rest: seq<Byte>, left: nat)
    requires ValidEnv(env) && Available(env, s) && Carries(env, s, t) && Within(env, t, v, 0)
    ensures EncValue(env, t, v, 0).Wrote? <==> Placed(env, t, v)
    ensures Placed(env, t, v) ==>
              DecValue(env, lim, t, EncValue(env, t, v, 0).bytes + rest, 0, left) ==
              Expected(Shallow(env, lim, t, v, 0, 0), Count(env, t, v, 0), Clear(env.canonical, env.zero, t, v), rest,
                       left)
  {
    ValidEnvFacts(env);
    PlacedExact(env, s, t, v, 0);
    if Placed(env, t, v) {
      EncodedValueComesBack(env, lim, t, v, rest, left);
      RewriteDropsNothing(env, s, t, v, 0);
      NormIsClear(env, t, v, 0);
    }
  }

  /**
    Within the decode limits exactly the placed and exact values are written and come back as they
    were, with nothing else consumed.
   */
  lemma NormalRoundTrip(env: Env, s: set<Key>, lim: Limits, t: TypeRef, v: Value, rest: seq<Byte>, left: nat)
    requires ValidEnv(env) && Available(env, s) && Carries(env, s, t) && Within(env, t, v, 0)
    requires Shallow(env, lim, t, v, 0, 0) && Count(env, t, v, 0) <= left
    ensures EncValue(env, t, v, 0).Wrote? &&
            DecValue(env, lim, t, EncValue(env, t, v, 0).bytes + rest, 0, left) ==
            Got(v, rest, left - Count(env, t, v, 0)) <==>
            Placed(env, t, v) && Exact(env.canonical, env.zero, t, v)
  {
    RewrittenValueComesBack(env, s, lim, t, v, rest, left);
    ClearsExactly(env, t, v);
    if Placed(env, t, v) {
      GotIff(DecValue(env, lim, t, EncValue(env, t, v, 0).bytes + rest, 0, left), Count(env, t, v, 0),
             Clear(env.canonical, env.zero, t, v), v, rest, left);
    }
  }

  lemma GotIff(d: Dec<Value>, n: nat, w: Value, v: Value, rest: seq<Byte>, left: nat)
    requires n <= left && d == Expected(true, n, w, rest, left)
    ensures d == Got(v, rest, left - n) <==> w == v
  {
  }

  lemma ClearsExactly(env: Env, t: TypeRef, v: Value)
    requires ValidEnv(env)
    ensures Clear(env.canonical, env.zero, t, v) == v <==> Exact(env.canonical, env.zero, t, v)
  {
    ZerosAreZero(env);
    ClearIffExact(env.canonical, env.zero, t, v);
  }

  lemma ZerosAreZero(env: Env)
    requires ValidEnv(env)
    ensures ZeroStructs(env.canonical, env.zero)
  {
  }

  // ---------------------------------------------------------------- a family whose bit and field order moved

  const PAIR := Key(CategoryType, "pair")
  const INT := TypeRef(TypePrimitive, "int", false, false, None)
  const PAIRS := TypeRef(TypeNamed, "Pair", false, false, None)

  const OLD_PAIR := Definition(PAIR, 1, [],
                               [FieldShape(FieldFlagsWord, "flags", 0, INT, None),
                                FieldShape(FieldValue, "a", 1, INT, Some(Condition("flags", 0, false))),
                                FieldShape(FieldValue, "bb", 2, INT, None)], PAIRS, false)

  const NEW_PAIR := Definition(PAIR, 2, [],
                               [FieldShape(FieldValue, "bb", 0, INT, None),
                                FieldShape(FieldFlagsWord, "bits", 1, INT, None),
                                FieldShape(FieldValue, "a", 2, INT, Some(Condition("bits", 5, false)))], PAIRS, false)

  const NO_BITS: Fields := seq(32, _ => false)
  const PAIR_ENV := Env(SchemaModel(map[PAIR := OLD_PAIR]), SchemaModel(map[PAIR := NEW_PAIR]), {PAIR},
                        map[PAIR := [Flags(NO_BITS), Val(Prim(PInt(0))), Val(Prim(PInt(0)))]])

  function PairOf(a: int, b: int): Value
  {
    Obj(PAIR, [Flags(seq(32, i => i == 0)), Val(Prim(PInt(a))), Val(Prim(PInt(b)))], false)
  }

  lemma OldPairValid()
    ensures ValidDefinition(OLD_PAIR)
  {
    var c := OLD_PAIR.fields;
    assert |c[0].name| == 5 && |c[1].name| == 1 && |c[2].name| == 2;
    assert ValidCondition(OLD_PAIR, 1) by { assert c[0].kind.FieldFlagsWord?; }
  }

  lemma NewPairValid()
    ensures ValidDefinition(NEW_PAIR)
  {
    var p := NEW_PAIR.fields;
    assert |p[0].name| == 2 && |p[1].name| == 4 && |p[2].name| == 1;
    assert ValidCondition(NEW_PAIR, 2) by { assert p[1].kind.FieldFlagsWord?; }
  }

  lemma PairCorresponds(c: Obligations.FieldMap, p: Obligations.FieldMap)
    requires c.Keys == p.Keys == {"a", "bb"}
    requires c["a"] == OLD_PAIR.fields[1] && c["bb"] == OLD_PAIR.fields[2]
    requires p["a"] == NEW_PAIR.fields[2] && p["bb"] == NEW_PAIR.fields[0]
    ensures Obligations.CorrespondingFields(c, p)
  {
  }

  lemma PairFields()
    ensures ValidDefinition(OLD_PAIR) && ValidDefinition(NEW_PAIR) && Obligations.SameFields(OLD_PAIR, NEW_PAIR)
  {
    OldPairValid();
    NewPairValid();
    var cm, pm := Obligations.ValueMap(OLD_PAIR), Obligations.ValueMap(NEW_PAIR);
    TwoNames(OLD_PAIR, 1, 2, 0);
    TwoNames(NEW_PAIR, 2, 0, 1);
    assert cm.Keys == {"a", "bb"} == pm.Keys;
    PairCorresponds(cm, pm);
  }

  /** The map of a definition with two value fields and a flags word. */
  lemma TwoNames(d: Definition, i: nat, j: nat, w: nat)
    requires ValidDefinition(d) && |d.fields| == 3 && i < 3 && j < 3 && w < 3 && i != j && w != i && w != j
    requires d.fields[i].kind.FieldValue? && d.fields[j].kind.FieldValue? && d.fields[w].kind.FieldFlagsWord?
    ensures var m := Obligations.ValueMap(d);
            && m.Keys == {d.fields[i].name, d.fields[j].name}
            && m[d.fields[i].name] == d.fields[i] && m[d.fields[j].name] == d.fields[j]
  {
    Obligations.ValueMapHolds(d);
    TwoKeys(d, Obligations.ValueMap(d), i, j, w);
  }

  lemma TwoKeys(d: Definition, m: Obligations.FieldMap, i: nat, j: nat, w: nat)
    requires |d.fields| == 3 && i < 3 && j < 3 && w < 3 && i != j && w != i && w != j && Obligations.Holds(d, m)
    requires d.fields[i].kind.FieldValue? && d.fields[j].kind.FieldValue? && d.fields[w].kind.FieldFlagsWord?
    ensures m.Keys == {d.fields[i].name, d.fields[j].name}
    ensures m[d.fields[i].name] == d.fields[i] && m[d.fields[j].name] == d.fields[j]
  {
    forall n | n in m ensures n == d.fields[i].name || n == d.fields[j].name {
      assert d.fields[m[n].ordinal] == m[n];
    }
  }

  /** Two versions of one family with corresponding fields make up a valid layer. */
  lemma OneFamilyValid(k: Key, c: Definition, p: Definition, zero: seq<Slot>)
    requires ValidDefinition(c) && ValidDefinition(p) && c.key == k == p.key && Obligations.SameFields(c, p)
    requires Aligned(c, zero) && forall i :: 0 <= i < |zero| ==> SlotIsZero(zero[i])
    ensures ValidEnv(Env(SchemaModel(map[k := c]), SchemaModel(map[k := p]), {k}, map[k := zero]))
  {
    var s, s' := SchemaModel(map[k := c]), SchemaModel(map[k := p]);
    OneSchemaValid(k, c);
    OneSchemaValid(k, p);
    assert s.byKey.Keys == {k} == s'.byKey.Keys && s.byKey[k] == c && s'.byKey[k] == p;
    assert map[k := zero][k] == zero;
  }

  lemma OneSchemaValid(k: Key, d: Definition)
    requires ValidDefinition(d) && d.key == k
    ensures ValidSchema(SchemaModel(map[k := d]))
  {
  }

  lemma PairEnvValid()
    ensures ValidEnv(PAIR_ENV) && Rewritable(PAIR_ENV, {PAIR}) && Carries(PAIR_ENV, {PAIR}, PAIRS)
  {
    PairFields();
    var zero := [Flags(NO_BITS), Val(Prim(PInt(0))), Val(Prim(PInt(0)))];
    assert Aligned(OLD_PAIR, zero);
    OneFamilyValid(PAIR, OLD_PAIR, NEW_PAIR, zero);
    PairClass();
    PairRewritable();
  }

  lemma PairRewritable()
    requires ValidEnv(PAIR_ENV)
    ensures Rewritable(PAIR_ENV, {PAIR})
  {
    assert PAIR in PAIR_ENV.clean;
    forall i | 0 <= i < 3 ensures Carries(PAIR_ENV, {PAIR}, OLD_PAIR.fields[i].ty) {
      assert OLD_PAIR.fields[i].ty == INT;
    }
    assert CarriesFields(PAIR_ENV, {PAIR}, PAIR);
  }

  lemma PairShape(a: int, b: int)
    ensures Aligned(OLD_PAIR, PairOf(a, b).slots) && IndexOf(OLD_PAIR.fields, "flags") == 0
    ensures Owned(OLD_PAIR, "flags", 0) && HasBit(OLD_PAIR, PairOf(a, b).slots, "flags", 0)
  {
    assert OLD_PAIR.fields[0].name == "flags";
    assert ValueOnSlot(OLD_PAIR.fields[1], "flags", 0);
  }

  lemma PairWithin(a: int, b: int)
    requires InRange(4, a) && InRange(4, b)
    ensures Within(PAIR_ENV, PAIRS, PairOf(a, b), 0)
  {
    Pow256Values();
    PairShape(a, b);
    var v := PairOf(a, b);
    assert EncPrim("int", Prim(PInt(a))).Wrote? && EncPrim("int", Prim(PInt(b))).Wrote?;
    assert !Malformed(PAIR_ENV, OLD_PAIR, v.slots);
    assert WithinObj(PAIR_ENV, v, 0);
    PairClass();
  }

  lemma PairClass()
    ensures Constructors(PAIR_ENV.canonical, "Pair") == {PAIR} && Singular(PAIR_ENV, "Pair")
  {
    assert forall k :: k in Constructors(PAIR_ENV.canonical, "Pair") ==> k == PAIR;
    assert PAIR in Constructors(PAIR_ENV.canonical, "Pair");
    assert Constructors(PAIR_ENV.canonical, "Pair") == {PAIR};
  }

  lemma PairExact(a: int, b: int)
    ensures Exact(PAIR_ENV.canonical, PAIR_ENV.zero, PAIRS, PairOf(a, b))
  {
    PairShape(a, b);
    var v := PairOf(a, b);
    var s, zero := PAIR_ENV.canonical, PAIR_ENV.zero;
    if Shaped(s, zero, v) {
      assert ExactSlot(s, zero, v, 0);
      assert Exact(s, zero, INT, v.slots[1].v) && Exact(s, zero, INT, v.slots[2].v);
      assert ExactSlot(s, zero, v, 1);
      assert ExactSlot(s, zero, v, 2);
    }
  }

  /** All its values come back from the layer exactly as they were. */
  lemma MovedPairComesBack(lim: Limits, a: int, b: int, rest: seq<Byte>, left: nat)
    requires InRange(4, a) && InRange(4, b)
    requires Shallow(PAIR_ENV, lim, PAIRS, PairOf(a, b), 0, 0)
    requires Count(PAIR_ENV, PAIRS, PairOf(a, b), 0) <= left
    ensures EncValue(PAIR_ENV, PAIRS, PairOf(a, b), 0).Wrote?
    ensures DecValue(PAIR_ENV, lim, PAIRS, EncValue(PAIR_ENV, PAIRS, PairOf(a, b), 0).bytes + rest, 0, left) ==
            Got(PairOf(a, b), rest, left - Count(PAIR_ENV, PAIRS, PairOf(a, b), 0))
  {
    PairEnvValid();
    PairWithin(a, b);
    PairExact(a, b);
    KeptClassesPlace(PAIR_ENV, {PAIR}, PAIRS, PairOf(a, b), 0);
    NormalRoundTrip(PAIR_ENV, {PAIR}, lim, PAIRS, PairOf(a, b), rest, left);
  }
}

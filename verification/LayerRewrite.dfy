/**
  When the rewriting codec of a layer succeeds. If every family that can be reached is present in
  the layer without body obligations, a value within the limits is written exactly when each of
  its objects belongs in the layer to the class it stands for, however flag bits and field order
  have moved.
 */
module LayerRewrite {
  import opened Bin
  import opened Schema
  import opened Values
  import opened LayerCodec
  import opened LayerRoundTrip
  import DirectBytes

  // ---------------------------------------------------------------- the hypotheses

  /** Every family a value of this type can hold belongs to `s`. */
  ghost predicate Carries(env: Env, s: set<Key>, t: TypeRef)
  {
    match t.kind
    case TypePrimitive => IsObjectType(t) ==> env.canonical.byKey.Keys <= s
    case TypeGenericRef => true
    case TypeVector => t.arg.Some? ==> Carries(env, s, t.arg.value)
    case TypeNamed =>
      if BareNamed(t) then Key(CategoryType, t.qname) in env.canonical.byKey ==> Key(CategoryType, t.qname) in s
      else Constructors(env.canonical, t.qname) <= s
  }

  /** Families that are present without body obligations, and all that their fields can hold. */
  ghost predicate Available(env: Env, s: set<Key>)
  {
    forall k :: k in s ==> Routed(env, k) && CarriesFields(env, s, k)
  }

  /** Such families whose constructors moreover keep their class; what a method returns does not matter. */
  ghost predicate Rewritable(env: Env, s: set<Key>)
  {
    && Available(env, s)
    && forall k :: k in s && k.category.CategoryType? ==>
         env.canonical.byKey[k].result.qname == env.profile.byKey[k].result.qname
  }

  ghost predicate CarriesFields(env: Env, s: set<Key>, k: Key)
    requires k in env.canonical.byKey
  {
    var c := env.canonical.byKey[k];
    forall i :: 0 <= i < |c.fields| && c.fields[i].kind.FieldValue? ==> Carries(env, s, c.fields[i].ty)
  }

  /** A Go value of the canonical type within the encoder's limits on depth, vector length and string length. */
  ghost predicate Within(env: Env, t: TypeRef, v: Value, depth: nat)
    decreases v, 1
  {
    match t.kind
    case TypePrimitive =>
      if IsObjectType(t) then v.Obj? && v.iface && WithinObj(env, v, depth) else EncPrim(t.qname, v).Wrote?
    case TypeGenericRef => false
    case TypeVector =>
      && t.arg.Some? && (v.Nil? || v.Vec?)
      && (v.Vec? ==> |v.items| <= MAX_VECTOR && forall i :: 0 <= i < |v.items| ==>
            Within(env, t.arg.value, v.items[i], depth))
    case TypeNamed =>
      && v.Obj? && WithinObj(env, v, depth)
      && (if BareNamed(t) then !v.iface && v.key == Key(CategoryType, t.qname)
          else v.key in Constructors(env.canonical, t.qname) && (v.iface <==> !Singular(env, t.qname)))
  }

  /**
    A struct of a canonical family, without a flag set on a nil interface, whose written fields
    are within the limits.
   */
  ghost predicate WithinObj(env: Env, v: Value, depth: nat)
    requires v.Obj?
    decreases v, 0
  {
    && depth < MAX_DEPTH && v.key in env.canonical.byKey && Aligned(env.canonical.byKey[v.key], v.slots)
    && !Malformed(env, env.canonical.byKey[v.key], v.slots)
    && forall j :: 0 <= j < |v.slots| && v.slots[j].Val? ==>
         DirectBytes.Written(env.canonical.byKey[v.key], v.slots, j) ==>
           Within(env, env.canonical.byKey[v.key].fields[j].ty, v.slots[j].v, depth + 1)
  }

  /** Every object written in the place of a class is a constructor of that class in the layer, too. */
  ghost predicate Placed(env: Env, t: TypeRef, v: Value)
    decreases v, 1
  {
    match t.kind
    case TypePrimitive => IsObjectType(t) ==> PlacedObj(env, v)
    case TypeGenericRef => true
    case TypeVector => v.Vec? && t.arg.Some? ==> forall i :: 0 <= i < |v.items| ==> Placed(env, t.arg.value, v.items[i])
    case TypeNamed => PlacedObj(env, v) && (!BareNamed(t) && v.Obj? ==> v.key in ClassGroup(env, t.qname))
  }

  ghost predicate PlacedObj(env: Env, v: Value)
    decreases v, 0
  {
    v.Obj? && v.key in env.canonical.byKey && Aligned(env.canonical.byKey[v.key], v.slots) ==>
      forall j :: 0 <= j < |v.slots| && v.slots[j].Val? ==>
        DirectBytes.Written(env.canonical.byKey[v.key], v.slots, j) ==>
          Placed(env, env.canonical.byKey[v.key].fields[j].ty, v.slots[j].v)
  }

  // ---------------------------------------------------------------- groups when nothing is dropped

  /** The group is raised in the value: its bit is explicit or a member is not zero. */
  ghost predicate Raised(c: Definition, slots: seq<Slot>, word: string, bit: nat)
    requires Aligned(c, slots)
  {
    HasBit(c, slots, word, bit) || DirectBytes.SetByField(c, slots, word, bit)
  }

  /** Every profile field whose canonical partner belongs on the wire was encoded. */
  ghost predicate AllEncoded(c: Definition, p: Definition, slots: seq<Slot>, parts: seq<Res>)
    requires Aligned(c, slots) && |parts| == |p.fields|
  {
    forall i :: 0 <= i < |parts| && p.fields[i].kind.FieldValue? && At(c, p, i) < |slots| ==>
      DirectBytes.Written(c, slots, At(c, p, i)) ==> parts[i].Wrote?
  }

  /** A conditional field of the profile and the canonical condition of its partner. */
  ghost predicate Linked(c: Definition, p: Definition, i: nat, cond: Condition)
  {
    && i < |p.fields| && p.fields[i].kind.FieldValue? && p.fields[i].cond.Some?
    && At(c, p, i) < |c.fields| && c.fields[At(c, p, i)].kind.FieldValue? && c.fields[At(c, p, i)].cond == Some(cond)
    && cond.presenceOnly == p.fields[i].cond.value.presenceOnly
  }

  lemma Link(c: Definition, p: Definition, i: nat) returns (cond: Condition)
    requires Comparable(c, p) && i < |p.fields| && p.fields[i].kind.FieldValue? && p.fields[i].cond.Some?
    ensures Linked(c, p, i, cond)
  {
    Partner(c, p, i);
    cond := c.fields[At(c, p, i)].cond.value;
  }

  /** Members of the profile group are raised members of the canonical group. */
  lemma PresentRaises(c: Definition, p: Definition, slots: seq<Slot>, i: nat, cond: Condition, i': nat)
    requires Comparable(c, p) && Aligned(c, slots) && Linked(c, p, i, cond)
    requires i' < |p.fields| && ValueOnSlot(p.fields[i'], p.fields[i].cond.value.word, p.fields[i].cond.value.bit)
    ensures Present(c, slots, At(c, p, i')) ==> Raised(c, slots, cond.word, cond.bit)
  {
    SharingAgrees(c, p, i, i');
    var j := At(c, p, i');
    assert OnSlot(c.fields[j], cond.word, cond.bit);
  }

  /** The presence test of a profile group asks whether the canonical group is raised, wherever its bit now is. */
  lemma RawIsRaised(c: Definition, p: Definition, slots: seq<Slot>, i: nat, cond: Condition)
    requires Comparable(c, p) && Aligned(c, slots) && Linked(c, p, i, cond)
    ensures RawGroup(c, p, slots, p.fields[i].cond.value.word, p.fields[i].cond.value.bit) <==>
            Raised(c, slots, cond.word, cond.bit)
  {
    var pw, pb := p.fields[i].cond.value.word, p.fields[i].cond.value.bit;
    if RawGroup(c, p, slots, pw, pb) {
      var i' :| 0 <= i' < |p.fields| && ValueOnSlot(p.fields[i'], pw, pb) && Present(c, slots, At(c, p, i'));
      PresentRaises(c, p, slots, i, cond, i');
    }
    if Raised(c, slots, cond.word, cond.bit) {
      var i' := RaisedMember(c, p, slots, i, cond);
    }
  }

  lemma RaisedMember(c: Definition, p: Definition, slots: seq<Slot>, i: nat, cond: Condition) returns (i': nat)
    requires Comparable(c, p) && Aligned(c, slots) && Linked(c, p, i, cond) && Raised(c, slots, cond.word, cond.bit)
    ensures i' < |p.fields| && ValueOnSlot(p.fields[i'], p.fields[i].cond.value.word, p.fields[i].cond.value.bit)
    ensures Present(c, slots, At(c, p, i'))
  {
    i' := i;
    if !HasBit(c, slots, cond.word, cond.bit) {
      var j :| 0 <= j < |slots| && slots[j].Val? && OnSlot(c.fields[j], cond.word, cond.bit) && !IsZero(slots[j].v);
      PartnerBack(c, p, j);
      i' := IndexOf(p.fields, c.fields[j].name);
      SharingAgrees(c, p, i, i');
    }
  }

  /** A member of a raised group survives if it was prepared or is itself present. */
  lemma RaisedSurvives(c: Definition, p: Definition, slots: seq<Slot>, parts: seq<Res>, i: nat, cond: Condition)
    requires Comparable(c, p) && Aligned(c, slots) && |parts| == |p.fields| && AllEncoded(c, p, slots, parts)
    requires Linked(c, p, i, cond) && Raised(c, slots, cond.word, cond.bit)
    ensures Prepared(p.fields[i]) || Present(c, slots, At(c, p, i)) ==> Survives(c, p, slots, parts, i)
    ensures !cond.presenceOnly ==> parts[i].Wrote?
  {
    RawIsRaised(c, p, slots, i, cond);
    if !cond.presenceOnly {
      assert DirectBytes.Written(c, slots, At(c, p, i));
    }
  }

  /** When everything written was encoded, the final groups are the raised ones. */
  lemma FinalIsRaised(c: Definition, p: Definition, slots: seq<Slot>, parts: seq<Res>, i: nat, cond: Condition)
    requires Comparable(c, p) && Aligned(c, slots) && |parts| == |p.fields| && AllEncoded(c, p, slots, parts) &&
             Linked(c, p, i, cond)
    ensures FinalGroup(c, p, slots, parts, p.fields[i].cond.value.word, p.fields[i].cond.value.bit) <==>
            Raised(c, slots, cond.word, cond.bit)
  {
    var pw, pb := p.fields[i].cond.value.word, p.fields[i].cond.value.bit;
    if FinalGroup(c, p, slots, parts, pw, pb) {
      var i' :| 0 <= i' < |p.fields| && ValueOnSlot(p.fields[i'], pw, pb) && Survives(c, p, slots, parts, i');
      RawIsRaised(c, p, slots, i, cond);
      PresentRaises(c, p, slots, i, cond, i');
    }
    if Raised(c, slots, cond.word, cond.bit) {
      var i' := RaisedMember(c, p, slots, i, cond);
      SharingAgrees(c, p, i, i');
      var cond' := Link(c, p, i');
      RaisedSurvives(c, p, slots, parts, i', cond');
    }
  }

  lemma CanonicalIsRaised(c: Definition, p: Definition, slots: seq<Slot>, parts: seq<Res>, word: string, bit: nat)
    requires Comparable(c, p) && Aligned(c, slots) && |parts| == |p.fields| && AllEncoded(c, p, slots, parts)
    ensures CanonicalGroup(c, p, slots, parts, word, bit) <==> Owned(c, word, bit) && Raised(c, slots, word, bit)
  {
    if Owned(c, word, bit) {
      var j :| 0 <= j < |c.fields| && ValueOnSlot(c.fields[j], word, bit);
      PartnerBack(c, p, j);
      var i := IndexOf(p.fields, c.fields[j].name);
      Partner(c, p, i);
      GroupsAgree(c, p, slots, parts, i);
      FinalIsRaised(c, p, slots, parts, i, c.fields[j].cond.value);
    }
  }

  lemma NoPartialGroups(c: Definition, p: Definition, slots: seq<Slot>, parts: seq<Res>)
    requires Comparable(c, p) && Aligned(c, slots) && |parts| == |p.fields| && AllEncoded(c, p, slots, parts)
    ensures !PreparedFails(c, p, slots, parts) && !PartialGroup(c, p, slots, parts)
  {
    forall i | 0 <= i < |p.fields| && Prepared(p.fields[i])
      ensures var word, bit := p.fields[i].cond.value.word, p.fields[i].cond.value.bit;
              && (RawGroup(c, p, slots, word, bit) ==> Survives(c, p, slots, parts, i) && !parts[i].Failed?)
              && (FinalGroup(c, p, slots, parts, word, bit) ==> RawGroup(c, p, slots, word, bit))
    {
      var cond := Link(c, p, i);
      FinalIsRaised(c, p, slots, parts, i, cond);
      RawIsRaised(c, p, slots, i, cond);
      if Raised(c, slots, cond.word, cond.bit) { RaisedSurvives(c, p, slots, parts, i, cond); }
    }
  }

  /** A field body is on the layer's wire exactly when it is written canonically. */
  lemma OnWireIsWritten(c: Definition, p: Definition, slots: seq<Slot>, parts: seq<Res>, i: nat)
    requires Comparable(c, p) && Aligned(c, slots) && |parts| == |p.fields| && AllEncoded(c, p, slots, parts)
    requires i < |p.fields| && p.fields[i].kind.FieldValue?
    ensures At(c, p, i) < |slots| && slots[At(c, p, i)].Val?
    ensures OnWire(c, p, slots, parts, i) <==> DirectBytes.Written(c, slots, At(c, p, i))
  {
    Partner(c, p, i);
    if p.fields[i].cond.Some? {
      var cond := Link(c, p, i);
      FinalIsRaised(c, p, slots, parts, i, cond);
    }
  }

  lemma {:induction false} EmitWrites(c: Definition, p: Definition, slots: seq<Slot>, parts: seq<Res>, i: nat)
    requires Comparable(c, p) && Aligned(c, slots) && |parts| == |p.fields| && AllEncoded(c, p, slots, parts) &&
             i <= |p.fields|
    ensures EmitFrom(c, p, slots, parts, i).Wrote?
    decreases |p.fields| - i
  {
    if i < |p.fields| {
      EmitWrites(c, p, slots, parts, i + 1);
      if p.fields[i].kind.FieldValue? { OnWireIsWritten(c, p, slots, parts, i); }
    }
  }

  // ---------------------------------------------------------------- encoding succeeds

  lemma CarriedKey(env: Env, s: set<Key>, t: TypeRef, v: Value, depth: nat)
    requires Carries(env, s, t) && (t.kind.TypeNamed? || IsObjectType(t)) && Within(env, t, v, depth)
    ensures v.Obj? && v.key in s
  {
  }

  /** A field body is written or refused, as its objects are placed or not, and never dropped. */
  ghost predicate PartsDecided(env: Env, v: Value, depth: nat)
    requires Encodable(env, v)
  {
    forall i {:trigger PartDecided(env, v, i, depth)} :: PartDecided(env, v, i, depth)
  }

  ghost predicate PartDecided(env: Env, v: Value, i: int, depth: nat)
    requires Encodable(env, v)
  {
    var c, p := env.canonical.byKey[v.key], env.profile.byKey[v.key];
    0 <= i < |p.fields| && p.fields[i].kind.FieldValue? && At(c, p, i) < |v.slots| && v.slots[At(c, p, i)].Val? &&
    DirectBytes.Written(c, v.slots, At(c, p, i)) ==>
      Decided(EncPart(env, v, i, depth), Placed(env, c.fields[At(c, p, i)].ty, v.slots[At(c, p, i)].v))
  }

  predicate Decided(r: Res, placed: bool)
  {
    if placed then r.Wrote? else r.Failed?
  }

  lemma {:induction false} DecideParts(env: Env, s: set<Key>, v: Value, depth: nat)
    requires Facts(env) && Available(env, s) && v.Obj? && v.key in s && WithinObj(env, v, depth)
    ensures Encodable(env, v) && Comparable(env.canonical.byKey[v.key], env.profile.byKey[v.key])
    ensures PartsDecided(env, v, depth + 1)
    decreases v, 0
  {
    var c, p := env.canonical.byKey[v.key], env.profile.byKey[v.key];
    var inner := depth + 1;
    assert FamilyFacts(env, v.key);
    forall i ensures PartDecided(env, v, i, inner) {
      if 0 <= i < |p.fields| && p.fields[i].kind.FieldValue? && At(c, p, i) < |v.slots| &&
         v.slots[At(c, p, i)].Val? && DirectBytes.Written(c, v.slots, At(c, p, i))
      {
        Partner(c, p, i);
        assert CarriesFields(env, s, v.key);
        PlacedExact(env, s, c.fields[At(c, p, i)].ty, v.slots[At(c, p, i)].v, inner);
      }
    }
  }

  /** Every profile field of a placed struct within the limits whose body belongs on the wire is encoded. */
  lemma {:induction false} PartsEncoded(env: Env, s: set<Key>, v: Value, depth: nat)
    requires Facts(env) && Available(env, s) && v.Obj? && v.key in s && WithinObj(env, v, depth) && PlacedObj(env, v)
    ensures Encodable(env, v) && Comparable(env.canonical.byKey[v.key], env.profile.byKey[v.key])
    ensures AllEncoded(env.canonical.byKey[v.key], env.profile.byKey[v.key], v.slots, EncParts(env, v, depth + 1))
    decreases v, 1
  {
    DecideParts(env, s, v, depth);
    PlacedParts(env, v, depth + 1);
  }

  lemma PlacedParts(env: Env, v: Value, depth: nat)
    requires Encodable(env, v) && Comparable(env.canonical.byKey[v.key], env.profile.byKey[v.key])
    requires PartsDecided(env, v, depth) && PlacedObj(env, v)
    ensures AllEncoded(env.canonical.byKey[v.key], env.profile.byKey[v.key], v.slots, EncParts(env, v, depth))
  {
    var c, p, parts := env.canonical.byKey[v.key], env.profile.byKey[v.key], EncParts(env, v, depth);
    forall i | 0 <= i < |parts| && p.fields[i].kind.FieldValue? && At(c, p, i) < |v.slots| &&
      DirectBytes.Written(c, v.slots, At(c, p, i))
      ensures parts[i].Wrote?
    {
      Partner(c, p, i);
      assert PartDecided(env, v, i, depth) && parts[i] == EncPart(env, v, i, depth);
    }
  }

  /** A final group is raised, whatever became of its members. */
  lemma FinalRaises(c: Definition, p: Definition, slots: seq<Slot>, parts: seq<Res>, i: nat, cond: Condition)
    requires Comparable(c, p) && Aligned(c, slots) && |parts| == |p.fields| && Linked(c, p, i, cond)
    requires FinalGroup(c, p, slots, parts, p.fields[i].cond.value.word, p.fields[i].cond.value.bit)
    ensures Raised(c, slots, cond.word, cond.bit)
  {
    var pw, pb := p.fields[i].cond.value.word, p.fields[i].cond.value.bit;
    var i' :| 0 <= i' < |p.fields| && ValueOnSlot(p.fields[i'], pw, pb) && Survives(c, p, slots, parts, i');
    RawIsRaised(c, p, slots, i, cond);
    PresentRaises(c, p, slots, i, cond, i');
  }

  /** What is emitted was decided, so it is not dropped. */
  lemma EmittedIsDecided(env: Env, v: Value, depth: nat, i: nat)
    requires Encodable(env, v) && Comparable(env.canonical.byKey[v.key], env.profile.byKey[v.key]) &&
             PartsDecided(env, v, depth)
    requires i < |env.profile.byKey[v.key].fields|
    ensures !Emitted(env.canonical.byKey[v.key], env.profile.byKey[v.key], v.slots, EncParts(env, v, depth), i).Dropped?
  {
    var c, p, parts := env.canonical.byKey[v.key], env.profile.byKey[v.key], EncParts(env, v, depth);
    if p.fields[i].kind.FieldValue? && OnWire(c, p, v.slots, parts, i) {
      Partner(c, p, i);
      if p.fields[i].cond.Some? {
        var cond := Link(c, p, i);
        FinalRaises(c, p, v.slots, parts, i, cond);
      }
      assert PartDecided(env, v, i, depth) && parts[i] == EncPart(env, v, i, depth);
    }
  }

  /** One failure among fields that are not dropped fails the body. */
  lemma {:induction false} EmitFails(env: Env, v: Value, depth: nat, k: nat, i: nat)
    requires Encodable(env, v) && Comparable(env.canonical.byKey[v.key], env.profile.byKey[v.key]) &&
             PartsDecided(env, v, depth)
    requires k <= i < |env.profile.byKey[v.key].fields|
    requires Emitted(env.canonical.byKey[v.key], env.profile.byKey[v.key], v.slots, EncParts(env, v, depth), i).Failed?
    ensures EmitFrom(env.canonical.byKey[v.key], env.profile.byKey[v.key], v.slots, EncParts(env, v, depth), k).Failed?
    decreases i - k
  {
    if k < i {
      EmitFails(env, v, depth, k + 1, i);
      EmittedIsDecided(env, v, depth, k);
    }
  }

  /** A field that is not placed fails the whole struct: before the flags if it was prepared, else while streaming. */
  lemma UnplacedFails(env: Env, v: Value, depth: nat, j: nat)
    requires Encodable(env, v) && Comparable(env.canonical.byKey[v.key], env.profile.byKey[v.key]) &&
             PartsDecided(env, v, depth)
    requires j < |v.slots| && v.slots[j].Val? && DirectBytes.Written(env.canonical.byKey[v.key], v.slots, j)
    requires !Placed(env, env.canonical.byKey[v.key].fields[j].ty, v.slots[j].v)
    ensures var c, p := env.canonical.byKey[v.key], env.profile.byKey[v.key];
            Assemble(env, c, p, v.slots, EncParts(env, v, depth)).Failed?
  {
    var c, p, parts := env.canonical.byKey[v.key], env.profile.byKey[v.key], EncParts(env, v, depth);
    PartnerBack(c, p, j);
    var i := IndexOf(p.fields, c.fields[j].name);
    Partner(c, p, i);
    assert PartDecided(env, v, i, depth) && parts[i] == EncPart(env, v, i, depth);
    if p.fields[i].cond.Some? {
      var cond := Link(c, p, i);
      RawIsRaised(c, p, v.slots, i, cond);
      assert Prepared(p.fields[i]);
      assert PreparedFails(c, p, v.slots, parts);
    } else {
      assert Emitted(c, p, v.slots, parts, i) == Failed;
      EmitFails(env, v, depth, 0, i);
    }
  }

  lemma {:induction false} BareDecided(env: Env, s: set<Key>, v: Value, depth: nat)
    requires Facts(env) && Available(env, s) && v.Obj? && v.key in s && WithinObj(env, v, depth)
    ensures Decided(EncBare(env, v, depth), PlacedObj(env, v)) && Decided(EncBoxed(env, v, depth), PlacedObj(env, v))
    decreases v, 1
  {
    var c, p, parts := env.canonical.byKey[v.key], env.profile.byKey[v.key], EncParts(env, v, depth + 1);
    DecideParts(env, s, v, depth);
    if PlacedObj(env, v) {
      PlacedParts(env, v, depth + 1);
      NoPartialGroups(c, p, v.slots, parts);
      EmitWrites(c, p, v.slots, parts, 0);
    } else {
      var j :| 0 <= j < |v.slots| && v.slots[j].Val? && DirectBytes.Written(c, v.slots, j) &&
        !Placed(env, c.fields[j].ty, v.slots[j].v);
      UnplacedFails(env, v, depth + 1, j);
    }
  }

  lemma {:induction false} VectorDecided(env: Env, s: set<Key>, t: TypeRef, v: Value, depth: nat)
    requires Facts(env) && Available(env, s) && t.kind.TypeVector? && Carries(env, s, t) && Within(env, t, v, depth)
    ensures Decided(EncValue(env, t, v, depth), Placed(env, t, v))
    decreases v, 2
  {
    var parts := EncItems(env, t.arg.value, v, depth);
    if v.Vec? {
      forall i | 0 <= i < |v.items| ensures Decided(parts[i], Placed(env, t.arg.value, v.items[i])) {
        PlacedExact(env, s, t.arg.value, v.items[i], depth);
      }
      if !Placed(env, t, v) {
        var i :| 0 <= i < |v.items| && !Placed(env, t.arg.value, v.items[i]);
        assert parts[i].Failed?;
      }
    }
  }

  /**
    If all families its type can reach are present without body obligations, the layered encoder
    writes a value within the limits, at any nesting, exactly when every object in it belongs in
    the layer to the class it stands for; otherwise it fails.
   */
  lemma {:induction false} PlacedExact(env: Env, s: set<Key>, t: TypeRef, v: Value, depth: nat)
    requires Facts(env) && Available(env, s) && Carries(env, s, t) && Within(env, t, v, depth)
    ensures Decided(EncValue(env, t, v, depth), Placed(env, t, v))
    decreases v, 3
  {
    match t.kind {
      case TypePrimitive =>
        if IsObjectType(t) {
          BareDecided(env, s, v, depth);
        }
      case TypeVector => VectorDecided(env, s, t, v, depth);
      case TypeNamed =>
        CarriedKey(env, s, t, v, depth);
        BareDecided(env, s, v, depth);
      case TypeGenericRef =>
    }
  }

  // ---------------------------------------------------------------- classes that are kept

  lemma {:induction false} KeptClassesPlaceObj(env: Env, s: set<Key>, v: Value, depth: nat)
    requires Rewritable(env, s) && v.Obj? && v.key in s && WithinObj(env, v, depth)
    ensures PlacedObj(env, v)
    decreases v, 0
  {
    var c := env.canonical.byKey[v.key];
    assert CarriesFields(env, s, v.key);
    forall j | 0 <= j < |v.slots| && v.slots[j].Val? && DirectBytes.Written(c, v.slots, j)
      ensures Placed(env, c.fields[j].ty, v.slots[j].v)
    {
      KeptClassesPlace(env, s, c.fields[j].ty, v.slots[j].v, depth + 1);
    }
  }

  /** Where constructors keep their class every value within the limits is placed. */
  lemma {:induction false} KeptClassesPlace(env: Env, s: set<Key>, t: TypeRef, v: Value, depth: nat)
    requires Rewritable(env, s) && Carries(env, s, t) && Within(env, t, v, depth)
    ensures Placed(env, t, v)
    decreases v, 1
  {
    if t.kind.TypeVector? {
      if v.Vec? {
        forall i | 0 <= i < |v.items| ensures Placed(env, t.arg.value, v.items[i]) {
          KeptClassesPlace(env, s, t.arg.value, v.items[i], depth);
        }
      }
    } else if t.kind.TypeNamed? || IsObjectType(t) {
      CarriedKey(env, s, t, v, depth);
      KeptClassesPlaceObj(env, s, v, depth);
    }
  }

  /**
    The layered encoder writes every value within the limits, at any nesting, if all families
    its type can reach are present without body obligations and their constructors keep their class.
   */
  lemma RewriteSucceeds(env: Env, s: set<Key>, t: TypeRef, v: Value, depth: nat)
    requires Facts(env) && Rewritable(env, s) && Carries(env, s, t) && Within(env, t, v, depth)
    ensures EncValue(env, t, v, depth).Wrote?
  {
    KeptClassesPlace(env, s, t, v, depth);
    PlacedExact(env, s, t, v, depth);
  }
}

/**
  What a layer does with each value: it is written, left out, or refused. The fate of a value is told
  by the canonical definitions, the classes of both schemas and the families the layer has; the
  encoder of the layer agrees with it for every value, well formed or not, in every layer.
 */
module LayerFates {
  import opened Bin
  import opened Schema
  import opened Values
  import opened LayerCodec
  import opened LayerRoundTrip
  import opened LayerRewrite

  datatype Fate = Written | Left | Refused

  function Told(r: Res): Fate
  {
    match r
    case Wrote(_) => Written
    case Dropped => Left
    case Failed => Refused
  }

  // ---------------------------------------------------------------- fields of one struct

  /**
    An optional field that can be left out on its own: its value is not a primitive and its
    presence is not all it says.
   */
  predicate Separable(f: FieldShape)
  {
    && f.kind.FieldValue? && f.cond.Some? && !f.cond.value.presenceOnly
    && !(f.ty.kind.TypePrimitive? && f.ty.qname != "Object")
  }

  predicate ClassOfMany(env: Env, t: TypeRef)
  {
    t.kind.TypeNamed? && !t.bare && |Constructors(env.canonical, t.qname)| != 1
  }

  /** The field holds interfaces: a class of several constructors, or vectors of at most two levels of one. */
  predicate HoldsClass(env: Env, t: TypeRef)
  {
    || ClassOfMany(env, t)
    || (&& t.kind.TypeVector? && t.arg.Some?
        && (|| ClassOfMany(env, t.arg.value)
            || (t.arg.value.kind.TypeVector? && t.arg.value.arg.Some? && ClassOfMany(env, t.arg.value.arg.value))))
  }

  /** A bit is set by hand although the field it promises is nil. */
  ghost predicate BrokenPromise(env: Env, c: Definition, slots: seq<Slot>)
    requires Aligned(c, slots)
  {
    exists j :: 0 <= j < |slots| && slots[j] == Val(Nil) && c.fields[j].cond.Some? && HoldsClass(env, c.fields[j].ty) &&
      HasBit(c, slots, c.fields[j].cond.value.word, c.fields[j].cond.value.bit)
  }

  /** A field keeps its group present: it is there itself, or its group is raised and it is not left out. */
  ghost predicate Stays(c: Definition, slots: seq<Slot>, fates: seq<Fate>, j: nat)
    requires Aligned(c, slots) && |fates| == |slots| && j < |slots| && c.fields[j].cond.Some?
  {
    var cond := c.fields[j].cond.value;
    if Separable(c.fields[j]) then Raised(c, slots, cond.word, cond.bit) && fates[j] != Left
    else slots[j].Val? && (HasBit(c, slots, cond.word, cond.bit) || !IsZero(slots[j].v))
  }

  ghost predicate GroupStays(c: Definition, slots: seq<Slot>, fates: seq<Fate>, word: string, bit: nat)
    requires Aligned(c, slots) && |fates| == |slots|
  {
    exists j :: 0 <= j < |slots| && ValueOnSlot(c.fields[j], word, bit) && Stays(c, slots, fates, j)
  }

  /** A separable field is refused. */
  ghost predicate PartRefused(c: Definition, slots: seq<Slot>, fates: seq<Fate>)
    requires Aligned(c, slots) && |fates| == |slots|
  {
    exists j :: 0 <= j < |slots| && Separable(c.fields[j]) && fates[j] == Refused &&
      Raised(c, slots, c.fields[j].cond.value.word, c.fields[j].cond.value.bit)
  }

  /** A separable field is gone although the rest of its group stays. */
  ghost predicate Torn(c: Definition, slots: seq<Slot>, fates: seq<Fate>)
    requires Aligned(c, slots) && |fates| == |slots|
  {
    exists j :: 0 <= j < |slots| && Separable(c.fields[j]) && !Stays(c, slots, fates, j) &&
      GroupStays(c, slots, fates, c.fields[j].cond.value.word, c.fields[j].cond.value.bit)
  }

  /** The field has a body on the wire. */
  ghost predicate HasBody(c: Definition, slots: seq<Slot>, fates: seq<Fate>, j: nat)
    requires Aligned(c, slots) && |fates| == |slots| && j < |slots|
  {
    && c.fields[j].kind.FieldValue?
    && match c.fields[j].cond
       case None => true
       case Some(cond) => !cond.presenceOnly && GroupStays(c, slots, fates, cond.word, cond.bit)
  }

  /** The first body, in the order of the layer, that is not written decides. */
  ghost function BodyFate(c: Definition, p: Definition, slots: seq<Slot>, fates: seq<Fate>, i: nat): Fate
    requires Aligned(c, slots) && |fates| == |slots| && i <= |p.fields|
    decreases |p.fields| - i
  {
    if i == |p.fields| then Written
    else
      var j := At(c, p, i);
      if p.fields[i].kind.FieldValue? && j < |slots| && HasBody(c, slots, fates, j) && fates[j] != Written then fates[j]
      else BodyFate(c, p, slots, fates, i + 1)
  }

  // ---------------------------------------------------------------- values

  /** A Go value of the primitive; byte strings are limited by their three length bytes. */
  predicate Encodes(k: PrimKind, v: Value)
  {
    PrimFits(k, v) && (v.Prim? && v.p.PBytes? ==> |v.p.data| <= 0xFF_FFFF)
  }

  ghost function FateOf(env: Env, t: TypeRef, v: Value, depth: nat): Fate
    decreases v, 3
  {
    match t.kind
    case TypePrimitive =>
      if t.qname == "Object" then InterfaceFate(env, v, depth)
      else if Encodes(KindOf(t.qname), v) then Written else Refused
    case TypeGenericRef => Refused
    case TypeVector =>
      if t.arg.None? then Refused
      else if v.Nil? then Written
      else if v.Vec? && |v.items| <= 0x10_0000 &&
              (forall i :: 0 <= i < |v.items| ==> FateOf(env, t.arg.value, v.items[i], depth) != Refused)
      then Written
      else Refused
    case TypeNamed =>
      var class_ := Constructors(env.canonical, t.qname);
      if t.bare || t.percent then
        if v.Obj? && !v.iface && v.key == Key(CategoryType, t.qname) then StructFate(env, v, depth) else Refused
      else if !v.Obj? || v.key !in class_ || (v.iface <==> |class_| == 1) then Refused
      else if v.key in env.profile.byKey && v.key !in Constructors(env.profile, t.qname) then Refused
      else if |class_| == 1 && v.key !in env.profile.byKey then Refused
      else if |class_| == 1 then StructFate(env, v, depth)
      else InterfaceFate(env, v, depth)
  }

  /** An object the layer does not know is left out, unless it is an update. */
  ghost function InterfaceFate(env: Env, v: Value, depth: nat): Fate
    decreases v, 2
  {
    if !v.Obj? || !v.iface || v.key !in env.canonical.byKey then Refused
    else if v.key in env.profile.byKey then StructFate(env, v, depth)
    else
      var d := env.canonical.byKey[v.key];
      if d.key.category.CategoryType? && d.result.kind.TypeNamed? && !d.result.bare && d.result.qname == "Update"
      then Refused else Left
  }

  ghost function StructFate(env: Env, v: Value, depth: nat): Fate
    requires v.Obj?
    decreases v, 1
  {
    if depth >= 64 || !Encodable(env, v) then Refused
    else
      var c, p, fates := env.canonical.byKey[v.key], env.profile.byKey[v.key], FieldFates(env, v, depth + 1);
      if BrokenPromise(env, c, v.slots) || PartRefused(c, v.slots, fates) || Torn(c, v.slots, fates) then Refused
      else BodyFate(c, p, v.slots, fates, 0)
  }

  ghost function FieldFates(env: Env, v: Value, depth: nat): (fates: seq<Fate>)
    requires Encodable(env, v)
    ensures |fates| == |v.slots|
    ensures forall j :: 0 <= j < |fates| ==> fates[j] == FieldFate(env, v, j, depth)
    decreases v, 0, 1
  {
    seq(|v.slots|, j requires 0 <= j < |v.slots| => FieldFate(env, v, j, depth))
  }

  ghost function FieldFate(env: Env, v: Value, j: nat, depth: nat): Fate
    requires Encodable(env, v) && j < |v.slots|
    decreases v, 0, 0
  {
    if v.slots[j].Val? then FateOf(env, env.canonical.byKey[v.key].fields[j].ty, v.slots[j].v, depth) else Written
  }

  // ---------------------------------------------------------------- the encoder agrees

  /** Every part of the layer has the fate of its canonical field. */
  ghost predicate PartsTold(c: Definition, p: Definition, slots: seq<Slot>, parts: seq<Res>, fates: seq<Fate>)
    requires Aligned(c, slots) && |parts| == |p.fields| && |fates| == |slots|
  {
    forall i :: 0 <= i < |parts| && p.fields[i].kind.FieldValue? && At(c, p, i) < |slots| ==>
      Told(parts[i]) == fates[At(c, p, i)]
  }

  lemma SurvivesIsStays(c: Definition, p: Definition, slots: seq<Slot>, parts: seq<Res>, fates: seq<Fate>, i: nat)
    requires Comparable(c, p) && Aligned(c, slots) && |parts| == |p.fields| && |fates| == |slots|
    requires PartsTold(c, p, slots, parts, fates)
    requires i < |p.fields| && p.fields[i].kind.FieldValue? && p.fields[i].cond.Some?
    ensures At(c, p, i) < |slots| && c.fields[At(c, p, i)].cond.Some? && c.fields[At(c, p, i)].kind.FieldValue?
    ensures Prepared(p.fields[i]) <==> Separable(c.fields[At(c, p, i)])
    ensures Survives(c, p, slots, parts, i) <==> Stays(c, slots, fates, At(c, p, i))
  {
    Partner(c, p, i);
    var cond := Link(c, p, i);
    RawIsRaised(c, p, slots, i, cond);
  }

  lemma FinalIsStaying(c: Definition, p: Definition, slots: seq<Slot>, parts: seq<Res>, fates: seq<Fate>, i: nat)
    requires Comparable(c, p) && Aligned(c, slots) && |parts| == |p.fields| && |fates| == |slots|
    requires PartsTold(c, p, slots, parts, fates)
    requires i < |p.fields| && p.fields[i].kind.FieldValue? && p.fields[i].cond.Some?
    ensures At(c, p, i) < |slots| && c.fields[At(c, p, i)].cond.Some?
    ensures var cond := c.fields[At(c, p, i)].cond.value;
            FinalGroup(c, p, slots, parts, p.fields[i].cond.value.word, p.fields[i].cond.value.bit) <==>
            GroupStays(c, slots, fates, cond.word, cond.bit)
  {
    SurvivesIsStays(c, p, slots, parts, fates, i);
    var cond, q := c.fields[At(c, p, i)].cond.value, p.fields[i].cond.value;
    if FinalGroup(c, p, slots, parts, q.word, q.bit) {
      var i' :| 0 <= i' < |p.fields| && ValueOnSlot(p.fields[i'], q.word, q.bit) && Survives(c, p, slots, parts, i');
      SharingAgrees(c, p, i, i');
      SurvivesIsStays(c, p, slots, parts, fates, i');
      assert ValueOnSlot(c.fields[At(c, p, i')], cond.word, cond.bit);
    }
    if GroupStays(c, slots, fates, cond.word, cond.bit) {
      var j :| 0 <= j < |slots| && ValueOnSlot(c.fields[j], cond.word, cond.bit) && Stays(c, slots, fates, j);
      PartnerBack(c, p, j);
      var i' := IndexOf(p.fields, c.fields[j].name);
      Partner(c, p, i');
      SharingAgrees(c, p, i, i');
      SurvivesIsStays(c, p, slots, parts, fates, i');
      assert ValueOnSlot(p.fields[i'], q.word, q.bit);
    }
  }

  lemma RefusedPart(c: Definition, p: Definition, slots: seq<Slot>, parts: seq<Res>, fates: seq<Fate>, i: nat)
    requires Comparable(c, p) && Aligned(c, slots) && |parts| == |p.fields| && |fates| == |slots|
    requires PartsTold(c, p, slots, parts, fates)
    requires i < |p.fields| && p.fields[i].kind.FieldValue? && p.fields[i].cond.Some?
    ensures At(c, p, i) < |slots| && c.fields[At(c, p, i)].cond.Some?
    ensures Prepared(p.fields[i]) <==> Separable(c.fields[At(c, p, i)])
    ensures parts[i].Failed? <==> fates[At(c, p, i)] == Refused
    ensures var cond := c.fields[At(c, p, i)].cond.value;
            RawGroup(c, p, slots, p.fields[i].cond.value.word, p.fields[i].cond.value.bit) <==>
            Raised(c, slots, cond.word, cond.bit)
  {
    SurvivesIsStays(c, p, slots, parts, fates, i);
    var cond := Link(c, p, i);
    RawIsRaised(c, p, slots, i, cond);
  }

  lemma FailsIsRefused(c: Definition, p: Definition, slots: seq<Slot>, parts: seq<Res>, fates: seq<Fate>)
    requires Comparable(c, p) && Aligned(c, slots) && |parts| == |p.fields| && |fates| == |slots|
    requires PartsTold(c, p, slots, parts, fates)
    ensures PreparedFails(c, p, slots, parts) <==> PartRefused(c, slots, fates)
  {
    if PreparedFails(c, p, slots, parts) {
      var i :| 0 <= i < |p.fields| && Prepared(p.fields[i]) && parts[i].Failed? &&
        RawGroup(c, p, slots, p.fields[i].cond.value.word, p.fields[i].cond.value.bit);
      RefusedPart(c, p, slots, parts, fates, i);
    }
    if PartRefused(c, slots, fates) {
      var j :| 0 <= j < |slots| && Separable(c.fields[j]) && fates[j] == Refused &&
        Raised(c, slots, c.fields[j].cond.value.word, c.fields[j].cond.value.bit);
      PartnerBack(c, p, j);
      var i := IndexOf(p.fields, c.fields[j].name);
      Partner(c, p, i);
      RefusedPart(c, p, slots, parts, fates, i);
    }
  }

  lemma PartialIsTorn(c: Definition, p: Definition, slots: seq<Slot>, parts: seq<Res>, fates: seq<Fate>)
    requires Comparable(c, p) && Aligned(c, slots) && |parts| == |p.fields| && |fates| == |slots|
    requires PartsTold(c, p, slots, parts, fates)
    ensures PartialGroup(c, p, slots, parts) <==> Torn(c, slots, fates)
  {
    if PartialGroup(c, p, slots, parts) {
      var i :| 0 <= i < |p.fields| && Prepared(p.fields[i]) && !Survives(c, p, slots, parts, i) &&
        FinalGroup(c, p, slots, parts, p.fields[i].cond.value.word, p.fields[i].cond.value.bit);
      SurvivesIsStays(c, p, slots, parts, fates, i);
      FinalIsStaying(c, p, slots, parts, fates, i);
    }
    if Torn(c, slots, fates) {
      var j :| 0 <= j < |slots| && Separable(c.fields[j]) && !Stays(c, slots, fates, j) &&
        GroupStays(c, slots, fates, c.fields[j].cond.value.word, c.fields[j].cond.value.bit);
      PartnerBack(c, p, j);
      var i := IndexOf(p.fields, c.fields[j].name);
      Partner(c, p, i);
      SurvivesIsStays(c, p, slots, parts, fates, i);
      FinalIsStaying(c, p, slots, parts, fates, i);
    }
  }

  lemma BodyIsOnWire(c: Definition, p: Definition, slots: seq<Slot>, parts: seq<Res>, fates: seq<Fate>, i: nat)
    requires Comparable(c, p) && Aligned(c, slots) && |parts| == |p.fields| && |fates| == |slots|
    requires PartsTold(c, p, slots, parts, fates) && i < |p.fields| && p.fields[i].kind.FieldValue?
    ensures At(c, p, i) < |slots|
    ensures OnWire(c, p, slots, parts, i) <==> HasBody(c, slots, fates, At(c, p, i))
  {
    Partner(c, p, i);
    if p.fields[i].cond.Some? { FinalIsStaying(c, p, slots, parts, fates, i); }
  }

  lemma {:induction false} EmitTold(c: Definition, p: Definition, slots: seq<Slot>, parts: seq<Res>, fates: seq<Fate>,
                                    i: nat)
    requires Comparable(c, p) && Aligned(c, slots) && |parts| == |p.fields| && |fates| == |slots|
    requires PartsTold(c, p, slots, parts, fates) && i <= |p.fields|
    ensures Told(EmitFrom(c, p, slots, parts, i)) == BodyFate(c, p, slots, fates, i)
    decreases |p.fields| - i
  {
    if i < |p.fields| {
      EmitTold(c, p, slots, parts, fates, i + 1);
      if p.fields[i].kind.FieldValue? { BodyIsOnWire(c, p, slots, parts, fates, i); }
    }
  }

  lemma BrokenIsMalformed(env: Env, c: Definition, slots: seq<Slot>)
    requires Aligned(c, slots)
    ensures Malformed(env, c, slots) <==> BrokenPromise(env, c, slots)
  {
    forall j | 0 <= j < |slots| ensures InterfaceField(env, c.fields[j].ty) <==> HoldsClass(env, c.fields[j].ty) {
    }
  }

  lemma {:induction false} PartsAreTold(env: Env, v: Value, depth: nat)
    requires Facts(env) && Encodable(env, v)
    ensures PartsTold(env.canonical.byKey[v.key], env.profile.byKey[v.key], v.slots, EncParts(env, v, depth),
                      FieldFates(env, v, depth))
    decreases v, 0
  {
    var c, p, parts := env.canonical.byKey[v.key], env.profile.byKey[v.key], EncParts(env, v, depth);
    assert FamilyFacts(env, v.key);
    forall i | 0 <= i < |parts| && p.fields[i].kind.FieldValue? && At(c, p, i) < |v.slots|
      ensures Told(parts[i]) == FieldFates(env, v, depth)[At(c, p, i)]
    {
      Partner(c, p, i);
      assert parts[i] == EncPart(env, v, i, depth);
      FateExact(env, c.fields[At(c, p, i)].ty, v.slots[At(c, p, i)].v, depth);
    }
  }

  lemma {:induction false} StructTold(env: Env, v: Value, depth: nat)
    requires Facts(env) && v.Obj?
    ensures Told(EncBare(env, v, depth)) == StructFate(env, v, depth)
    ensures v.key in env.profile.byKey ==> Told(EncBoxed(env, v, depth)) == StructFate(env, v, depth)
    ensures Told(EncFamily(env, v, depth)) == InterfaceFate(env, v, depth)
    decreases v, 1
  {
    if depth < 64 && Encodable(env, v) {
      var c, p := env.canonical.byKey[v.key], env.profile.byKey[v.key];
      var parts, fates := EncParts(env, v, depth + 1), FieldFates(env, v, depth + 1);
      assert FamilyFacts(env, v.key);
      PartsAreTold(env, v, depth + 1);
      BrokenIsMalformed(env, c, v.slots);
      FailsIsRefused(c, p, v.slots, parts, fates);
      PartialIsTorn(c, p, v.slots, parts, fates);
      EmitTold(c, p, v.slots, parts, fates, 0);
    }
  }

  lemma {:induction false} VectorTold(env: Env, t: TypeRef, v: Value, depth: nat)
    requires Facts(env) && t.kind.TypeVector? && t.arg.Some? && v.Vec?
    ensures Told(EncValue(env, t, v, depth)) == FateOf(env, t, v, depth)
    decreases v, 1
  {
    var parts := EncItems(env, t.arg.value, v, depth);
    forall i | 0 <= i < |v.items| ensures Told(parts[i]) == FateOf(env, t.arg.value, v.items[i], depth) {
      FateExact(env, t.arg.value, v.items[i], depth);
    }
  }

  /** In every valid layer, whatever the value: the encoder writes, leaves out or refuses it as its fate says. */
  lemma {:induction false} FateExact(env: Env, t: TypeRef, v: Value, depth: nat)
    requires Facts(env)
    ensures Told(EncValue(env, t, v, depth)) == FateOf(env, t, v, depth)
    decreases v, 2
  {
    if t.kind.TypeVector? {
      if t.arg.Some? && v.Vec? { VectorTold(env, t, v, depth); }
    } else if v.Obj? && !PlainPrimitive(t) {
      StructTold(env, v, depth);
    }
  }
}

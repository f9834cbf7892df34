/**
  Encoding a canonical value for a layer and decoding it again: exactly which value
  comes back, for every value, every nesting and every decode limit.
 */
module LayerRoundTrip {
  import opened Bin
  import opened Schema
  import opened Values
  import opened LayerCodec
  import Obligations

  // ---------------------------------------------------------------- corresponding fields

  ghost predicate Comparable(c: Definition, p: Definition)
  {
    ValidDefinition(c) && ValidDefinition(p) && Obligations.SameFields(c, p)
  }

  lemma ValueMapAt(d: Definition, i: nat)
    requires ValidDefinition(d) && i < |d.fields| && d.fields[i].kind.FieldValue?
    ensures d.fields[i].name in Obligations.ValueMap(d)
    ensures Obligations.ValueMap(d)[d.fields[i].name] == d.fields[i]
    ensures IndexOf(d.fields, d.fields[i].name) == i
  {
    Obligations.ValueMapFacts(d);
  }

  lemma ValueMapIndex(d: Definition, n: string)
    requires ValidDefinition(d) && n in Obligations.ValueMap(d)
    ensures IndexOf(d.fields, n) < |d.fields|
    ensures Obligations.ValueMap(d)[n] == d.fields[IndexOf(d.fields, n)]
    ensures d.fields[IndexOf(d.fields, n)].kind.FieldValue?
  {
    Obligations.ValueMapFacts(d);
    var i :| 0 <= i < |d.fields| && d.fields[i].kind.FieldValue? && d.fields[i].name == n;
    ValueMapAt(d, i);
  }

  /** Every profile value field has its canonical partner, and the partner leads back. */
  lemma Partner(c: Definition, p: Definition, i: nat)
    requires Comparable(c, p) && i < |p.fields| && p.fields[i].kind.FieldValue?
    ensures At(c, p, i) < |c.fields|
    ensures c.fields[At(c, p, i)].name == p.fields[i].name && c.fields[At(c, p, i)].kind.FieldValue?
    ensures Obligations.SameMeaning(c.fields[At(c, p, i)], p.fields[i])
    ensures IndexOf(p.fields, c.fields[At(c, p, i)].name) == i
  {
    ValueMapAt(p, i);
    ValueMapIndex(c, p.fields[i].name);
  }

  lemma PartnerBack(c: Definition, p: Definition, j: nat)
    requires Comparable(c, p) && j < |c.fields| && c.fields[j].kind.FieldValue?
    ensures IndexOf(p.fields, c.fields[j].name) < |p.fields|
    ensures p.fields[IndexOf(p.fields, c.fields[j].name)].kind.FieldValue?
    ensures At(c, p, IndexOf(p.fields, c.fields[j].name)) == j
  {
    ValueMapAt(c, j);
    ValueMapIndex(p, c.fields[j].name);
  }

  ghost predicate SameSlot(f: FieldShape, g: FieldShape)
  {
    f.cond.Some? && g.cond.Some? && f.cond.value.word == g.cond.value.word && f.cond.value.bit == g.cond.value.bit
  }

  /** Flag sharing is the same on both sides, although words and bits may differ. */
  lemma SharingAgrees(c: Definition, p: Definition, i: nat, i': nat)
    requires Comparable(c, p)
    requires i < |p.fields| && p.fields[i].kind.FieldValue? && i' < |p.fields| && p.fields[i'].kind.FieldValue?
    ensures At(c, p, i) < |c.fields| && At(c, p, i') < |c.fields|
    ensures SameSlot(p.fields[i], p.fields[i']) <==> SameSlot(c.fields[At(c, p, i)], c.fields[At(c, p, i')])
  {
    Partner(c, p, i);
    Partner(c, p, i');
    var n, m := p.fields[i].name, p.fields[i'].name;
    var cm, pm := Obligations.ValueMap(c), Obligations.ValueMap(p);
    ValueMapAt(p, i);
    ValueMapAt(p, i');
    ValueMapAt(c, At(c, p, i));
    ValueMapAt(c, At(c, p, i'));
    assert Obligations.Shares(cm, n, m) <==> Obligations.Shares(pm, n, m);
  }

  /** A profile flag group is finally present exactly when the canonical group is. */
  lemma GroupsAgree(c: Definition, p: Definition, slots: seq<Slot>, parts: seq<Res>, i: nat)
    requires Comparable(c, p) && Aligned(c, slots) && |parts| == |p.fields|
    requires i < |p.fields| && p.fields[i].kind.FieldValue? && p.fields[i].cond.Some?
    ensures At(c, p, i) < |c.fields| && c.fields[At(c, p, i)].cond.Some?
    ensures FinalGroup(c, p, slots, parts, p.fields[i].cond.value.word, p.fields[i].cond.value.bit) <==>
            CanonicalGroup(c, p, slots, parts, c.fields[At(c, p, i)].cond.value.word,
                           c.fields[At(c, p, i)].cond.value.bit)
  {
    Partner(c, p, i);
    var pw, pb := p.fields[i].cond.value.word, p.fields[i].cond.value.bit;
    var cw, cb := c.fields[At(c, p, i)].cond.value.word, c.fields[At(c, p, i)].cond.value.bit;
    if FinalGroup(c, p, slots, parts, pw, pb) {
      var i' :| 0 <= i' < |p.fields| && ValueOnSlot(p.fields[i'], pw, pb) && Survives(c, p, slots, parts, i');
      SharingAgrees(c, p, i, i');
      Partner(c, p, i');
      assert ValueOnSlot(c.fields[At(c, p, i')], cw, cb) && SurvivesCanonical(c, p, slots, parts, At(c, p, i'));
    }
    if CanonicalGroup(c, p, slots, parts, cw, cb) {
      var j :| 0 <= j < |c.fields| && ValueOnSlot(c.fields[j], cw, cb) && SurvivesCanonical(c, p, slots, parts, j);
      PartnerBack(c, p, j);
      var i' := IndexOf(p.fields, c.fields[j].name);
      SharingAgrees(c, p, i, i');
      assert ValueOnSlot(p.fields[i'], pw, pb);
    }
  }

  // ---------------------------------------------------------------- facts about an environment

  ghost predicate FamilyFacts(env: Env, k: Key)
  {
    Routed(env, k) ==>
      && Comparable(env.canonical.byKey[k], env.profile.byKey[k])
      && forall i :: 0 <= i < |env.zero[k]| ==> SlotIsZero(env.zero[k][i])
  }

  ghost predicate WireFacts(env: Env, k: Key)
  {
    k in env.profile.byKey ==>
      env.profile.byKey[k].wireID < 0x1_0000_0000 && WireKey(env.profile, env.profile.byKey[k].wireID) == Some(k)
  }

  /** The facts of a valid environment, each available for one family at a time. */
  ghost predicate Facts(env: Env)
  {
    && (forall k {:trigger FamilyFacts(env, k)} :: FamilyFacts(env, k))
    && (forall k {:trigger WireFacts(env, k)} :: WireFacts(env, k))
  }

  lemma ValidEnvFacts(env: Env)
    requires ValidEnv(env)
    ensures Facts(env)
    ensures forall k :: k in env.clean ==> Routed(env, k)
  {
    forall k ensures WireFacts(env, k) {
      if k in env.profile.byKey {
        assert IsWireKey(env.profile, env.profile.byKey[k].wireID, k);
      }
    }
  }

  // ---------------------------------------------------------------- what is on the wire

  /** The part the decoder must produce for profile field `i`. */
  ghost function WirePart(env: Env, v: Value, i: nat, depth: nat): Part
    requires Encodable(env, v)
    requires i < |env.profile.byKey[v.key].fields|
  {
    var c, p := env.canonical.byKey[v.key], env.profile.byKey[v.key];
    var parts := EncParts(env, v, depth);
    var f := p.fields[i];
    if f.kind.FieldFlagsWord? then Word(WordBits(c, p, v.slots, parts, f.name))
    else if f.cond.Some? && !FinalGroup(c, p, v.slots, parts, f.cond.value.word, f.cond.value.bit) then Missing
    else if f.cond.Some? && f.cond.value.presenceOnly then Here(Prim(PBool(true)))
    else if At(c, p, i) < |v.slots| && v.slots[At(c, p, i)].Val?
      then Here(Norm(env, f.ty, v.slots[At(c, p, i)].v, depth))
    else Missing
  }

  ghost function WireParts(env: Env, v: Value, i: nat, depth: nat): (r: seq<Part>)
    requires Encodable(env, v)
    requires i <= |env.profile.byKey[v.key].fields|
    ensures |r| == |env.profile.byKey[v.key].fields| - i
    ensures forall k :: 0 <= k < |r| ==> r[k] == WirePart(env, v, i + k, depth)
  {
    seq(|env.profile.byKey[v.key].fields| - i,
        k requires 0 <= k < |env.profile.byKey[v.key].fields| - i => WirePart(env, v, i + k, depth))
  }

  /** Assigning the wire parts to a zero struct gives the normal form. */
  lemma AssignIsNorm(env: Env, v: Value, depth: nat)
    requires Facts(env) && Encodable(env, v)
    ensures Obj(v.key,
                Assign(env.canonical.byKey[v.key], env.profile.byKey[v.key], env.zero[v.key],
                       WireParts(env, v, 0, depth + 1)), v.iface)
            == NormObj(env, v, depth)
  {
    var c, p := env.canonical.byKey[v.key], env.profile.byKey[v.key];
    var zero := env.zero[v.key];
    var parts := WireParts(env, v, 0, depth + 1);
    forall j | 0 <= j < |v.slots|
      ensures AssignedSlot(c, p, zero, parts, j) == NormSlot(env, v, j, depth + 1)
    {
      if v.slots[j].Flags? {
        FlagsAssigned(env, v, j, depth + 1);
      } else {
        ValueAssigned(env, v, j, depth + 1);
      }
    }
    assert Assign(c, p, zero, parts) == NormObj(env, v, depth).slots;
  }

  lemma ValueAssigned(env: Env, v: Value, j: nat, depth: nat)
    requires Facts(env) && Encodable(env, v)
    requires j < |v.slots| && v.slots[j].Val?
    ensures AssignedSlot(env.canonical.byKey[v.key], env.profile.byKey[v.key], env.zero[v.key],
                         WireParts(env, v, 0, depth), j)
            == NormSlot(env, v, j, depth)
  {
    var c, p := env.canonical.byKey[v.key], env.profile.byKey[v.key];
    assert FamilyFacts(env, v.key);
    PartnerBack(c, p, j);
    var i := IndexOf(p.fields, c.fields[j].name);
    Partner(c, p, i);
    assert WireParts(env, v, 0, depth)[i] == WirePart(env, v, 0 + i, depth);
    if p.fields[i].cond.Some? {
      GroupsAgree(c, p, v.slots, EncParts(env, v, depth), i);
    }
  }

  lemma FlagsAssigned(env: Env, v: Value, j: nat, depth: nat)
    requires Facts(env) && Encodable(env, v)
    requires j < |v.slots| && v.slots[j].Flags?
    ensures AssignedSlot(env.canonical.byKey[v.key], env.profile.byKey[v.key], env.zero[v.key],
                         WireParts(env, v, 0, depth), j)
            == NormSlot(env, v, j, depth)
  {
    var c, p := env.canonical.byKey[v.key], env.profile.byKey[v.key];
    var parts := WireParts(env, v, 0, depth);
    var enc := EncParts(env, v, depth);
    var word := c.fields[j].name;
    assert FamilyFacts(env, v.key);
    assert SlotIsZero(env.zero[v.key][j]);
    WirePartsMatch(env, v, depth);
    forall b | 0 <= b < 32
      ensures SetBy(c, p, parts, word, b) <==> CanonicalGroup(c, p, v.slots, enc, word, b)
    {
      BitNeedsGroup(c, p, v.slots, enc, parts, word, b);
      GroupSetsBit(c, p, v.slots, enc, parts, word, b);
    }
  }

  /** Exactly the fields of finally present groups, and all unconditional ones, were read. */
  ghost predicate PartsMatch(c: Definition, p: Definition, slots: seq<Slot>, enc: seq<Res>, parts: seq<Part>)
    requires Aligned(c, slots) && |enc| == |p.fields| == |parts|
  {
    forall i :: 0 <= i < |parts| ==>
      (parts[i].Here? && p.fields[i].cond.Some? ==>
         FinalGroup(c, p, slots, enc, p.fields[i].cond.value.word, p.fields[i].cond.value.bit)) &&
      (parts[i].Here? ==> p.fields[i].kind.FieldValue?) &&
      (OnFinalGroup(c, p, slots, enc, i) ==> parts[i].Here?)
  }

  ghost predicate OnFinalGroup(c: Definition, p: Definition, slots: seq<Slot>, enc: seq<Res>, i: nat)
    requires Aligned(c, slots) && |enc| == |p.fields| && i < |p.fields|
  {
    && p.fields[i].kind.FieldValue? && p.fields[i].cond.Some?
    && FinalGroup(c, p, slots, enc, p.fields[i].cond.value.word, p.fields[i].cond.value.bit)
    && At(c, p, i) < |slots| && slots[At(c, p, i)].Val?
  }

  lemma WirePartsMatch(env: Env, v: Value, depth: nat)
    requires Encodable(env, v)
    ensures PartsMatch(env.canonical.byKey[v.key], env.profile.byKey[v.key], v.slots, EncParts(env, v, depth),
                       WireParts(env, v, 0, depth))
  {
    var parts := WireParts(env, v, 0, depth);
    assert forall i :: 0 <= i < |parts| ==> parts[i] == WirePart(env, v, 0 + i, depth);
  }

  lemma BitNeedsGroup(c: Definition, p: Definition, slots: seq<Slot>, enc: seq<Res>, parts: seq<Part>, word: string,
                      b: nat)
    requires Comparable(c, p) && Aligned(c, slots) && |enc| == |p.fields| == |parts| &&
             PartsMatch(c, p, slots, enc, parts)
    ensures SetBy(c, p, parts, word, b) ==> CanonicalGroup(c, p, slots, enc, word, b)
  {
    if SetBy(c, p, parts, word, b) {
      var i :| 0 <= i < |parts| && parts[i].Here? && At(c, p, i) < |c.fields| &&
        ValueOnSlot(c.fields[At(c, p, i)], word, b);
      Partner(c, p, i);
      GroupsAgree(c, p, slots, enc, i);
    }
  }

  lemma GroupSetsBit(c: Definition, p: Definition, slots: seq<Slot>, enc: seq<Res>, parts: seq<Part>, word: string,
                     b: nat)
    requires Comparable(c, p) && Aligned(c, slots) && |enc| == |p.fields| == |parts| &&
             PartsMatch(c, p, slots, enc, parts)
    ensures CanonicalGroup(c, p, slots, enc, word, b) ==> SetBy(c, p, parts, word, b)
  {
    if CanonicalGroup(c, p, slots, enc, word, b) {
      var j :| 0 <= j < |c.fields| && ValueOnSlot(c.fields[j], word, b) && SurvivesCanonical(c, p, slots, enc, j);
      PartnerBack(c, p, j);
      var i := IndexOf(p.fields, c.fields[j].name);
      Partner(c, p, i);
      GroupsAgree(c, p, slots, enc, i);
      assert OnFinalGroup(c, p, slots, enc, i);
    }
  }

  // ---------------------------------------------------------------- decode limits

  /** Vector elements written for `v`: what the aggregate element budget is charged. */
  ghost function Count(env: Env, t: TypeRef, v: Value, depth: nat): nat
    decreases v, 3
  {
    if t.kind.TypeVector? then
      if v.Vec? && t.arg.Some?
      then KeptCount(EncItems(env, t.arg.value, v, depth)) + CountItems(env, t.arg.value, v, 0, depth) else 0
    else if Encodable(env, v) then CountFields(env, v, 0, depth + 1)
    else 0
  }

  ghost function CountItems(env: Env, t: TypeRef, v: Value, i: nat, depth: nat): nat
    requires v.Vec? && i <= |v.items|
    decreases v, 2, |v.items| - i
  {
    if i == |v.items| then 0
    else
      (if EncValue(env, t, v.items[i], depth).Wrote? then Count(env, t, v.items[i], depth) else 0)
      + CountItems(env, t, v, i + 1, depth)
  }

  ghost function CountFields(env: Env, v: Value, i: nat, depth: nat): nat
    requires Encodable(env, v)
    requires i <= |env.profile.byKey[v.key].fields|
    decreases v, 1, |env.profile.byKey[v.key].fields| - i
  {
    if i == |env.profile.byKey[v.key].fields| then 0
    else CountField(env, v, i, depth) + CountFields(env, v, i + 1, depth)
  }

  ghost function CountField(env: Env, v: Value, i: nat, depth: nat): nat
    requires Encodable(env, v)
    requires i < |env.profile.byKey[v.key].fields|
    decreases v, 0
  {
    var c, p := env.canonical.byKey[v.key], env.profile.byKey[v.key];
    if OnWire(c, p, v.slots, EncParts(env, v, depth), i) && At(c, p, i) < |v.slots| && v.slots[At(c, p, i)].Val?
    then Count(env, p.fields[i].ty, v.slots[At(c, p, i)].v, depth) else 0
  }

  /** The written value respects the depth and per-vector limits when decoded at depth `d`. */
  ghost predicate Shallow(env: Env, lim: Limits, t: TypeRef, v: Value, depth: nat, d: nat)
    decreases v, 3
  {
    if PlainPrimitive(t) then true
    else if t.kind.TypeVector? then
      && d < lim.maxDepth
      && (v.Vec? && t.arg.Some? ==>
            KeptCount(EncItems(env, t.arg.value, v, depth)) <= lim.maxVector &&
            ShallowItems(env, lim, t.arg.value, v, 0, depth, d + 1))
    else
      && d < lim.maxDepth
      && (Encodable(env, v) ==> ShallowFields(env, lim, v, 0, depth + 1, d + 1))
  }

  ghost predicate ShallowItems(env: Env, lim: Limits, t: TypeRef, v: Value, i: nat, depth: nat, d: nat)
    requires v.Vec? && i <= |v.items|
    decreases v, 2, |v.items| - i
  {
    i < |v.items| ==>
      && (EncValue(env, t, v.items[i], depth).Wrote? ==> Shallow(env, lim, t, v.items[i], depth, d))
      && ShallowItems(env, lim, t, v, i + 1, depth, d)
  }

  ghost predicate ShallowFields(env: Env, lim: Limits, v: Value, i: nat, depth: nat, d: nat)
    requires Encodable(env, v)
    requires i <= |env.profile.byKey[v.key].fields|
    decreases v, 1, |env.profile.byKey[v.key].fields| - i
  {
    i < |env.profile.byKey[v.key].fields| ==>
      ShallowField(env, lim, v, i, depth, d) && ShallowFields(env, lim, v, i + 1, depth, d)
  }

  ghost predicate ShallowField(env: Env, lim: Limits, v: Value, i: nat, depth: nat, d: nat)
    requires Encodable(env, v)
    requires i < |env.profile.byKey[v.key].fields|
    decreases v, 0
  {
    var c, p := env.canonical.byKey[v.key], env.profile.byKey[v.key];
    OnWire(c, p, v.slots, EncParts(env, v, depth), i) && At(c, p, i) < |v.slots| && v.slots[At(c, p, i)].Val? ==>
      Shallow(env, lim, p.fields[i].ty, v.slots[At(c, p, i)].v, depth, d)
  }

  /** The outcome of decoding: the value, or a limit, never malformed input. */
  function Expected<T>(ok: bool, count: nat, value: T, rest: seq<Byte>, left: nat): Dec<T>
  {
    if ok && count <= left then Got(value, rest, left - count) else Limit
  }

  // ---------------------------------------------------------------- primitives and headers

  lemma PrimRoundTrip(name: string, v: Value, rest: seq<Byte>)
    requires EncPrim(name, v).Wrote?
    ensures ReadPrim(KindOf(name), EncPrim(name, v).bytes + rest) == Ok(NormPrim(v), rest)
  {
    Pow256Values();
    match KindOf(name) {
      case KInt => SignedRoundTrip(4, v.p.v, rest);
      case KLong => SignedRoundTrip(8, v.p.v, rest);
      case KDouble => WordRoundTrip(8, v.p.bits, rest);
      case KRaw(_) => RawRoundTrip(v.p.data, rest);
      case KBytes => BytesRoundTrip(if v.Nil? then [] else v.p.data, rest);
      case KString => BytesRoundTrip(if v.Nil? then [] else v.p.data, rest);
      case KBool => BoolRoundTrip(v.p.b, rest);
    }
  }

  lemma LengthRoundTrip(boxed: bool, n: nat, rest: seq<Byte>)
    requires n < 0x8000_0000
    ensures ReadVectorLength(boxed, Values.VectorHeader(boxed, n) + rest) == Ok(n, rest)
  {
    Pow256Values();
    SignedRoundTrip(4, n, rest);
    if boxed {
      IdRoundTrip(TYPE_VECTOR, LE(4, n) + rest);
      assert Values.VectorHeader(boxed, n) + rest == LE(4, TYPE_VECTOR) + (LE(4, n) + rest);
    } else {
      assert Values.VectorHeader(boxed, n) + rest == LE(4, n) + rest;
    }
  }

  lemma {:induction false} KeptAtMost(parts: seq<Res>)
    ensures KeptCount(parts) <= |parts|
  {
    if parts != [] { KeptAtMost(parts[1..]); }
  }

  // ---------------------------------------------------------------- the induction

  /**
    Decoding what was encoded, followed by any bytes, returns the normal form and leaves
    exactly those bytes, or reports a limit; it reports a limit exactly when the written
    value exceeds the depth, per-vector or aggregate element limit.
   */
  lemma {:induction false} RoundTrip(env: Env, lim: Limits, t: TypeRef, v: Value, depth: nat, rest: seq<Byte>, d: nat,
                                     left: nat)
    requires Facts(env) && EncValue(env, t, v, depth).Wrote?
    ensures DecValue(env, lim, t, EncValue(env, t, v, depth).bytes + rest, d, left) ==
            Expected(Shallow(env, lim, t, v, depth, d), Count(env, t, v, depth), Norm(env, t, v, depth), rest, left)
    decreases v, 4
  {
    match t.kind {
      case TypePrimitive =>
        if IsObjectType(t) {
          ClassRoundTrip(env, lim, env.canonical.byKey.Keys, v, depth, rest, d, left);
        } else {
          PrimRoundTrip(t.qname, v, rest);
        }
      case TypeVector => VectorRoundTrip(env, lim, t, v, depth, rest, d, left);
      case TypeNamed =>
        if BareNamed(t) {
          BareRoundTrip(env, lim, v, depth, rest, d, left);
        } else if Singular(env, t.qname) {
          SingularGroup(env, t.qname, v.key);
          WireRoundTrip(env, lim, v, depth, rest, d, left);
        } else {
          ClassRoundTrip(env, lim, ClassGroup(env, t.qname), v, depth, rest, d, left);
        }
    }
  }

  lemma SingularGroup(env: Env, class_: string, k: Key)
    requires Singular(env, class_) && k in ClassGroup(env, class_)
    ensures ClassGroup(env, class_) == {k}
  {
    var all := Constructors(env.canonical, class_);
    assert |all - {k}| == 0;
  }

  ghost function ObjExpected(env: Env, lim: Limits, v: Value, depth: nat, rest: seq<Byte>, d: nat,
                             left: nat): Dec<Value>
    requires Encodable(env, v)
  {
    Expected(d < lim.maxDepth && ShallowFields(env, lim, v, 0, depth + 1, d + 1), CountFields(env, v, 0, depth + 1),
             NormObj(env, v, depth), rest, left)
  }

  lemma {:induction false} ClassRoundTrip(env: Env, lim: Limits, allowed: set<Key>, v: Value, depth: nat,
                                          rest: seq<Byte>, d: nat, left: nat)
    requires Facts(env) && v.Obj? && v.iface && v.key in allowed && EncBoxed(env, v, depth).Wrote?
    ensures Encodable(env, v)
    ensures DecClass(env, lim, allowed, EncBoxed(env, v, depth).bytes + rest, d, left) ==
            ObjExpected(env, lim, v, depth, rest, d, left)
    decreases v, 3
  {
    WireRoundTrip(env, lim, v, depth, rest, d, left);
    var id := env.profile.byKey[v.key].wireID;
    var body := EncBare(env, v, depth).bytes;
    assert EncBoxed(env, v, depth).bytes + rest == LE(4, id) + (body + rest);
    Pow256Values();
    WordRoundTrip(4, id, body + rest);
    assert WireFacts(env, v.key);
  }

  lemma {:induction false} WireRoundTrip(env: Env, lim: Limits, v: Value, depth: nat, rest: seq<Byte>, d: nat,
                                         left: nat)
    requires Facts(env) && v.Obj? && EncBoxed(env, v, depth).Wrote?
    ensures Encodable(env, v)
    ensures DecWire(env, lim, v.key, v.iface, EncBoxed(env, v, depth).bytes + rest, d, left) ==
            ObjExpected(env, lim, v, depth, rest, d, left)
    decreases v, 2
  {
    BareRoundTrip(env, lim, v, depth, rest, d, left);
    var id := env.profile.byKey[v.key].wireID;
    var body := EncBare(env, v, depth).bytes;
    assert EncBoxed(env, v, depth).bytes + rest == LE(4, id) + (body + rest);
    assert WireFacts(env, v.key);
    IdRoundTrip(id, body + rest);
  }

  lemma {:induction false} BareRoundTrip(env: Env, lim: Limits, v: Value, depth: nat, rest: seq<Byte>, d: nat,
                                         left: nat)
    requires Facts(env) && v.Obj? && EncBare(env, v, depth).Wrote?
    ensures Encodable(env, v)
    ensures DecBare(env, lim, v.key, v.iface, EncBare(env, v, depth).bytes + rest, d, left) ==
            ObjExpected(env, lim, v, depth, rest, d, left)
    decreases v, 1
  {
    if d < lim.maxDepth {
      FieldsRoundTrip(env, lim, v, 0, map[], depth + 1, rest, d + 1, left);
      AssignIsNorm(env, v, depth);
    }
  }

  /** The flag words read so far are the ones that were written. */
  ghost predicate WordsRead(env: Env, v: Value, i: nat, words: map<string, Fields>, depth: nat)
    requires Encodable(env, v)
    requires i <= |env.profile.byKey[v.key].fields|
  {
    var c, p := env.canonical.byKey[v.key], env.profile.byKey[v.key];
    forall k :: 0 <= k < i && p.fields[k].kind.FieldFlagsWord? ==>
      p.fields[k].name in words && words[p.fields[k].name] == WordBits(c, p, v.slots, EncParts(env, v, depth),
                                                                       p.fields[k].name)
  }

  /** A condition read from the decoded flag words is the final presence of its group. */
  lemma ConditionRead(env: Env, v: Value, i: nat, words: map<string, Fields>, depth: nat)
    requires Facts(env) && Encodable(env, v)
    requires i < |env.profile.byKey[v.key].fields| && env.profile.byKey[v.key].fields[i].cond.Some?
    requires WordsRead(env, v, i, words, depth)
    ensures var c, p := env.canonical.byKey[v.key], env.profile.byKey[v.key];
            var cond := p.fields[i].cond.value;
            cond.word in words && cond.bit < 32 &&
            words[cond.word][cond.bit] == FinalGroup(c, p, v.slots, EncParts(env, v, depth), cond.word, cond.bit)
  {
    var p := env.profile.byKey[v.key];
    assert FamilyFacts(env, v.key);
    assert ValidCondition(p, i);
    var k :| 0 <= k < i && p.fields[k].kind.FieldFlagsWord? && p.fields[k].name == p.fields[i].cond.value.word;
  }

  ghost function FieldsExpected(env: Env, lim: Limits, v: Value, i: nat, depth: nat, rest: seq<Byte>, d: nat,
                                left: nat): Dec<seq<Part>>
    requires Encodable(env, v)
    requires i <= |env.profile.byKey[v.key].fields|
  {
    Expected(ShallowFields(env, lim, v, i, depth, d), CountFields(env, v, i, depth), WireParts(env, v, i, depth), rest,
             left)
  }

  ghost function EmitRest(env: Env, v: Value, i: nat, depth: nat): Res
    requires Encodable(env, v)
    requires i <= |env.profile.byKey[v.key].fields|
  {
    EmitFrom(env.canonical.byKey[v.key], env.profile.byKey[v.key], v.slots, EncParts(env, v, depth), i)
  }

  lemma {:induction false} FieldsRoundTrip(env: Env, lim: Limits, v: Value, i: nat, words: map<string, Fields>,
                                           depth: nat,
                                           rest: seq<Byte>, d: nat, left: nat)
    requires Facts(env) && Encodable(env, v)
    requires i <= |env.profile.byKey[v.key].fields| && EmitRest(env, v, i, depth).Wrote? &&
             WordsRead(env, v, i, words, depth)
    ensures DecFields(env, lim, v.key, i, words, EmitRest(env, v, i, depth).bytes + rest, d, left) ==
            FieldsExpected(env, lim, v, i, depth, rest, d, left)
    decreases v, 0, |env.profile.byKey[v.key].fields| - i, 1
  {
    var c, p := env.canonical.byKey[v.key], env.profile.byKey[v.key];
    var parts := EncParts(env, v, depth);
    if i == |p.fields| {
      assert EmitRest(env, v, i, depth).bytes + rest == rest;
    } else {
      SplitField(env, v, i, depth, rest);
      var f := p.fields[i];
      if f.kind.FieldFlagsWord? {
        FlagsFieldRoundTrip(env, lim, v, i, words, depth, rest, d, left);
      } else if OnWire(c, p, v.slots, parts, i) {
        ValueFieldFacts(env, lim, v, i, words, depth, d);
        ValueFieldRoundTrip(env, lim, v, i, words, depth, rest, d, left, At(c, p, i));
      } else {
        SilentFieldRoundTrip(env, lim, v, i, words, depth, rest, d, left);
      }
    }
  }

  lemma {:induction false} FlagsFieldRoundTrip(env: Env, lim: Limits, v: Value, i: nat, words: map<string, Fields>,
                                               depth: nat,
                                               rest: seq<Byte>, d: nat, left: nat)
    requires Facts(env) && Encodable(env, v)
    requires i < |env.profile.byKey[v.key].fields| && EmitRest(env, v, i, depth).Wrote? &&
             WordsRead(env, v, i, words, depth)
    requires EmitRest(env, v, i + 1, depth).Wrote? && env.profile.byKey[v.key].fields[i].kind.FieldFlagsWord?
    ensures DecFields(env, lim, v.key, i, words, EmitRest(env, v, i, depth).bytes + rest, d, left) ==
            FieldsExpected(env, lim, v, i, depth, rest, d, left)
    decreases v, 0, |env.profile.byKey[v.key].fields| - i, 0
  {
    var c, p := env.canonical.byKey[v.key], env.profile.byKey[v.key];
    var name := p.fields[i].name;
    FieldsRoundTrip(env, lim, v, i + 1, words[name := WordBits(c, p, v.slots, EncParts(env, v, depth), name)], depth,
                    rest, d, left);
    FlagsStep(env, lim, v, i, words, depth, rest, d, left);
  }

  lemma {:induction false} SilentFieldRoundTrip(env: Env, lim: Limits, v: Value, i: nat, words: map<string, Fields>,
                                                depth: nat,
                                                rest: seq<Byte>, d: nat, left: nat)
    requires Facts(env) && Encodable(env, v)
    requires i < |env.profile.byKey[v.key].fields| && EmitRest(env, v, i, depth).Wrote? &&
             WordsRead(env, v, i, words, depth)
    requires EmitRest(env, v, i + 1, depth).Wrote? && env.profile.byKey[v.key].fields[i].kind.FieldValue?
    requires !OnWire(env.canonical.byKey[v.key], env.profile.byKey[v.key], v.slots, EncParts(env, v, depth), i)
    ensures DecFields(env, lim, v.key, i, words, EmitRest(env, v, i, depth).bytes + rest, d, left) ==
            FieldsExpected(env, lim, v, i, depth, rest, d, left)
    decreases v, 0, |env.profile.byKey[v.key].fields| - i, 0
  {
    FieldsRoundTrip(env, lim, v, i + 1, words, depth, rest, d, left);
    SilentStep(env, lim, v, i, words, depth, rest, d, left);
  }

  /** Where these flags words have been read, the body of the field comes next. */
  predicate BodyFollows(f: FieldShape, words: map<string, Fields>)
  {
    && f.kind.FieldValue?
    && (f.cond.Some? ==>
          !f.cond.value.presenceOnly && f.cond.value.word in words && f.cond.value.bit < 32 &&
          words[f.cond.value.word][f.cond.value.bit])
  }

  /** Field `i` is written with value `x`: its bytes, its part and its cost come in front of the remaining fields. */
  ghost predicate ValueField(env: Env, lim: Limits, v: Value, i: nat, words: map<string, Fields>, depth: nat, d: nat,
                             x: Value)
    requires Encodable(env, v) && i < |env.profile.byKey[v.key].fields|
  {
    var f := env.profile.byKey[v.key].fields[i];
    && BodyFollows(f, words)
    && EncValue(env, f.ty, x, depth).Wrote?
    && EmitRest(env, v, i, depth) == Then(EncValue(env, f.ty, x, depth), EmitRest(env, v, i + 1, depth))
    && WireParts(env, v, i, depth) == [Here(Norm(env, f.ty, x, depth))] + WireParts(env, v, i + 1, depth)
    && CountFields(env, v, i, depth) == Count(env, f.ty, x, depth) + CountFields(env, v, i + 1, depth)
    && (ShallowFields(env, lim, v, i, depth, d) <==>
          Shallow(env, lim, f.ty, x, depth, d) && ShallowFields(env, lim, v, i + 1, depth, d))
  }

  lemma ValueFieldFacts(env: Env, lim: Limits, v: Value, i: nat, words: map<string, Fields>, depth: nat, d: nat)
    requires Facts(env) && Encodable(env, v)
    requires i < |env.profile.byKey[v.key].fields| && EmitRest(env, v, i, depth).Wrote? &&
             WordsRead(env, v, i, words, depth)
    requires OnWire(env.canonical.byKey[v.key], env.profile.byKey[v.key], v.slots, EncParts(env, v, depth), i)
    ensures var j := At(env.canonical.byKey[v.key], env.profile.byKey[v.key], i);
            j < |v.slots| && v.slots[j].Val? && ValueField(env, lim, v, i, words, depth, d, v.slots[j].v)
  {
    var c, p := env.canonical.byKey[v.key], env.profile.byKey[v.key];
    SplitField(env, v, i, depth, []);
    OnWireSlot(env, v, i, depth);
    OnWireCost(env, lim, v, i, depth, d);
    if p.fields[i].cond.Some? {
      ConditionRead(env, v, i, words, depth);
    }
    assert WirePart(env, v, i, depth) == Here(Norm(env, p.fields[i].ty, v.slots[At(c, p, i)].v, depth));
  }

  lemma {:induction false} ValueFieldRoundTrip(env: Env, lim: Limits, v: Value, i: nat, words: map<string, Fields>,
                                               depth: nat,
                                               rest: seq<Byte>, d: nat, left: nat, j: nat)
    requires Facts(env) && Encodable(env, v)
    requires i < |env.profile.byKey[v.key].fields| && EmitRest(env, v, i, depth).Wrote? &&
             WordsRead(env, v, i, words, depth)
    requires j < |v.slots| && v.slots[j].Val? && ValueField(env, lim, v, i, words, depth, d, v.slots[j].v)
    ensures DecFields(env, lim, v.key, i, words, EmitRest(env, v, i, depth).bytes + rest, d, left) ==
            FieldsExpected(env, lim, v, i, depth, rest, d, left)
    decreases v, 0, |env.profile.byKey[v.key].fields| - i, 0
  {
    var f, x := env.profile.byKey[v.key].fields[i], v.slots[j].v;
    RoundTrip(env, lim, f.ty, x, depth, EmitRest(env, v, i + 1, depth).bytes + rest, d, left);
    WordsKept(env, v, i, words, depth);
    FieldsRoundTrip(env, lim, v, i + 1, words, depth, rest, d, Left(left, Count(env, f.ty, x, depth)));
    EncodedFieldJoined(env, lim, v.key, i, words, d, left, EncValue(env, f.ty, x, depth),
                       EmitRest(env, v, i + 1, depth), Shallow(env, lim, f.ty, x, depth, d), Count(env, f.ty, x, depth),
                       ShallowFields(env, lim, v, i + 1, depth, d), CountFields(env, v, i + 1, depth),
                       Norm(env, f.ty, x, depth), WireParts(env, v, i + 1, depth), rest);
  }

  /** What remains of an element budget. */
  function Left(left: nat, n: nat): nat
  {
    if n <= left then left - n else 0
  }

  /** The encodings of one field body and of the remaining fields, read back one after the other. */
  lemma {:induction false} EncodedFieldJoined(env: Env, lim: Limits, k: Key, i: nat, words: map<string, Fields>, d: nat,
                                              left: nat, here: Res, tail: Res, ok: bool, n: nat, ok': bool, m: nat,
                                              x: Value, parts: seq<Part>, rest: seq<Byte>)
    requires Routed(env, k) && i < |env.profile.byKey[k].fields| && BodyFollows(env.profile.byKey[k].fields[i], words)
    requires here.Wrote? && tail.Wrote?
    requires DecValue(env, lim, env.profile.byKey[k].fields[i].ty, here.bytes + (tail.bytes + rest), d, left) ==
             Expected(ok, n, x, tail.bytes + rest, left)
    requires DecFields(env, lim, k, i + 1, words, tail.bytes + rest, d, Left(left, n)) ==
             Expected(ok', m, parts, rest, Left(left, n))
    ensures DecFields(env, lim, k, i, words, Then(here, tail).bytes + rest, d, left) ==
            Expected(ok && ok', n + m, [Here(x)] + parts, rest, left)
  {
    Regroup(here.bytes, tail.bytes, rest);
    FieldJoined(env, lim, k, i, words, here.bytes + (tail.bytes + rest), d, left, ok, n, ok', m, x, parts,
                tail.bytes + rest, rest);
  }

  lemma WordsKept(env: Env, v: Value, i: nat, words: map<string, Fields>, depth: nat)
    requires Encodable(env, v) && i < |env.profile.byKey[v.key].fields| && WordsRead(env, v, i, words, depth)
    requires env.profile.byKey[v.key].fields[i].kind.FieldValue?
    ensures WordsRead(env, v, i + 1, words, depth)
  {
  }

  /** One field body in front of the remaining fields. */
  lemma {:induction false} FieldJoined(env: Env, lim: Limits, k: Key, i: nat, words: map<string, Fields>, s: seq<Byte>,
                                       d: nat, left: nat, ok: bool, n: nat, ok': bool, m: nat, x: Value,
                                       parts: seq<Part>, after: seq<Byte>, rest: seq<Byte>)
    requires Routed(env, k) && i < |env.profile.byKey[k].fields| && BodyFollows(env.profile.byKey[k].fields[i], words)
    requires DecValue(env, lim, env.profile.byKey[k].fields[i].ty, s, d, left) == Expected(ok, n, x, after, left)
    requires DecFields(env, lim, k, i + 1, words, after, d, Left(left, n)) ==
             Expected(ok', m, parts, rest, Left(left, n))
    ensures DecFields(env, lim, k, i, words, s, d, left) == Expected(ok && ok', n + m, [Here(x)] + parts, rest, left)
  {
    UnfoldValue(env, lim, k, i, words, s, d, left);
    FieldOutcome(ok, n, ok', m, x, parts, after, rest, left,
                 DecValue(env, lim, env.profile.byKey[k].fields[i].ty, s, d, left),
                 DecFields(env, lim, k, i + 1, words, after, d, Left(left, n)),
                 DecFields(env, lim, k, i, words, s, d, left));
  }

  lemma OnWireSlot(env: Env, v: Value, i: nat, depth: nat)
    requires Facts(env) && Encodable(env, v)
    requires i < |env.profile.byKey[v.key].fields| && env.profile.byKey[v.key].fields[i].kind.FieldValue?
    ensures var c, p := env.canonical.byKey[v.key], env.profile.byKey[v.key];
            At(c, p, i) < |v.slots| && v.slots[At(c, p, i)].Val? &&
            EncParts(env, v, depth)[i] == EncValue(env, p.fields[i].ty, v.slots[At(c, p, i)].v, depth)
  {
    var c, p := env.canonical.byKey[v.key], env.profile.byKey[v.key];
    assert FamilyFacts(env, v.key);
    Partner(c, p, i);
    assert EncParts(env, v, depth)[i] == EncPart(env, v, i, depth);
  }

  /** The bytes and parts of field `i` in front of those of the remaining fields. */
  lemma SplitField(env: Env, v: Value, i: nat, depth: nat, rest: seq<Byte>)
    requires Encodable(env, v)
    requires i < |env.profile.byKey[v.key].fields| && EmitRest(env, v, i, depth).Wrote?
    ensures EmitRest(env, v, i + 1, depth).Wrote?
    ensures var here := Emitted(env.canonical.byKey[v.key], env.profile.byKey[v.key], v.slots, EncParts(env, v, depth),
                                i);
            here.Wrote? && EmitRest(env, v, i, depth).bytes + rest == here.bytes +
            (EmitRest(env, v, i + 1, depth).bytes + rest)
    ensures WireParts(env, v, i, depth) == [WirePart(env, v, i, depth)] + WireParts(env, v, i + 1, depth)
  {
  }

  lemma FlagsStep(env: Env, lim: Limits, v: Value, i: nat, words: map<string, Fields>, depth: nat, rest: seq<Byte>,
                  d: nat, left: nat)
    requires Encodable(env, v)
    requires i < |env.profile.byKey[v.key].fields| && EmitRest(env, v, i, depth).Wrote?
    requires env.profile.byKey[v.key].fields[i].kind.FieldFlagsWord?
    requires EmitRest(env, v, i + 1, depth).Wrote?
    requires var c, p := env.canonical.byKey[v.key], env.profile.byKey[v.key];
             DecFields(env, lim, v.key, i + 1,
                       words[p.fields[i].name := WordBits(c, p, v.slots, EncParts(env, v, depth), p.fields[i].name)],
                       EmitRest(env, v, i + 1, depth).bytes + rest, d, left) ==
                       FieldsExpected(env, lim, v, i + 1, depth, rest, d, left)
    ensures DecFields(env, lim, v.key, i, words, EmitRest(env, v, i, depth).bytes + rest, d, left) ==
            FieldsExpected(env, lim, v, i, depth, rest, d, left)
  {
    var c, p := env.canonical.byKey[v.key], env.profile.byKey[v.key];
    SplitField(env, v, i, depth, rest);
    OffWire(env, lim, v, i, depth, d);
    var bits := WordBits(c, p, v.slots, EncParts(env, v, depth), p.fields[i].name);
    FlagsRoundTrip(bits, EmitRest(env, v, i + 1, depth).bytes + rest);
    assert DecFields(env, lim, v.key, i, words, FlagsWire(bits) + (EmitRest(env, v, i + 1, depth).bytes + rest), d,
                     left) ==
           Prepend(Word(bits), FieldsExpected(env, lim, v, i + 1, depth, rest, d, left));
  }

  lemma OffWire(env: Env, lim: Limits, v: Value, i: nat, depth: nat, d: nat)
    requires Encodable(env, v) && i < |env.profile.byKey[v.key].fields|
    requires !OnWire(env.canonical.byKey[v.key], env.profile.byKey[v.key], v.slots, EncParts(env, v, depth), i)
    ensures CountFields(env, v, i, depth) == CountFields(env, v, i + 1, depth)
    ensures ShallowFields(env, lim, v, i, depth, d) <==> ShallowFields(env, lim, v, i + 1, depth, d)
  {
    assert CountField(env, v, i, depth) == 0;
    assert ShallowField(env, lim, v, i, depth, d);
  }

  lemma OnWireCost(env: Env, lim: Limits, v: Value, i: nat, depth: nat, d: nat)
    requires Encodable(env, v) && i < |env.profile.byKey[v.key].fields|
    requires OnWire(env.canonical.byKey[v.key], env.profile.byKey[v.key], v.slots, EncParts(env, v, depth), i)
    requires var j := At(env.canonical.byKey[v.key], env.profile.byKey[v.key], i); j < |v.slots| && v.slots[j].Val?
    ensures var c, p := env.canonical.byKey[v.key], env.profile.byKey[v.key];
            var x := v.slots[At(c, p, i)].v;
            && CountFields(env, v, i, depth) == Count(env, p.fields[i].ty, x, depth) + CountFields(env, v, i + 1, depth)
            && (ShallowFields(env, lim, v, i, depth, d) <==>
                Shallow(env, lim, p.fields[i].ty, x, depth, d) && ShallowFields(env, lim, v, i + 1, depth, d))
  {
    var c, p := env.canonical.byKey[v.key], env.profile.byKey[v.key];
    var x := v.slots[At(c, p, i)].v;
    assert CountField(env, v, i, depth) == Count(env, p.fields[i].ty, x, depth);
    assert ShallowField(env, lim, v, i, depth, d) <==> Shallow(env, lim, p.fields[i].ty, x, depth, d);
  }

  /** A field that is not on the wire: absent, or carried entirely by its flag bit. */
  lemma SilentStep(env: Env, lim: Limits, v: Value, i: nat, words: map<string, Fields>, depth: nat, rest: seq<Byte>,
                   d: nat, left: nat)
    requires Facts(env) && Encodable(env, v)
    requires i < |env.profile.byKey[v.key].fields| && EmitRest(env, v, i, depth).Wrote? &&
             WordsRead(env, v, i, words, depth)
    requires env.profile.byKey[v.key].fields[i].kind.FieldValue?
    requires !OnWire(env.canonical.byKey[v.key], env.profile.byKey[v.key], v.slots, EncParts(env, v, depth), i)
    requires EmitRest(env, v, i + 1, depth).Wrote?
    requires DecFields(env, lim, v.key, i + 1, words, EmitRest(env, v, i + 1, depth).bytes + rest, d, left) ==
             FieldsExpected(env, lim, v, i + 1, depth, rest, d, left)
    ensures DecFields(env, lim, v.key, i, words, EmitRest(env, v, i, depth).bytes + rest, d, left) ==
            FieldsExpected(env, lim, v, i, depth, rest, d, left)
  {
    SplitField(env, v, i, depth, rest);
    ConditionRead(env, v, i, words, depth);
    OffWire(env, lim, v, i, depth, d);
    var after := EmitRest(env, v, i + 1, depth).bytes;
    assert [] + (after + rest) == after + rest;
    assert DecFields(env, lim, v.key, i, words, after + rest, d, left) ==
           Prepend(WirePart(env, v, i, depth), FieldsExpected(env, lim, v, i + 1, depth, rest, d, left));
  }

  /** One decoding step of a field whose body is on the wire. */
  lemma UnfoldValue(env: Env, lim: Limits, k: Key, i: nat, words: map<string, Fields>, s: seq<Byte>, d: nat, left: nat)
    requires Routed(env, k) && i < |env.profile.byKey[k].fields| && BodyFollows(env.profile.byKey[k].fields[i], words)
    ensures var dv := DecValue(env, lim, env.profile.byKey[k].fields[i].ty, s, d, left);
            && (dv.Limit? ==> DecFields(env, lim, k, i, words, s, d, left).Limit?)
            && (dv.Got? ==> DecFields(env, lim, k, i, words, s, d, left) ==
                            Prepend(Here(dv.value), DecFields(env, lim, k, i + 1, words, dv.rest, d, dv.left)))
  {
  }

  /** Decoding one field and then the others, in terms of the outcomes alone. */
  lemma FieldOutcome(ok: bool, n: nat, ok': bool, m: nat, v: Value, parts: seq<Part>, after: seq<Byte>, rest: seq<Byte>,
                     left: nat,
                     dv: Dec<Value>, df: Dec<seq<Part>>, r: Dec<seq<Part>>)
    requires dv == Expected(ok, n, v, after, left)
    requires df == Expected(ok', m, parts, rest, Left(left, n))
    requires dv.Limit? ==> r.Limit?
    requires dv.Got? ==> r == Prepend(Here(dv.value), df)
    ensures r == Expected(ok && ok', n + m, [Here(v)] + parts, rest, left)
  {
  }

  // ---------------------------------------------------------------- vectors

  lemma {:induction false} VectorRoundTrip(env: Env, lim: Limits, t: TypeRef, v: Value, depth: nat, rest: seq<Byte>,
                                           d: nat, left: nat)
    requires Facts(env) && t.kind.TypeVector? && EncValue(env, t, v, depth).Wrote?
    ensures DecValue(env, lim, t, EncValue(env, t, v, depth).bytes + rest, d, left) ==
            Expected(Shallow(env, lim, t, v, depth, d), Count(env, t, v, depth), Norm(env, t, v, depth), rest, left)
    decreases v, 3
  {
    var a := t.arg.value;
    var parts := EncItems(env, a, v, depth);
    if v.Vec? {
      if KeptCount(parts) <= left {
        ItemsRoundTrip(env, lim, a, v, 0, depth, rest, d + 1, left - KeptCount(parts));
        assert parts[0..] == parts;
      }
      VecStep(env, lim, t, v, depth, rest, d, left);
    } else {
      NilStep(env, lim, t, depth, rest, d, left);
    }
  }

  lemma NilStep(env: Env, lim: Limits, t: TypeRef, depth: nat, rest: seq<Byte>, d: nat, left: nat)
    requires t.kind.TypeVector? && t.arg.Some?
    ensures EncValue(env, t, Nil, depth).Wrote?
    ensures DecValue(env, lim, t, EncValue(env, t, Nil, depth).bytes + rest, d, left) ==
            Expected(Shallow(env, lim, t, Nil, depth, d), Count(env, t, Nil, depth), Norm(env, t, Nil, depth), rest,
                     left)
  {
    assert EncItems(env, t.arg.value, Nil, depth) == [];
    var header := Values.VectorHeader(BoxedVector(t), 0);
    assert EncValue(env, t, Nil, depth) == Wrote(header + []);
    assert header + [] + rest == header + rest;
    UnfoldVector(env, lim, t, 0, rest, d, left);
    assert DecItems(env, lim, t.arg.value, 0, rest, d + 1, left) == Got([], rest, left);
  }

  /** The header of a vector that was written is read back before any element. */
  lemma UnfoldVector(env: Env, lim: Limits, t: TypeRef, n: nat, rest: seq<Byte>, d: nat, left: nat)
    requires t.kind.TypeVector? && t.arg.Some? && n <= MAX_VECTOR
    ensures DecVector(env, lim, t, Values.VectorHeader(BoxedVector(t), n) + rest, d, left) ==
            if d >= lim.maxDepth || n > lim.maxVector || n > left then Limit
            else
              match DecItems(env, lim, t.arg.value, n, rest, d + 1, left - n)
              case Got(items, rest', left') => Got(if items == [] then Nil else Vec(items), rest', left')
              case Limit => Limit
              case Bad => Bad
  {
    LengthRoundTrip(BoxedVector(t), n, rest);
  }

  lemma VecStep(env: Env, lim: Limits, t: TypeRef, v: Value, depth: nat, rest: seq<Byte>, d: nat, left: nat)
    requires t.kind.TypeVector? && t.arg.Some? && v.Vec? && EncValue(env, t, v, depth).Wrote?
    requires var parts := EncItems(env, t.arg.value, v, depth);
             KeptCount(parts) <= left ==>
               DecItems(env, lim, t.arg.value, KeptCount(parts), KeptBytes(parts) + rest, d + 1,
                        left - KeptCount(parts)) ==
               ItemsExpected(env, lim, t.arg.value, v, 0, depth, rest, d + 1, left - KeptCount(parts))
    ensures DecValue(env, lim, t, EncValue(env, t, v, depth).bytes + rest, d, left) ==
            Expected(Shallow(env, lim, t, v, depth, d), Count(env, t, v, depth), Norm(env, t, v, depth), rest, left)
  {
    var parts := EncItems(env, t.arg.value, v, depth);
    var n := KeptCount(parts);
    KeptAtMost(parts);
    var body := KeptBytes(parts) + rest;
    assert EncValue(env, t, v, depth).bytes + rest == Values.VectorHeader(BoxedVector(t), n) + body;
    UnfoldVector(env, lim, t, n, body, d, left);
  }

  lemma {:induction false} ItemsRoundTrip(env: Env, lim: Limits, t: TypeRef, v: Value, i: nat, depth: nat,
                                          rest: seq<Byte>, d: nat, left: nat)
    requires Facts(env) && v.Vec? && i <= |v.items|
    requires forall k :: 0 <= k < |v.items| ==> !EncValue(env, t, v.items[k], depth).Failed?
    ensures DecItems(env, lim, t, KeptCount(EncItems(env, t, v, depth)[i..]),
                     KeptBytes(EncItems(env, t, v, depth)[i..]) + rest, d, left) ==
            ItemsExpected(env, lim, t, v, i, depth, rest, d, left)
    decreases v, 2, |v.items| - i, 1
  {
    var parts := EncItems(env, t, v, depth);
    if i == |v.items| {
      assert parts[i..] == [];
      assert [] + rest == rest;
    } else {
      if parts[i].Wrote? {
        KeptItemRoundTrip(env, lim, t, v, i, depth, rest, d, left);
      } else {
        ItemsRoundTrip(env, lim, t, v, i + 1, depth, rest, d, left);
        DroppedItemStep(env, lim, t, v, i, depth, rest, d, left);
      }
    }
  }

  lemma {:induction false} KeptItemRoundTrip(env: Env, lim: Limits, t: TypeRef, v: Value, i: nat, depth: nat,
                                             rest: seq<Byte>, d: nat, left: nat)
    requires Facts(env) && v.Vec? && i < |v.items| && EncValue(env, t, v.items[i], depth).Wrote?
    requires forall k :: 0 <= k < |v.items| ==> !EncValue(env, t, v.items[k], depth).Failed?
    ensures DecItems(env, lim, t, KeptCount(EncItems(env, t, v, depth)[i..]),
                     KeptBytes(EncItems(env, t, v, depth)[i..]) + rest, d, left) ==
            ItemsExpected(env, lim, t, v, i, depth, rest, d, left)
    decreases v, 2, |v.items| - i, 0
  {
    var after := KeptBytes(EncItems(env, t, v, depth)[i + 1..]) + rest;
    var n := Count(env, t, v.items[i], depth);
    var left' := Left(left, n);
    var parts := EncItems(env, t, v, depth);
    RoundTrip(env, lim, t, v.items[i], depth, after, d, left);
    ItemsRoundTrip(env, lim, t, v, i + 1, depth, rest, d, left');
    KeptItemJoined(env, lim, t, parts, i, Shallow(env, lim, t, v.items[i], depth, d), n,
                   ShallowItems(env, lim, t, v, i + 1, depth, d), CountItems(env, t, v, i + 1, depth),
                   Norm(env, t, v.items[i], depth), NormKept(env, t, v, i + 1, depth), rest, d, left);
    TailExpected(env, lim, t, v, i, depth, rest, d, left);
  }

  /** One kept element in front of the elements after it. */
  lemma {:induction false} KeptItemJoined(env: Env, lim: Limits, t: TypeRef, parts: seq<Res>, i: nat, ok: bool, n: nat,
                                          ok': bool, m: nat, x: Value, xs: seq<Value>, rest: seq<Byte>, d: nat,
                                          left: nat)
    requires i < |parts| && parts[i].Wrote?
    requires var after := KeptBytes(parts[i + 1..]) + rest;
             DecValue(env, lim, t, parts[i].bytes + after, d, left) == Expected(ok, n, x, after, left)
    requires var left' := Left(left, n);
             DecItems(env, lim, t, KeptCount(parts[i + 1..]), KeptBytes(parts[i + 1..]) + rest, d, left') ==
             Expected(ok', m, xs, rest, left')
    ensures DecItems(env, lim, t, KeptCount(parts[i..]), KeptBytes(parts[i..]) + rest, d, left) ==
            Expected(ok && ok', n + m, [x] + xs, rest, left)
  {
    KeptSplit(parts, i, rest);
    KeptItemStep(env, lim, t, KeptCount(parts[i + 1..]), KeptBytes(parts[i..]) + rest, d, left, ok, n, ok', m, x, xs,
                 KeptBytes(parts[i + 1..]) + rest, rest);
  }

  /** What a kept element adds to the expectations for the elements after it. */
  lemma TailExpected(env: Env, lim: Limits, t: TypeRef, v: Value, i: nat, depth: nat, rest: seq<Byte>, d: nat,
                     left: nat)
    requires v.Vec? && i < |v.items| && EncValue(env, t, v.items[i], depth).Wrote?
    ensures ItemsExpected(env, lim, t, v, i, depth, rest, d, left) ==
            Expected(Shallow(env, lim, t, v.items[i], depth, d) && ShallowItems(env, lim, t, v, i + 1, depth, d),
                     Count(env, t, v.items[i], depth) + CountItems(env, t, v, i + 1, depth),
                     [Norm(env, t, v.items[i], depth)] + NormKept(env, t, v, i + 1, depth), rest, left)
  {
  }

  /** One element and then the others, each decoded as expected. */
  lemma {:induction false} KeptItemStep(env: Env, lim: Limits, t: TypeRef, k: nat, s: seq<Byte>, d: nat, left: nat,
                                        ok: bool, n: nat, ok': bool, m: nat, x: Value, xs: seq<Value>,
                                        after: seq<Byte>, rest: seq<Byte>)
    requires DecValue(env, lim, t, s, d, left) == Expected(ok, n, x, after, left)
    requires DecItems(env, lim, t, k, after, d, Left(left, n)) == Expected(ok', m, xs, rest, Left(left, n))
    ensures DecItems(env, lim, t, 1 + k, s, d, left) == Expected(ok && ok', n + m, [x] + xs, rest, left)
  {
    UnfoldItem(env, lim, t, k, s, d, left);
    ItemOutcome(ok, n, ok', m, x, xs, after, rest, left, DecValue(env, lim, t, s, d, left),
                DecItems(env, lim, t, k, after, d, Left(left, n)), DecItems(env, lim, t, 1 + k, s, d, left));
  }

  lemma KeptSplit(parts: seq<Res>, i: nat, rest: seq<Byte>)
    requires i < |parts| && parts[i].Wrote?
    ensures KeptCount(parts[i..]) == 1 + KeptCount(parts[i + 1..])
    ensures KeptBytes(parts[i..]) + rest == parts[i].bytes + (KeptBytes(parts[i + 1..]) + rest)
  {
    assert parts[i..][1..] == parts[i + 1..];
  }

  ghost function ItemsExpected(env: Env, lim: Limits, t: TypeRef, v: Value, i: nat, depth: nat, rest: seq<Byte>, d: nat,
                               left: nat): Dec<seq<Value>>
    requires v.Vec? && i <= |v.items|
  {
    Expected(ShallowItems(env, lim, t, v, i, depth, d), CountItems(env, t, v, i, depth), NormKept(env, t, v, i, depth),
             rest, left)
  }

  lemma DroppedItemStep(env: Env, lim: Limits, t: TypeRef, v: Value, i: nat, depth: nat, rest: seq<Byte>, d: nat,
                        left: nat)
    requires v.Vec? && i < |v.items| && EncValue(env, t, v.items[i], depth).Dropped?
    requires DecItems(env, lim, t, KeptCount(EncItems(env, t, v, depth)[i + 1..]),
                      KeptBytes(EncItems(env, t, v, depth)[i + 1..]) + rest, d, left)
             == ItemsExpected(env, lim, t, v, i + 1, depth, rest, d, left)
    ensures DecItems(env, lim, t, KeptCount(EncItems(env, t, v, depth)[i..]),
                     KeptBytes(EncItems(env, t, v, depth)[i..]) + rest, d, left)
            == ItemsExpected(env, lim, t, v, i, depth, rest, d, left)
  {
    var parts := EncItems(env, t, v, depth);
    assert parts[i..][1..] == parts[i + 1..];
    assert KeptBytes(parts[i..]) == KeptBytes(parts[i + 1..]);
    assert NormKept(env, t, v, i, depth) == NormKept(env, t, v, i + 1, depth);
  }

  function PrependItem(v: Value, d: Dec<seq<Value>>): Dec<seq<Value>>
  {
    match d
    case Got(vs, rest, left) => Got([v] + vs, rest, left)
    case Limit => Limit
    case Bad => Bad
  }

  lemma UnfoldItem(env: Env, lim: Limits, t: TypeRef, n: nat, s: seq<Byte>, d: nat, left: nat)
    ensures var dv := DecValue(env, lim, t, s, d, left);
            && (dv.Limit? ==> DecItems(env, lim, t, 1 + n, s, d, left).Limit?)
            && (dv.Got? ==> DecItems(env, lim, t, 1 + n, s, d, left) ==
                            PrependItem(dv.value, DecItems(env, lim, t, n, dv.rest, d, dv.left)))
  {
  }

  /** Decoding one element and then the others, in terms of the outcomes alone. */
  lemma ItemOutcome(ok: bool, n: nat, ok': bool, m: nat, v: Value, vs: seq<Value>, after: seq<Byte>, rest: seq<Byte>,
                    left: nat,
                    dv: Dec<Value>, di: Dec<seq<Value>>, r: Dec<seq<Value>>)
    requires dv == Expected(ok, n, v, after, left)
    requires di == Expected(ok', m, vs, rest, Left(left, n))
    requires dv.Limit? ==> r.Limit?
    requires dv.Got? ==> r == PrependItem(dv.value, di)
    ensures r == Expected(ok && ok', n + m, [v] + vs, rest, left)
  {
  }
}

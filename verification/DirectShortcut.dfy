/**
  What it costs to encode a direct family by its canonical method. For a value within the limits
  the rewriting encoder of the layer succeeds exactly when every object belongs in the layer to the
  class it stands for; it then writes as many bytes as the canonical encoder, and the same bytes
  exactly when no flag bit is set that no field owns. The rewriting encoder refuses strangers to a
  class and clears such bits, the canonical one writes both; nothing else tells the shortcut apart.
 */
module DirectShortcut {
  import opened Bin
  import opened Schema
  import opened Values
  import opened StaticDirty
  import opened LayerCodec
  import opened LayerRoundTrip
  import opened LayerRewrite
  import DirectBytes
  import Obligations

  /** One layer seen by the analysis and by the codec. */
  ghost predicate SameLayer(u: Universe, env: Env)
  {
    ValidUniverse(u) && ValidEnv(env) && u.canonical == env.canonical && u.target == env.profile
  }

  /** The families keep body and identifier, and so does everything they can contain. */
  ghost predicate Kept(u: Universe, s: set<Key>)
  {
    && DirectBytes.SameBodyClosed(u, s)
    && forall k :: k in s ==> u.canonical.byKey[k].wireID == u.target.byKey[k].wireID
  }

  // ---------------------------------------------------------------- stray bits

  /** No bit of the flags word is set that no field owns. */
  ghost predicate TidyWord(c: Definition, slots: seq<Slot>, w: nat)
    requires Aligned(c, slots) && w < |slots| && slots[w].Flags?
  {
    forall b :: 0 <= b < 32 && slots[w].bits[b] ==> Owned(c, c.fields[w].name, b)
  }

  /** No object written for `v` has a stray bit. */
  ghost predicate Tidy(s: SchemaModel, t: TypeRef, v: Value)
    decreases v, 2
  {
    match t.kind
    case TypeVector => v.Vec? && t.arg.Some? ==> forall i :: 0 <= i < |v.items| ==> Tidy(s, t.arg.value, v.items[i])
    case TypePrimitive => IsObjectType(t) ==> TidyObj(s, v)
    case _ => TidyObj(s, v)
  }

  ghost predicate TidyObj(s: SchemaModel, v: Value)
    decreases v, 1
  {
    v.Obj? && v.key in s.byKey && Aligned(s.byKey[v.key], v.slots) ==>
      forall j :: 0 <= j < |v.slots| ==> TidySlot(s, v, j)
  }

  ghost predicate TidySlot(s: SchemaModel, v: Value, j: nat)
    requires v.Obj? && v.key in s.byKey && Aligned(s.byKey[v.key], v.slots) && j < |v.slots|
    decreases v, 0
  {
    var c := s.byKey[v.key];
    if v.slots[j].Flags? then TidyWord(c, v.slots, j)
    else DirectBytes.Written(c, v.slots, j) ==> Tidy(s, c.fields[j].ty, v.slots[j].v)
  }

  // ---------------------------------------------------------------- two versions with the same body

  ghost predicate Twins(c: Definition, p: Definition)
  {
    ValidDefinition(c) && ValidDefinition(p) && SameBody(c, p)
  }

  lemma TwinFields(c: Definition, p: Definition, i: nat)
    requires Twins(c, p) && i < |p.fields|
    ensures |c.fields| == |p.fields| && At(c, p, i) == i
    ensures SameFieldShape(c.fields[i], p.fields[i])
    ensures p.fields[i].cond.Some? ==> p.fields[i].kind.FieldValue?
  {
    assert SameFieldShape(c.fields[i], p.fields[i]);
    if p.fields[i].cond.Some? { assert ValidCondition(p, i); }
  }

  lemma TwinsCompare(c: Definition, p: Definition)
    requires Twins(c, p)
    ensures Comparable(c, p)
  {
    var cm, pm := Obligations.ValueMap(c), Obligations.ValueMap(p);
    forall n | n in cm ensures n in pm && SameFieldShape(cm[n], pm[n]) && cm[n].kind.FieldValue? { TwinField(c, p, n); }
    forall n | n in pm ensures n in cm { TwinField(p, c, n); }
    SameShapesCorrespond(cm, pm);
  }

  lemma SameShapesCorrespond(c: Obligations.FieldMap, p: Obligations.FieldMap)
    requires c.Keys == p.Keys && forall n :: n in c ==> SameFieldShape(c[n], p[n]) && c[n].kind.FieldValue?
    ensures Obligations.CorrespondingFields(c, p)
  {
    forall n, m | n in c && m in c ensures Obligations.Shares(c, n, m) <==> Obligations.Shares(p, n, m) {
      assert c[n].cond == p[n].cond && c[m].cond == p[m].cond;
    }
  }

  lemma TwinField(c: Definition, p: Definition, n: string)
    requires Twins(c, p) && n in Obligations.ValueMap(c)
    ensures n in Obligations.ValueMap(p)
    ensures SameFieldShape(Obligations.ValueMap(c)[n], Obligations.ValueMap(p)[n]) &&
            Obligations.ValueMap(c)[n].kind.FieldValue?
  {
    ValueMapIndex(c, n);
    var i := IndexOf(c.fields, n);
    assert SameFieldShape(c.fields[i], p.fields[i]);
    ValueMapAt(p, i);
  }

  lemma TwinLinked(c: Definition, p: Definition, i: nat)
    requires Twins(c, p) && i < |p.fields| && p.fields[i].cond.Some?
    ensures Linked(c, p, i, p.fields[i].cond.value)
  {
    TwinFields(c, p, i);
  }

  /** With the same bits on both sides the final groups are the owned and raised ones. */
  lemma TwinFinal(c: Definition, p: Definition, slots: seq<Slot>, parts: seq<Res>, word: string, bit: nat)
    requires Twins(c, p) && Aligned(c, slots) && |parts| == |p.fields| && AllEncoded(c, p, slots, parts)
    ensures FinalGroup(c, p, slots, parts, word, bit) <==> Owned(c, word, bit) && Raised(c, slots, word, bit)
  {
    TwinsCompare(c, p);
    if FinalGroup(c, p, slots, parts, word, bit) {
      var i :| 0 <= i < |p.fields| && ValueOnSlot(p.fields[i], word, bit) && Survives(c, p, slots, parts, i);
      TwinFields(c, p, i);
      TwinLinked(c, p, i);
      assert ValueOnSlot(c.fields[i], word, bit);
      FinalIsRaised(c, p, slots, parts, i, p.fields[i].cond.value);
    }
    if Owned(c, word, bit) {
      var j :| 0 <= j < |c.fields| && ValueOnSlot(c.fields[j], word, bit);
      TwinFields(c, p, j);
      TwinLinked(c, p, j);
      FinalIsRaised(c, p, slots, parts, j, p.fields[j].cond.value);
    }
  }

  lemma SetIsOwned(c: Definition, slots: seq<Slot>, word: string, bit: nat)
    requires Aligned(c, slots) && DirectBytes.SetByField(c, slots, word, bit)
    ensures Owned(c, word, bit)
  {
    var j :| 0 <= j < |slots| && slots[j].Val? && OnSlot(c.fields[j], word, bit) && !IsZero(slots[j].v);
    assert ValueOnSlot(c.fields[j], word, bit);
  }

  /** The two encoders write the same flags word exactly when it has no stray bit. */
  lemma SameFlagsIffTidy(c: Definition, p: Definition, slots: seq<Slot>, parts: seq<Res>, w: nat)
    requires Twins(c, p) && Aligned(c, slots) && |parts| == |p.fields| && AllEncoded(c, p, slots, parts) &&
             w < |slots| && slots[w].Flags?
    ensures WordBits(c, p, slots, parts, p.fields[w].name) == DirectBytes.EffectiveFlags(c, slots, w) <==>
            TidyWord(c, slots, w)
  {
    TwinFields(c, p, w);
    var word := c.fields[w].name;
    assert IndexOf(c.fields, word) == w;
    var ours, theirs := WordBits(c, p, slots, parts, word), DirectBytes.EffectiveFlags(c, slots, w);
    forall b | 0 <= b < 32
      ensures ours[b] == theirs[b] <==> (slots[w].bits[b] ==> Owned(c, word, b))
    {
      TwinFinal(c, p, slots, parts, word, b);
      assert HasBit(c, slots, word, b) <==> slots[w].bits[b];
      if DirectBytes.SetByField(c, slots, word, b) { SetIsOwned(c, slots, word, b); }
    }
    assert ours == theirs <==> forall b :: 0 <= b < 32 ==> ours[b] == theirs[b];
  }

  // ---------------------------------------------------------------- the two encoders side by side

  /** Both encoders succeed with equally many bytes, the same ones exactly if `same`. */
  ghost predicate Matches(r: Res, w: Option<seq<Byte>>, same: bool)
  {
    r.Wrote? && w.Some? && |r.bytes| == |w.value| && (r.bytes == w.value <==> same)
  }

  lemma JoinMatches(a: Res, b: Res, x: Option<seq<Byte>>, y: Option<seq<Byte>>, p: bool, q: bool)
    requires Matches(a, x, p) && Matches(b, y, q)
    ensures Matches(Then(a, b), DirectBytes.Join(x, y), p && q)
  {
    DirectBytes.JoinSame(Some(a.bytes), Some(b.bytes), x, y, p, q);
  }

  lemma FlagsMatch(a: Fields, b: Fields)
    ensures |FlagsWire(a)| == |FlagsWire(b)| && (FlagsWire(a) == FlagsWire(b) <==> a == b)
  {
    FlagsRoundTrip(a, []);
    FlagsRoundTrip(b, []);
  }

  /** Every field body that belongs on the wire matches, the same bytes exactly if it is tidy. */
  ghost predicate PartsMatch(env: Env, v: Value, parts: seq<Res>)
    requires Encodable(env, v) && |parts| == |v.slots|
  {
    var c := env.canonical.byKey[v.key];
    forall j :: 0 <= j < |v.slots| && v.slots[j].Val? && DirectBytes.Written(c, v.slots, j) ==>
      Matches(parts[j], DirectBytes.Wire(env.canonical, c.fields[j].ty, v.slots[j].v),
              Tidy(env.canonical, c.fields[j].ty, v.slots[j].v))
  }

  lemma FieldMatches(env: Env, v: Value, parts: seq<Res>, i: nat)
    requires Encodable(env, v) && Twins(env.canonical.byKey[v.key], env.profile.byKey[v.key])
    requires |parts| == |env.profile.byKey[v.key].fields| == |v.slots| && i < |parts| && PartsMatch(env, v, parts)
    requires AllEncoded(env.canonical.byKey[v.key], env.profile.byKey[v.key], v.slots, parts)
    ensures Matches(Emitted(env.canonical.byKey[v.key], env.profile.byKey[v.key], v.slots, parts, i),
                    DirectBytes.FieldWire(env.canonical, v, i), TidySlot(env.canonical, v, i))
  {
    var c, p := env.canonical.byKey[v.key], env.profile.byKey[v.key];
    TwinFields(c, p, i);
    if v.slots[i].Flags? {
      SameFlagsIffTidy(c, p, v.slots, parts, i);
      FlagsMatch(WordBits(c, p, v.slots, parts, p.fields[i].name), DirectBytes.EffectiveFlags(c, v.slots, i));
    } else {
      TwinsCompare(c, p);
      OnWireIsWritten(c, p, v.slots, parts, i);
    }
  }

  ghost predicate TidyFrom(s: SchemaModel, v: Value, i: nat)
    requires v.Obj? && v.key in s.byKey && Aligned(s.byKey[v.key], v.slots)
  {
    forall j :: i <= j < |v.slots| ==> TidySlot(s, v, j)
  }

  ghost predicate EachFieldMatches(s: SchemaModel, c: Definition, p: Definition, v: Value, parts: seq<Res>)
    requires v.Obj? && v.key in s.byKey && c == s.byKey[v.key] && Aligned(c, v.slots) &&
             |parts| == |p.fields| == |v.slots|
  {
    forall i {:trigger MatchesAt(s, c, p, v, parts, i)} :: MatchesAt(s, c, p, v, parts, i)
  }

  ghost predicate MatchesAt(s: SchemaModel, c: Definition, p: Definition, v: Value, parts: seq<Res>, i: int)
    requires v.Obj? && v.key in s.byKey && c == s.byKey[v.key] && Aligned(c, v.slots) &&
             |parts| == |p.fields| == |v.slots|
  {
    0 <= i < |parts| ==> Matches(Emitted(c, p, v.slots, parts, i), DirectBytes.FieldWire(s, v, i), TidySlot(s, v, i))
  }

  lemma {:induction false} FieldsMatch(s: SchemaModel, c: Definition, p: Definition, v: Value, parts: seq<Res>, i: nat)
    requires v.Obj? && v.key in s.byKey && c == s.byKey[v.key] && Aligned(c, v.slots) &&
             |parts| == |p.fields| == |v.slots|
    requires i <= |parts| && EachFieldMatches(s, c, p, v, parts)
    ensures Matches(EmitFrom(c, p, v.slots, parts, i), DirectBytes.WireFields(s, v, i), TidyFrom(s, v, i))
    decreases |parts| - i
  {
    if i < |parts| {
      assert MatchesAt(s, c, p, v, parts, i);
      FieldsMatch(s, c, p, v, parts, i + 1);
      FieldBefore(s, c, p, v, parts, i);
    } else {
      NoMoreFields(s, c, p, v, parts);
    }
  }

  lemma NoMoreFields(s: SchemaModel, c: Definition, p: Definition, v: Value, parts: seq<Res>)
    requires v.Obj? && v.key in s.byKey && c == s.byKey[v.key] && Aligned(c, v.slots) &&
             |parts| == |p.fields| == |v.slots|
    ensures Matches(EmitFrom(c, p, v.slots, parts, |parts|), DirectBytes.WireFields(s, v, |parts|),
                    TidyFrom(s, v, |parts|))
  {
  }

  lemma FieldBefore(s: SchemaModel, c: Definition, p: Definition, v: Value, parts: seq<Res>, i: nat)
    requires v.Obj? && v.key in s.byKey && c == s.byKey[v.key] && Aligned(c, v.slots) &&
             |parts| == |p.fields| == |v.slots| && i < |parts|
    requires MatchesAt(s, c, p, v, parts, i)
    requires Matches(EmitFrom(c, p, v.slots, parts, i + 1), DirectBytes.WireFields(s, v, i + 1), TidyFrom(s, v, i + 1))
    ensures Matches(EmitFrom(c, p, v.slots, parts, i), DirectBytes.WireFields(s, v, i), TidyFrom(s, v, i))
  {
    DirectBytes.SplitFields(s, v, i);
    JoinMatches(Emitted(c, p, v.slots, parts, i), EmitFrom(c, p, v.slots, parts, i + 1),
                DirectBytes.FieldWire(s, v, i), DirectBytes.WireFields(s, v, i + 1), TidySlot(s, v, i),
                TidyFrom(s, v, i + 1));
    assert TidyFrom(s, v, i) <==> TidySlot(s, v, i) && TidyFrom(s, v, i + 1);
  }

  // ---------------------------------------------------------------- unchanged families are available

  lemma {:induction false} CoversCarries(u: Universe, env: Env, s: set<Key>, t: TypeRef)
    requires SameLayer(u, env) && DirectBytes.Covers(u, s, t)
    ensures Carries(env, s, t)
  {
    if t.kind.TypeVector? && t.arg.Some? {
      CoversCarries(u, env, s, t.arg.value);
    } else if t.kind.TypeNamed? && BareNamed(t) && Key(CategoryType, t.qname) in env.canonical.byKey {
      assert Key(CategoryType, t.qname) in TypeDependencies(u, t);
    }
  }

  lemma KeptIsAvailable(u: Universe, env: Env, s: set<Key>)
    requires SameLayer(u, env) && Kept(u, s)
    ensures Available(env, s)
  {
    forall k | k in s ensures Routed(env, k) && CarriesFields(env, s, k) {
      var c := env.canonical.byKey[k];
      TwinsCompare(c, env.profile.byKey[k]);
      assert k in env.clean;
      forall i | 0 <= i < |c.fields| && c.fields[i].kind.FieldValue? ensures Carries(env, s, c.fields[i].ty) {
        CoversCarries(u, env, s, c.fields[i].ty);
      }
    }
  }

  // ---------------------------------------------------------------- the two encoders agree

  /** Unchanged families in a valid layer, which are therefore available. */
  ghost predicate Ready(env: Env, s: set<Key>)
  {
    && Facts(env) && Available(env, s)
    && forall k :: k in s ==>
         Twins(env.canonical.byKey[k], env.profile.byKey[k]) &&
         env.canonical.byKey[k].wireID == env.profile.byKey[k].wireID
  }

  lemma KeptIsReady(u: Universe, env: Env, s: set<Key>)
    requires SameLayer(u, env) && Kept(u, s)
    ensures Ready(env, s)
  {
    ValidEnvFacts(env);
    KeptIsAvailable(u, env, s);
  }

  lemma {:induction false} BareMatches(env: Env, s: set<Key>, v: Value, depth: nat)
    requires Ready(env, s) && v.Obj? && v.key in s && WithinObj(env, v, depth) && PlacedObj(env, v)
    ensures Matches(EncBare(env, v, depth), DirectBytes.WireBare(env.canonical, v), TidyObj(env.canonical, v))
    decreases v, 0
  {
    var c, p, parts := env.canonical.byKey[v.key], env.profile.byKey[v.key], EncParts(env, v, depth + 1);
    PartsEncoded(env, s, v, depth);
    assert CarriesFields(env, s, v.key);
    forall j | 0 <= j < |v.slots| && v.slots[j].Val? && DirectBytes.Written(c, v.slots, j)
      ensures Matches(parts[j], DirectBytes.Wire(env.canonical, c.fields[j].ty, v.slots[j].v),
                      Tidy(env.canonical, c.fields[j].ty, v.slots[j].v))
    {
      TwinFields(c, p, j);
      assert parts[j] == EncPart(env, v, j, depth + 1);
      ValueMatches(env, s, c.fields[j].ty, v.slots[j].v, depth + 1);
    }
    NoPartialGroups(c, p, v.slots, parts);
    forall i ensures MatchesAt(env.canonical, c, p, v, parts, i) {
      if 0 <= i < |parts| { FieldMatches(env, v, parts, i); }
    }
    FieldsMatch(env.canonical, c, p, v, parts, 0);
  }

  lemma {:induction false} BoxedMatches(env: Env, s: set<Key>, v: Value, depth: nat)
    requires Ready(env, s) && v.Obj? && v.key in s && WithinObj(env, v, depth) && PlacedObj(env, v)
    ensures Matches(EncBoxed(env, v, depth), DirectBytes.WireBoxed(env.canonical, v), TidyObj(env.canonical, v))
    decreases v, 1
  {
    BareMatches(env, s, v, depth);
    var id := LE(4, env.canonical.byKey[v.key].wireID);
    JoinMatches(Wrote(id), EncBare(env, v, depth), Some(id), DirectBytes.WireBare(env.canonical, v), true,
                TidyObj(env.canonical, v));
  }

  ghost predicate TidyItems(s: SchemaModel, t: TypeRef, v: Value, i: nat)
    requires v.Vec?
  {
    forall j :: i <= j < |v.items| ==> Tidy(s, t, v.items[j])
  }

  lemma {:induction false} ItemsMatch(env: Env, s: set<Key>, t: TypeRef, v: Value, i: nat, depth: nat)
    requires Ready(env, s) && Carries(env, s, t) && v.Vec? && i <= |v.items|
    requires forall k :: 0 <= k < |v.items| ==> Within(env, t, v.items[k], depth) && Placed(env, t, v.items[k])
    ensures var parts := EncItems(env, t, v, depth);
            && (forall k :: i <= k < |parts| ==> parts[k].Wrote?) && KeptCount(parts[i..]) == |parts| - i
            && Matches(Wrote(KeptBytes(parts[i..])), DirectBytes.WireItems(env.canonical, t, v, i),
                       TidyItems(env.canonical, t, v, i))
    decreases v, 1, |v.items| - i
  {
    var parts := EncItems(env, t, v, depth);
    if i < |v.items| {
      ValueMatches(env, s, t, v.items[i], depth);
      ItemsMatch(env, s, t, v, i + 1, depth);
      ItemBefore(env.canonical, t, v, parts, i);
    }
  }

  lemma ItemBefore(s: SchemaModel, t: TypeRef, v: Value, parts: seq<Res>, i: nat)
    requires v.Vec? && |parts| == |v.items| && i < |parts| && KeptCount(parts[i + 1..]) == |parts| - i - 1
    requires Matches(parts[i], DirectBytes.Wire(s, t, v.items[i]), Tidy(s, t, v.items[i]))
    requires Matches(Wrote(KeptBytes(parts[i + 1..])), DirectBytes.WireItems(s, t, v, i + 1), TidyItems(s, t, v, i + 1))
    ensures KeptCount(parts[i..]) == |parts| - i
    ensures Matches(Wrote(KeptBytes(parts[i..])), DirectBytes.WireItems(s, t, v, i), TidyItems(s, t, v, i))
  {
    assert parts[i..][1..] == parts[i + 1..];
    JoinMatches(parts[i], Wrote(KeptBytes(parts[i + 1..])), DirectBytes.Wire(s, t, v.items[i]),
                DirectBytes.WireItems(s, t, v, i + 1), Tidy(s, t, v.items[i]), TidyItems(s, t, v, i + 1));
    assert TidyItems(s, t, v, i) <==> Tidy(s, t, v.items[i]) && TidyItems(s, t, v, i + 1);
  }

  /** The header in front of matching elements. */
  lemma {:induction false} AssembledMatches(boxed: bool, parts: seq<Res>, w: Option<seq<Byte>>, tidy: bool)
    requires (forall k :: 0 <= k < |parts| ==> parts[k].Wrote?) && KeptCount(parts) == |parts|
    requires Matches(Wrote(KeptBytes(parts)), w, tidy)
    ensures Matches(AssembleVector(boxed, parts), DirectBytes.Join(Some(VectorHeader(boxed, |parts|)), w), tidy)
  {
    var h := VectorHeader(boxed, |parts|);
    JoinMatches(Wrote(h), Wrote(KeptBytes(parts)), Some(h), w, true, tidy);
  }

  lemma {:induction false} VectorMatches(env: Env, s: set<Key>, t: TypeRef, v: Value, depth: nat)
    requires Ready(env, s) && t.kind.TypeVector? && Carries(env, s, t) && Within(env, t, v, depth) && Placed(env, t, v)
    ensures Matches(EncValue(env, t, v, depth), DirectBytes.Wire(env.canonical, t, v), Tidy(env.canonical, t, v))
    decreases v, 2
  {
    var a := t.arg.value;
    var parts := EncItems(env, a, v, depth);
    if v.Vec? {
      ItemsMatch(env, s, a, v, 0, depth);
      assert parts[0..] == parts;
      AssembledMatches(BoxedVector(t), parts, DirectBytes.WireItems(env.canonical, a, v, 0),
                       TidyItems(env.canonical, a, v, 0));
    } else {
      assert parts == [];
      assert VectorHeader(BoxedVector(t), 0) + [] == VectorHeader(BoxedVector(t), 0);
    }
  }

  /**
    Layered and canonical encoder match on every placed value of unchanged families, and are equal
    exactly on tidy ones.
   */
  lemma {:induction false} ValueMatches(env: Env, s: set<Key>, t: TypeRef, v: Value, depth: nat)
    requires Ready(env, s) && Carries(env, s, t) && Within(env, t, v, depth) && Placed(env, t, v)
    ensures Matches(EncValue(env, t, v, depth), DirectBytes.Wire(env.canonical, t, v), Tidy(env.canonical, t, v))
    decreases v, 3
  {
    match t.kind {
      case TypePrimitive =>
        if IsObjectType(t) {
          CarriedKey(env, s, t, v, depth);
          BoxedMatches(env, s, v, depth);
        }
      case TypeVector => VectorMatches(env, s, t, v, depth);
      case TypeNamed =>
        CarriedKey(env, s, t, v, depth);
        if BareNamed(t) {
          BareMatches(env, s, v, depth);
        } else {
          BoxedMatches(env, s, v, depth);
        }
      case TypeGenericRef =>
    }
  }

  // ---------------------------------------------------------------- the canonical encoder always succeeds

  lemma {:induction false} CanonicalWritesFrom(env: Env, v: Value, i: nat, depth: nat)
    requires v.Obj? && WithinObj(env, v, depth) && i <= |v.slots|
    ensures DirectBytes.WireFields(env.canonical, v, i).Some?
    decreases v, 0, |v.slots| - i
  {
    if i < |v.slots| {
      var c := env.canonical.byKey[v.key];
      CanonicalWritesFrom(env, v, i + 1, depth);
      if v.slots[i].Val? && DirectBytes.Written(c, v.slots, i) {
        CanonicalWrites(env, c.fields[i].ty, v.slots[i].v, depth + 1);
      }
    }
  }

  lemma {:induction false} CanonicalWritesItems(env: Env, t: TypeRef, v: Value, i: nat, depth: nat)
    requires v.Vec? && i <= |v.items| && forall k :: 0 <= k < |v.items| ==> Within(env, t, v.items[k], depth)
    ensures DirectBytes.WireItems(env.canonical, t, v, i).Some?
    decreases v, 1, |v.items| - i
  {
    if i < |v.items| {
      CanonicalWrites(env, t, v.items[i], depth);
      CanonicalWritesItems(env, t, v, i + 1, depth);
    }
  }

  /** Every value within the limits has a canonical encoding. */
  lemma {:induction false} CanonicalWrites(env: Env, t: TypeRef, v: Value, depth: nat)
    requires Within(env, t, v, depth)
    ensures DirectBytes.Wire(env.canonical, t, v).Some?
    decreases v, 2
  {
    if t.kind.TypeVector? {
      if v.Vec? { CanonicalWritesItems(env, t.arg.value, v, 0, depth); }
    } else if !PlainPrimitive(t) {
      CanonicalWritesFrom(env, v, 0, depth);
      assert DirectBytes.WireBare(env.canonical, v).Some?;
    }
  }

  // ---------------------------------------------------------------- when the shortcut shows

  /** What the layered encoder would write, and nothing where it would fail. */
  function Outcome(r: Res): Option<seq<Byte>>
  {
    if r.Wrote? then Some(r.bytes) else None
  }

  /**
    The canonical method of a direct family writes every value within the limits. It writes what
    the layered encoder would write if and only if every object in the value belongs in the layer
    to the class it stands for and none has a stray flag bit.
   */
  lemma DirectShortcutExact(u: Universe, env: Env, states: map<Key, Dirty>, f: Key, bodyObligations: bool, v: Value,
                            depth: nat)
    requires SameLayer(u, env) && Analysis(u, states) && f in u.families
    requires DirectBytes.Classify(u, f, bodyObligations, states[f].nested) == DirectBytes.Direct
    requires v.Obj? && v.key == f && WithinObj(env, v, depth)
    ensures DirectBytes.WireBare(env.canonical, v).Some? && DirectBytes.WireBoxed(env.canonical, v).Some?
    ensures Decided(EncBare(env, v, depth), PlacedObj(env, v)) && Decided(EncBoxed(env, v, depth), PlacedObj(env, v))
    ensures Outcome(EncBare(env, v, depth)) == DirectBytes.WireBare(env.canonical, v) <==>
            PlacedObj(env, v) && TidyObj(env.canonical, v)
    ensures Outcome(EncBoxed(env, v, depth)) == DirectBytes.WireBoxed(env.canonical, v) <==>
            PlacedObj(env, v) && TidyObj(env.canonical, v)
  {
    DirectBytes.CleanClosed(u, states);
    var s := DirectBytes.UnchangedFamilies(u, states);
    assert DirectBytes.SameIds(u, s);
    KeptIsReady(u, env, s);
    CanonicalWritesFrom(env, v, 0, depth);
    BareDecided(env, s, v, depth);
    if PlacedObj(env, v) {
      BareMatches(env, s, v, depth);
      BoxedMatches(env, s, v, depth);
    }
  }

  // ---------------------------------------------------------------- which action a family gets

  /** Whether comparing the two versions of a family leaves a decision about its body. */
  ghost predicate Undecided(u: Universe, k: Key, al: Obligations.Pairs, rp: Obligations.Pairs)
    requires ValidUniverse(u) && k in u.canonical.byKey && k in u.target.byKey
  {
    exists o :: Obligations.IsBodyObligation(u.canonical.byKey[k], u.target.byKey[k], al, rp, o)
  }

  /** The pairing the comparison of the two versions finds. */
  ghost predicate Compared(u: Universe, k: Key, al: Obligations.Pairs, rp: Obligations.Pairs)
    requires ValidUniverse(u) && k in u.canonical.byKey && k in u.target.byKey
  {
    var cm, tm := Obligations.ValueMap(u.canonical.byKey[k]), Obligations.ValueMap(u.target.byKey[k]);
    Obligations.AreAliases(cm, tm, al) && Obligations.AreReplacements(cm, tm, rp)
  }

  /**
    A family gets a mechanical action exactly when the layer has a mechanical codec for it, is left to
    a policy exactly when it is present on both sides without one, and is otherwise named by the side
    it is missing from. Among mechanical actions direct and retag are exactly those of families
    with an unchanged body that contain nothing changed; the identifier tells them apart.
   */
  lemma ActionExact(u: Universe, env: Env, k: Key, al: Obligations.Pairs, rp: Obligations.Pairs, bodyObligations: bool,
                    nested: bool)
    requires SameLayer(u, env)
    requires k in u.canonical.byKey && k in u.target.byKey ==>
               Compared(u, k, al, rp) && (bodyObligations <==> Undecided(u, k, al, rp))
    ensures var action, ours, theirs := DirectBytes.Classify(u, k, bodyObligations, nested),
                                        k in u.canonical.byKey, k in u.target.byKey;
            && (action in {DirectBytes.Direct, DirectBytes.Retag, DirectBytes.Rewrite} <==> Routed(env, k))
            && (action == DirectBytes.Policy <==> ours && theirs && !Routed(env, k))
            && (action == DirectBytes.Unavailable <==> ours && !theirs)
            && (action == DirectBytes.ProfileOnly <==> !ours && theirs)
            && (action == DirectBytes.Absent <==> !ours && !theirs)
            && (action in {DirectBytes.Direct, DirectBytes.Retag} <==> Routed(env, k) && !nested && SameBodies(u, k))
            && (action == DirectBytes.Direct ==> u.canonical.byKey[k].wireID == u.target.byKey[k].wireID)
            && (action == DirectBytes.Retag ==> u.canonical.byKey[k].wireID != u.target.byKey[k].wireID)
            && (ResultChanged(u, k) <==>
                  ours && theirs && Obligations.ResultDiffers(u.canonical.byKey[k], u.target.byKey[k]))
  {
    if k in u.canonical.byKey && k in u.target.byKey {
      Obligations.BodySilentIffSameFields(u.canonical.byKey[k], u.target.byKey[k], al, rp);
    }
  }

  predicate SameBodies(u: Universe, k: Key)
  {
    k in u.canonical.byKey && k in u.target.byKey && SameBody(u.canonical.byKey[k], u.target.byKey[k])
  }

  /** With no family changed nothing is rewritten. */
  lemma UnchangedIsDirect(u: Universe, states: map<Key, Dirty>, f: Key)
    requires ValidUniverse(u) && Analysis(u, states) && f in u.canonical.byKey && f in u.target.byKey
    requires forall k :: !BodyChanged(u, k)
    ensures DirectBytes.Classify(u, f, false, states[f].nested) == DirectBytes.Direct
  {
    assert NestedClosed(u, {});
    assert f !in NestedKeys(states);
  }

  /** Every family of a layer equal to the canonical schema is direct. */
  lemma UnchangedLayerIsDirect(u: Universe, states: map<Key, Dirty>, f: Key)
    requires ValidUniverse(u) && u.canonical == u.target && Analysis(u, states) && f in u.canonical.byKey
    ensures DirectBytes.Classify(u, f, false, states[f].nested) == DirectBytes.Direct
  {
    UnchangedIsDirect(u, states, f);
  }

  // ---------------------------------------------------------------- a value with a stray bit

  const EMPTY := Key(CategoryType, "empty")
  const NO_TYPE := TypeRef(TypeNamed, "Empty", false, false, None)
  const EMPTY_SCHEMA := SchemaModel(map[EMPTY := Definition(EMPTY, 1, [],
                                                            [FieldShape(FieldFlagsWord, "flags", 0, NO_TYPE, None)],
                                                            NO_TYPE, false)])
  const EMPTY_UNIVERSE := Universe({EMPTY}, EMPTY_SCHEMA, EMPTY_SCHEMA)
  const EMPTY_ENV := Env(EMPTY_SCHEMA, EMPTY_SCHEMA, {EMPTY}, map[EMPTY := [Flags(seq(32, _ => false))]])
  const STRAY := Obj(EMPTY, [Flags(seq(32, b => b == 7))], false)

  /** Bit 7 of a word without conditional fields is kept by the direct method and cleared by the layered one. */
  lemma StrayBitDiffers(states: map<Key, Dirty>)
    requires Analysis(EMPTY_UNIVERSE, states)
    ensures SameLayer(EMPTY_UNIVERSE, EMPTY_ENV) && WithinObj(EMPTY_ENV, STRAY, 0)
    ensures DirectBytes.Classify(EMPTY_UNIVERSE, EMPTY, false, states[EMPTY].nested) == DirectBytes.Direct
    ensures EncBare(EMPTY_ENV, STRAY, 0).Wrote?
    ensures DirectBytes.WireBare(EMPTY_SCHEMA, STRAY) != Some(EncBare(EMPTY_ENV, STRAY, 0).bytes)
  {
    EmptyLayer();
    UnchangedLayerIsDirect(EMPTY_UNIVERSE, states, EMPTY);
    var c := EMPTY_SCHEMA.byKey[EMPTY];
    assert !Owned(c, c.fields[0].name, 7);
    assert !TidySlot(EMPTY_SCHEMA, STRAY, 0);
    DirectShortcutExact(EMPTY_UNIVERSE, EMPTY_ENV, states, EMPTY, false, STRAY, 0);
  }

  lemma EmptyLayer()
    ensures SameLayer(EMPTY_UNIVERSE, EMPTY_ENV) && WithinObj(EMPTY_ENV, STRAY, 0)
  {
    var c := EMPTY_SCHEMA.byKey[EMPTY];
    TwinsCompare(c, c);
    assert Aligned(c, STRAY.slots) && Aligned(c, EMPTY_ENV.zero[EMPTY]);
  }
  // ---------------------------------------------------------------- a constructor in another class

  const LEAF := Key(CategoryType, "leaf")
  const BUD := Key(CategoryType, "bud")
  const BRANCH := Key(CategoryType, "branch")
  const LEAVES := TypeRef(TypeNamed, "Leaf", false, false, None)
  const OTHERS := TypeRef(TypeNamed, "Other", false, false, None)
  const BRANCHES := TypeRef(TypeNamed, "Branch", false, false, None)
  const LEAF_TYPE := Definition(LEAF, 1, [], [], LEAVES, false)
  const BUD_TYPE := Definition(BUD, 2, [], [], LEAVES, false)
  const BRANCH_TYPE := Definition(BRANCH, 3, [], [FieldShape(FieldValue, "tip", 0, LEAVES, None)], BRANCHES, false)

  const PLANT := SchemaModel(map[LEAF := LEAF_TYPE, BUD := BUD_TYPE, BRANCH := BRANCH_TYPE])
  const GRAFT := SchemaModel(map[LEAF := LEAF_TYPE.(result := OTHERS), BUD := BUD_TYPE, BRANCH := BRANCH_TYPE])
  const PLANT_UNIVERSE := Universe({LEAF, BUD, BRANCH}, PLANT, GRAFT)
  const PLANT_ENV := Env(PLANT, GRAFT, {LEAF, BUD, BRANCH}, map[LEAF := [], BUD := [], BRANCH := [Val(Nil)]])
  const TIP := Obj(LEAF, [], true)
  const TWIG := Obj(BRANCH, [Val(TIP)], false)

  /**
    One of the two constructors of a class belongs to another class in the layer. The struct that
    holds it is still direct, but only its canonical method writes it.
   */
  lemma MovedClassDiffers(states: map<Key, Dirty>)
    requires Analysis(PLANT_UNIVERSE, states)
    ensures SameLayer(PLANT_UNIVERSE, PLANT_ENV) && WithinObj(PLANT_ENV, TWIG, 0)
    ensures DirectBytes.Classify(PLANT_UNIVERSE, BRANCH, false, states[BRANCH].nested) == DirectBytes.Direct
    ensures DirectBytes.WireBare(PLANT, TWIG).Some? && EncBare(PLANT_ENV, TWIG, 0).Failed?
  {
    PlantLayer();
    TwigWithin();
    UnchangedIsDirect(PLANT_UNIVERSE, states, BRANCH);
    TwigIsNotPlaced();
    DirectShortcutExact(PLANT_UNIVERSE, PLANT_ENV, states, BRANCH, false, TWIG, 0);
  }

  /** Two schemas that differ only in the classes of constructors make a valid layer without changed bodies. */
  lemma ReclassedLayer(u: Universe, env: Env)
    requires ValidSchema(u.canonical) && Reclassed(u)
    requires env == Env(u.canonical, u.target, u.families, env.zero)
    requires forall k :: k in u.families ==>
               && k in env.zero && Aligned(u.canonical.byKey[k], env.zero[k])
               && forall i :: 0 <= i < |env.zero[k]| ==> SlotIsZero(env.zero[k][i])
    ensures SameLayer(u, env) && forall k :: !BodyChanged(u, k)
  {
    ReclassedUniverse(u);
    forall k | k in u.families ensures Obligations.SameFields(u.canonical.byKey[k], u.target.byKey[k]) {
      TwinsCompare(u.canonical.byKey[k], u.target.byKey[k]);
    }
  }

  ghost predicate Reclassed(u: Universe)
  {
    && u.families == u.canonical.byKey.Keys == u.target.byKey.Keys
    && forall k :: k in u.families ==> u.target.byKey[k] == u.canonical.byKey[k].(result := u.target.byKey[k].result)
  }

  lemma ReclassedUniverse(u: Universe)
    requires ValidSchema(u.canonical) && Reclassed(u)
    ensures ValidUniverse(u) && forall k :: !BodyChanged(u, k)
    ensures forall k :: k in u.families ==> Twins(u.canonical.byKey[k], u.target.byKey[k])
  {
    forall k | k in u.families ensures Twins(u.canonical.byKey[k], u.target.byKey[k]) {
      ReclassedTwins(u.canonical.byKey[k], u.target.byKey[k].result);
    }
  }

  lemma ReclassedTwins(c: Definition, class_: TypeRef)
    requires ValidDefinition(c)
    ensures Twins(c, c.(result := class_))
  {
    var p := c.(result := class_);
    forall i | 0 <= i < |p.fields| && p.fields[i].cond.Some? ensures ValidCondition(p, i) {
      assert ValidCondition(c, i);
    }
  }

  lemma PlantLayer()
    ensures SameLayer(PLANT_UNIVERSE, PLANT_ENV) && forall k :: !BodyChanged(PLANT_UNIVERSE, k)
  {
    assert Aligned(BRANCH_TYPE, [Val(Nil)]);
    LeafMoves(LEAF_TYPE, BUD_TYPE, BRANCH_TYPE, OTHERS);
  }

  lemma LeafMoves(leaf: Definition, bud: Definition, branch: Definition, class_: TypeRef)
    requires leaf.key == LEAF && bud.key == BUD && branch.key == BRANCH
    requires ValidDefinition(leaf) && ValidDefinition(bud) && ValidDefinition(branch)
    requires leaf.wireID != bud.wireID && leaf.wireID != branch.wireID && bud.wireID != branch.wireID
    requires leaf.fields == [] && bud.fields == [] && Aligned(branch, [Val(Nil)])
    ensures var s := SchemaModel(map[LEAF := leaf, BUD := bud, BRANCH := branch]);
            var s' := SchemaModel(map[LEAF := leaf.(result := class_), BUD := bud, BRANCH := branch]);
            var u := Universe({LEAF, BUD, BRANCH}, s, s');
            && SameLayer(u, Env(s, s', {LEAF, BUD, BRANCH}, map[LEAF := [], BUD := [], BRANCH := [Val(Nil)]]))
            && forall k :: !BodyChanged(u, k)
  {
    var s := SchemaModel(map[LEAF := leaf, BUD := bud, BRANCH := branch]);
    var s' := SchemaModel(map[LEAF := leaf.(result := class_), BUD := bud, BRANCH := branch]);
    ReclassedLayer(Universe({LEAF, BUD, BRANCH}, s, s'),
                   Env(s, s', {LEAF, BUD, BRANCH}, map[LEAF := [], BUD := [], BRANCH := [Val(Nil)]]));
  }

  lemma TwigWithin()
    ensures WithinObj(PLANT_ENV, TWIG, 0)
  {
    assert Constructors(PLANT, "Leaf") == {LEAF, BUD};
    assert WithinObj(PLANT_ENV, TIP, 1);
    assert Within(PLANT_ENV, LEAVES, TIP, 1);
  }

  lemma TwigIsNotPlaced()
    ensures !PlacedObj(PLANT_ENV, TWIG)
  {
    assert DirectBytes.Written(BRANCH_TYPE, TWIG.slots, 0);
    assert !Placed(PLANT_ENV, LEAVES, TIP);
  }
}

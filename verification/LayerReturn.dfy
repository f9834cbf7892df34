/**
  The way back: what a layer's decoder returns, whatever bytes it was given, can be written again and
  then comes back as it was, unless it holds an empty vector of class values in an optional field.
  Such a vector is decoded to a nil slice under a set bit, which the encoder refuses.
 */
module LayerReturn {
  import opened Bin
  import opened Schema
  import opened Values
  import opened LayerCodec
  import opened LayerRoundTrip
  import opened LayerRewrite
  import opened LayerNormal
  import opened LayerFates
  import DirectBytes

  // ---------------------------------------------------------------- what a decoder can return

  /** A value as decoders build it: of its type, within the encoder's limits, nil where it is empty. */
  ghost predicate Sound(env: Env, t: TypeRef, v: Value, depth: nat)
    decreases v, 1
  {
    match t.kind
    case TypePrimitive =>
      if IsObjectType(t) then v.Obj? && v.iface && SoundObj(env, v, depth)
      else Encodes(KindOf(t.qname), v) && v != Prim(PBytes([]))
    case TypeGenericRef => false
    case TypeVector =>
      && t.arg.Some?
      && (v.Nil? || (v.Vec? && 0 < |v.items| <= MAX_VECTOR &&
                     forall i :: 0 <= i < |v.items| ==> Sound(env, t.arg.value, v.items[i], depth)))
    case TypeNamed =>
      && v.Obj? && SoundObj(env, v, depth)
      && if BareNamed(t) then !v.iface && v.key == Key(CategoryType, t.qname)
         else v.key in ClassGroup(env, t.qname) && (v.iface <==> !Singular(env, t.qname))
  }

  /** A struct of a family of the layer: fields of set groups are sound, those of other groups as in the zero struct. */
  ghost predicate SoundObj(env: Env, v: Value, depth: nat)
    requires v.Obj?
    decreases v, 0
  {
    && depth < MAX_DEPTH && Encodable(env, v)
    && forall j :: 0 <= j < |v.slots| ==>
         if v.slots[j].Val? && Filled(env.canonical.byKey[v.key], v.slots, j)
         then Sound(env, env.canonical.byKey[v.key].fields[j].ty, v.slots[j].v, depth + 1)
         else SoundSlot(env.canonical.byKey[v.key], v.slots, env.zero[v.key][j], j)
  }

  /** The field was read: it is unconditional, or its bit is set and promises a body. */
  ghost predicate Filled(c: Definition, slots: seq<Slot>, j: nat)
    requires Aligned(c, slots) && j < |slots|
  {
    match c.fields[j].cond
    case None => true
    case Some(cond) => !cond.presenceOnly && HasBit(c, slots, cond.word, cond.bit)
  }

  /** A flags word without stray bits, a true that is present, or a field that is absent. */
  ghost predicate SoundSlot(c: Definition, slots: seq<Slot>, zero: Slot, j: nat)
    requires Aligned(c, slots) && j < |slots|
  {
    match slots[j]
    case Flags(bits) => forall b :: 0 <= b < 32 && bits[b] ==> Owned(c, c.fields[j].name, b)
    case Val(x) =>
      && c.fields[j].cond.Some?
      && if HasBit(c, slots, c.fields[j].cond.value.word, c.fields[j].cond.value.bit)
         then c.fields[j].cond.value.presenceOnly && x == Prim(PBool(true))
         else slots[j] == zero
  }

  // ---------------------------------------------------------------- sound values are exact

  lemma {:induction false} SoundObjIsExact(env: Env, v: Value, depth: nat)
    requires v.Obj? && SoundObj(env, v, depth)
    ensures Shaped(env.canonical, env.zero, v) && ExactSlots(env.canonical, env.zero, v)
    decreases v, 0
  {
    var c := env.canonical.byKey[v.key];
    forall j | 0 <= j < |v.slots| ensures ExactSlot(env.canonical, env.zero, v, j) {
      if v.slots[j].Val? && Filled(c, v.slots, j) {
        SoundIsExact(env, c.fields[j].ty, v.slots[j].v, depth + 1);
      } else {
        assert SoundSlot(c, v.slots, env.zero[v.key][j], j);
      }
    }
  }

  /** What a decoder returns is its own normal form. */
  lemma {:induction false} SoundIsExact(env: Env, t: TypeRef, v: Value, depth: nat)
    requires Sound(env, t, v, depth)
    ensures Exact(env.canonical, env.zero, t, v)
    decreases v, 1
  {
    if t.kind.TypeVector? {
      if v.Vec? {
        forall i | 0 <= i < |v.items| ensures Exact(env.canonical, env.zero, t.arg.value, v.items[i]) {
          SoundIsExact(env, t.arg.value, v.items[i], depth);
        }
      }
    } else if !PlainPrimitive(t) {
      SoundObjIsExact(env, v, depth);
    }
  }

  // ---------------------------------------------------------------- when it can be written again

  /** Some object in the value has a set bit over a nil interface field. */
  ghost predicate Broken(env: Env, t: TypeRef, v: Value)
    decreases v, 3
  {
    match t.kind
    case TypePrimitive => IsObjectType(t) && v.Obj? && BrokenObj(env, v)
    case TypeVector => v.Vec? && t.arg.Some? && exists i :: 0 <= i < |v.items| && Broken(env, t.arg.value, v.items[i])
    case _ => v.Obj? && BrokenObj(env, v)
  }

  ghost predicate BrokenObj(env: Env, v: Value)
    requires v.Obj?
    decreases v, 2
  {
    && Encodable(env, v)
    && (BrokenPromise(env, env.canonical.byKey[v.key], v.slots) || BrokenInside(env, v))
  }

  ghost predicate BrokenInside(env: Env, v: Value)
    requires v.Obj? && Encodable(env, v)
    decreases v, 1
  {
    exists j :: 0 <= j < |v.slots| && FieldsBroken(env, v)[j]
  }

  ghost function FieldsBroken(env: Env, v: Value): (r: seq<bool>)
    requires v.Obj? && Encodable(env, v)
    ensures |r| == |v.slots| && forall j :: 0 <= j < |r| ==> r[j] == BrokenField(env, v, j)
    decreases v, 0, 1
  {
    seq(|v.slots|, j requires 0 <= j < |v.slots| => BrokenField(env, v, j))
  }

  ghost predicate BrokenField(env: Env, v: Value, j: nat)
    requires v.Obj? && Encodable(env, v) && j < |v.slots|
    decreases v, 0, 0
  {
    v.slots[j].Val? && Filled(env.canonical.byKey[v.key], v.slots, j) &&
    Broken(env, env.canonical.byKey[v.key].fields[j].ty, v.slots[j].v)
  }

  /** The group of a sound struct is raised exactly when its bit is set. */
  lemma RaisedIsSet(env: Env, v: Value, depth: nat, word: string, bit: nat)
    requires Facts(env) && v.Obj? && SoundObj(env, v, depth)
    ensures Raised(env.canonical.byKey[v.key], v.slots, word, bit) <==>
            HasBit(env.canonical.byKey[v.key], v.slots, word, bit)
  {
    var c := env.canonical.byKey[v.key];
    assert FamilyFacts(env, v.key);
    if DirectBytes.SetByField(c, v.slots, word, bit) {
      var j :| 0 <= j < |v.slots| && v.slots[j].Val? && OnSlot(c.fields[j], word, bit) && !IsZero(v.slots[j].v);
      assert SlotIsZero(env.zero[v.key][j]);
      assert Filled(c, v.slots, j) || SoundSlot(c, v.slots, env.zero[v.key][j], j);
    }
  }

  /** The fates of the fields of a sound struct: those that are there are written or broken. */
  ghost predicate FatesTold(env: Env, v: Value, fates: seq<Fate>)
    requires v.Obj? && Encodable(env, v) && |fates| == |v.slots|
  {
    forall j :: 0 <= j < |v.slots| && v.slots[j].Val? && Filled(env.canonical.byKey[v.key], v.slots, j) ==>
      fates[j] == if Broken(env, env.canonical.byKey[v.key].fields[j].ty, v.slots[j].v) then Refused else Written
  }

  lemma SetGroupStays(env: Env, v: Value, depth: nat, fates: seq<Fate>, j: nat)
    requires Facts(env) && v.Obj? && SoundObj(env, v, depth) && |fates| == |v.slots| && FatesTold(env, v, fates)
    requires j < |v.slots| && v.slots[j].Val? && env.canonical.byKey[v.key].fields[j].cond.Some?
    ensures var c := env.canonical.byKey[v.key];
            var cond := c.fields[j].cond.value;
            && (Stays(c, v.slots, fates, j) <==> HasBit(c, v.slots, cond.word, cond.bit))
            && (GroupStays(c, v.slots, fates, cond.word, cond.bit) <==> HasBit(c, v.slots, cond.word, cond.bit))
  {
    var c := env.canonical.byKey[v.key];
    var cond := c.fields[j].cond.value;
    RaisedIsSet(env, v, depth, cond.word, cond.bit);
    StaysIfSet(env, v, depth, fates, j);
    if GroupStays(c, v.slots, fates, cond.word, cond.bit) {
      var k :| 0 <= k < |v.slots| && ValueOnSlot(c.fields[k], cond.word, cond.bit) && Stays(c, v.slots, fates, k);
      StaysIfSet(env, v, depth, fates, k);
    }
    if HasBit(c, v.slots, cond.word, cond.bit) {
      assert ValueOnSlot(c.fields[j], cond.word, cond.bit) && Stays(c, v.slots, fates, j);
    }
  }

  lemma StaysIfSet(env: Env, v: Value, depth: nat, fates: seq<Fate>, j: nat)
    requires Facts(env) && v.Obj? && SoundObj(env, v, depth) && |fates| == |v.slots| && FatesTold(env, v, fates)
    requires j < |v.slots| && v.slots[j].Val? && env.canonical.byKey[v.key].fields[j].cond.Some?
    ensures var c := env.canonical.byKey[v.key];
            var cond := c.fields[j].cond.value;
            Stays(c, v.slots, fates, j) <==> HasBit(c, v.slots, cond.word, cond.bit)
  {
    var c := env.canonical.byKey[v.key];
    var cond := c.fields[j].cond.value;
    RaisedIsSet(env, v, depth, cond.word, cond.bit);
    if !HasBit(c, v.slots, cond.word, cond.bit) {
      assert SoundSlot(c, v.slots, env.zero[v.key][j], j);
      assert FamilyFacts(env, v.key);
      assert SlotIsZero(env.zero[v.key][j]);
    }
  }

  lemma BodiesAreFilled(env: Env, v: Value, depth: nat, fates: seq<Fate>, j: nat)
    requires Facts(env) && v.Obj? && SoundObj(env, v, depth) && |fates| == |v.slots| && FatesTold(env, v, fates)
    requires j < |v.slots|
    ensures var c := env.canonical.byKey[v.key];
            HasBody(c, v.slots, fates, j) <==> v.slots[j].Val? && Filled(c, v.slots, j)
  {
    var c := env.canonical.byKey[v.key];
    if v.slots[j].Val? && c.fields[j].cond.Some? { SetGroupStays(env, v, depth, fates, j); }
  }

  /** A body that is broken refuses the struct; without one every body is written. */
  lemma {:induction false} BodiesTold(env: Env, v: Value, depth: nat, fates: seq<Fate>, i: nat)
    requires Facts(env) && v.Obj? && SoundObj(env, v, depth) && |fates| == |v.slots| && FatesTold(env, v, fates)
    requires i <= |env.profile.byKey[v.key].fields|
    ensures var c, p := env.canonical.byKey[v.key], env.profile.byKey[v.key];
            BodyFate(c, p, v.slots, fates, i) ==
            if SomeBody(c, p, v.slots, fates, i) then Refused else Written
    decreases |env.profile.byKey[v.key].fields| - i
  {
    var c, p := env.canonical.byKey[v.key], env.profile.byKey[v.key];
    if i < |p.fields| {
      BodiesTold(env, v, depth, fates, i + 1);
      BodyFirst(c, p, v.slots, fates, i);
      if At(c, p, i) < |v.slots| { BodiesAreFilled(env, v, depth, fates, At(c, p, i)); }
    }
  }

  lemma BodyFirst(c: Definition, p: Definition, slots: seq<Slot>, fates: seq<Fate>, i: nat)
    requires Aligned(c, slots) && |fates| == |slots| && i < |p.fields|
    ensures SomeBody(c, p, slots, fates, i) <==>
            BrokenBody(c, p, slots, fates, i, i) || SomeBody(c, p, slots, fates, i + 1)
  {
    if SomeBody(c, p, slots, fates, i) {
      var k :| BrokenBody(c, p, slots, fates, i, k);
      assert k == i || BrokenBody(c, p, slots, fates, i + 1, k);
    }
    if SomeBody(c, p, slots, fates, i + 1) {
      var k :| BrokenBody(c, p, slots, fates, i + 1, k);
      assert BrokenBody(c, p, slots, fates, i, k);
    }
  }

  ghost predicate SomeBody(c: Definition, p: Definition, slots: seq<Slot>, fates: seq<Fate>, i: nat)
    requires Aligned(c, slots) && |fates| == |slots|
  {
    exists k :: BrokenBody(c, p, slots, fates, i, k)
  }

  ghost predicate BrokenBody(c: Definition, p: Definition, slots: seq<Slot>, fates: seq<Fate>, i: nat, k: int)
    requires Aligned(c, slots) && |fates| == |slots|
  {
    && i <= k < |p.fields| && p.fields[k].kind.FieldValue? && At(c, p, k) < |slots|
    && HasBody(c, slots, fates, At(c, p, k)) && fates[At(c, p, k)] == Refused
  }

  lemma {:induction false} FieldsTold(env: Env, v: Value, depth: nat)
    requires Facts(env) && v.Obj? && SoundObj(env, v, depth)
    ensures FatesTold(env, v, FieldFates(env, v, depth + 1))
    decreases v, 0
  {
    var c, fates := env.canonical.byKey[v.key], FieldFates(env, v, depth + 1);
    forall j | 0 <= j < |v.slots| && v.slots[j].Val? && Filled(c, v.slots, j)
      ensures fates[j] == if Broken(env, c.fields[j].ty, v.slots[j].v) then Refused else Written
    {
      FateOfSound(env, c.fields[j].ty, v.slots[j].v, depth + 1);
    }
  }

  lemma {:induction false} StructOfSound(env: Env, v: Value, depth: nat)
    requires Facts(env) && v.Obj? && SoundObj(env, v, depth)
    ensures StructFate(env, v, depth) == if BrokenObj(env, v) then Refused else Written
    decreases v, 1
  {
    var c, p, fates := env.canonical.byKey[v.key], env.profile.byKey[v.key], FieldFates(env, v, depth + 1);
    FieldsTold(env, v, depth);
    NothingTorn(env, v, depth, fates);
    BodiesTold(env, v, depth, fates, 0);
    BrokenIsBody(env, v, depth, fates);
    RefusedIsBroken(env, v, depth, fates);
  }

  lemma NothingTorn(env: Env, v: Value, depth: nat, fates: seq<Fate>)
    requires Facts(env) && v.Obj? && SoundObj(env, v, depth) && |fates| == |v.slots| && FatesTold(env, v, fates)
    ensures !Torn(env.canonical.byKey[v.key], v.slots, fates)
  {
    var c := env.canonical.byKey[v.key];
    forall j | 0 <= j < |v.slots| && Separable(c.fields[j])
      ensures GroupStays(c, v.slots, fates, c.fields[j].cond.value.word, c.fields[j].cond.value.bit) ==>
                Stays(c, v.slots, fates, j)
    {
      SetGroupStays(env, v, depth, fates, j);
    }
  }

  lemma BrokenAt(env: Env, v: Value, depth: nat, fates: seq<Fate>, k: nat)
    requires Facts(env) && v.Obj? && SoundObj(env, v, depth) && |fates| == |v.slots| && FatesTold(env, v, fates)
    requires k < |env.profile.byKey[v.key].fields| && env.profile.byKey[v.key].fields[k].kind.FieldValue?
    ensures var c, p := env.canonical.byKey[v.key], env.profile.byKey[v.key];
            At(c, p, k) < |v.slots| && (BrokenBody(c, p, v.slots, fates, 0, k) <==> FieldsBroken(env, v)[At(c, p, k)])
  {
    var c, p := env.canonical.byKey[v.key], env.profile.byKey[v.key];
    assert FamilyFacts(env, v.key);
    Partner(c, p, k);
    BodiesAreFilled(env, v, depth, fates, At(c, p, k));
  }

  /** A broken field is a broken body of the layer. */
  lemma BrokenIsBody(env: Env, v: Value, depth: nat, fates: seq<Fate>)
    requires Facts(env) && v.Obj? && SoundObj(env, v, depth) && |fates| == |v.slots| && FatesTold(env, v, fates)
    ensures var c, p := env.canonical.byKey[v.key], env.profile.byKey[v.key];
            BrokenInside(env, v) <==> SomeBody(c, p, v.slots, fates, 0)
  {
    var c, p := env.canonical.byKey[v.key], env.profile.byKey[v.key];
    if BrokenInside(env, v) {
      var j :| 0 <= j < |v.slots| && FieldsBroken(env, v)[j];
      assert FamilyFacts(env, v.key);
      PartnerBack(c, p, j);
      BrokenAt(env, v, depth, fates, IndexOf(p.fields, c.fields[j].name));
    }
    if SomeBody(c, p, v.slots, fates, 0) {
      var k :| BrokenBody(c, p, v.slots, fates, 0, k);
      BrokenAt(env, v, depth, fates, k);
    }
  }

  /** A refused part is a broken field. */
  lemma RefusedIsBroken(env: Env, v: Value, depth: nat, fates: seq<Fate>)
    requires Facts(env) && v.Obj? && SoundObj(env, v, depth) && |fates| == |v.slots| && FatesTold(env, v, fates)
    ensures PartRefused(env.canonical.byKey[v.key], v.slots, fates) ==> BrokenInside(env, v)
  {
    var c := env.canonical.byKey[v.key];
    if PartRefused(c, v.slots, fates) {
      var j :| 0 <= j < |v.slots| && Separable(c.fields[j]) && fates[j] == Refused &&
        Raised(c, v.slots, c.fields[j].cond.value.word, c.fields[j].cond.value.bit);
      RaisedIsSet(env, v, depth, c.fields[j].cond.value.word, c.fields[j].cond.value.bit);
      assert FieldsBroken(env, v)[j];
    }
  }

  /** What a decoder returned is written again unless it is broken; it is never left out. */
  lemma {:induction false} FateOfSound(env: Env, t: TypeRef, v: Value, depth: nat)
    requires Facts(env) && Sound(env, t, v, depth)
    ensures FateOf(env, t, v, depth) == if Broken(env, t, v) then Refused else Written
    decreases v, 2
  {
    if t.kind.TypeVector? {
      if v.Vec? {
        forall i | 0 <= i < |v.items|
          ensures FateOf(env, t.arg.value, v.items[i], depth) ==
                  if Broken(env, t.arg.value, v.items[i]) then Refused else Written
        {
          FateOfSound(env, t.arg.value, v.items[i], depth);
        }
      }
    } else if !PlainPrimitive(t) {
      StructOfSound(env, v, depth);
    }
  }
  // ---------------------------------------------------------------- reading fields

  /** The flags word of this name was read with this bit set. */
  ghost predicate WordIn(p: Definition, parts: seq<Part>, word: string, bit: nat)
  {
    exists w :: 0 <= w < |parts| && w < |p.fields| && BitAt(p, parts, w, word, bit)
  }

  ghost predicate BitAt(p: Definition, parts: seq<Part>, w: nat, word: string, bit: nat)
    requires w < |parts| && w < |p.fields|
  {
    p.fields[w].kind.FieldFlagsWord? && p.fields[w].name == word && parts[w].Word? && bit < 32 && parts[w].bits[bit]
  }

  /** Part `i` is what its flags and its type say. */
  ghost predicate PartSound(env: Env, p: Definition, parts: seq<Part>, i: nat, depth: nat)
    requires i < |parts| && i < |p.fields|
  {
    var f := p.fields[i];
    if f.kind.FieldFlagsWord? then parts[i].Word?
    else if f.cond.Some? && !WordIn(p, parts, f.cond.value.word, f.cond.value.bit) then parts[i] == Missing
    else if f.cond.Some? && f.cond.value.presenceOnly then parts[i] == Here(Prim(PBool(true)))
    else parts[i].Here? && Sound(env, f.ty, parts[i].v, depth)
  }

  ghost predicate PartsSound(env: Env, p: Definition, parts: seq<Part>, depth: nat)
    requires |parts| <= |p.fields|
  {
    forall i :: 0 <= i < |parts| ==> PartSound(env, p, parts, i, depth)
  }

  /** The map holds the flags words read so far. */
  ghost predicate WordsOf(p: Definition, parts: seq<Part>, words: map<string, Fields>)
    requires |parts| <= |p.fields|
  {
    forall word, bit: nat :: WordIn(p, parts, word, bit) <==> word in words && bit < 32 && words[word][bit]
  }

  /** A further part does not change the flags of earlier fields. */
  lemma EarlierStay(env: Env, p: Definition, parts: seq<Part>, x: Part, i: nat, depth: nat)
    requires ValidDefinition(p) && |parts| < |p.fields| && i < |parts| && PartSound(env, p, parts, i, depth)
    ensures PartSound(env, p, parts + [x], i, depth)
  {
    if p.fields[i].cond.Some? {
      var word, bit := p.fields[i].cond.value.word, p.fields[i].cond.value.bit;
      assert ValidCondition(p, i);
      LaterWords(p, parts, x, i, word, bit);
    }
  }

  lemma LaterWords(p: Definition, parts: seq<Part>, x: Part, i: nat, word: string, bit: nat)
    requires ValidDefinition(p) && |parts| < |p.fields| && i <= |parts|
    requires exists w :: 0 <= w < i && p.fields[w].kind.FieldFlagsWord? && p.fields[w].name == word
    ensures WordIn(p, parts, word, bit) <==> WordIn(p, parts + [x], word, bit)
  {
    var more := parts + [x];
    forall w | 0 <= w < |more| ensures BitAt(p, more, w, word, bit) ==> w < |parts| && BitAt(p, parts, w, word, bit) {
    }
    if w :| 0 <= w < |parts| && w < |p.fields| && BitAt(p, parts, w, word, bit) {
      assert BitAt(p, more, w, word, bit);
    }
  }

  lemma MoreParts(env: Env, p: Definition, parts: seq<Part>, x: Part, depth: nat)
    requires ValidDefinition(p) && |parts| < |p.fields| && PartsSound(env, p, parts, depth)
    requires PartSound(env, p, parts + [x], |parts|, depth)
    ensures PartsSound(env, p, parts + [x], depth)
  {
    forall i | 0 <= i < |parts| + 1 ensures PartSound(env, p, parts + [x], i, depth) {
      if i < |parts| { EarlierStay(env, p, parts, x, i, depth); }
    }
  }

  lemma MoreWords(p: Definition, parts: seq<Part>, x: Part, words: map<string, Fields>)
    requires ValidDefinition(p) && |parts| < |p.fields| && WordsOf(p, parts, words)
    ensures p.fields[|parts|].kind.FieldFlagsWord? && x.Word? ==>
              WordsOf(p, parts + [x], words[p.fields[|parts|].name := x.bits])
    ensures !x.Word? ==> WordsOf(p, parts + [x], words)
  {
    var more, n := parts + [x], |parts|;
    forall word, bit: nat
      ensures WordIn(p, more, word, bit) <==> WordIn(p, parts, word, bit) || BitAt(p, more, n, word, bit)
    {
      if w :| 0 <= w < |parts| && w < |p.fields| && BitAt(p, parts, w, word, bit) {
        assert BitAt(p, more, w, word, bit);
      }
      if w :| 0 <= w < |more| && w < |p.fields| && BitAt(p, more, w, word, bit) {
        assert w == n || BitAt(p, parts, w, word, bit);
      }
    }
    forall bit: nat ensures p.fields[n].kind.FieldFlagsWord? ==> !WordIn(p, parts, p.fields[n].name, bit) {
    }
  }

  /** The flags words known after reading part `x` of field `i`. */
  function WordsAfter(p: Definition, i: nat, x: Part, words: map<string, Fields>): map<string, Fields>
    requires i < |p.fields|
  {
    if p.fields[i].kind.FieldFlagsWord? && x.Word? then words[p.fields[i].name := x.bits] else words
  }

  lemma {:induction false} FieldsSound(env: Env, lim: Limits, k: Key, before: seq<Part>, words: map<string, Fields>,
                                       s: seq<Byte>, d: nat, left: nat, depth: nat)
    requires Facts(env) && Routed(env, k) && lim.maxDepth <= 64 && depth <= d
    requires |before| <= |env.profile.byKey[k].fields| && PartsSound(env, env.profile.byKey[k], before, depth)
    requires WordsOf(env.profile.byKey[k], before, words)
    requires DecFields(env, lim, k, |before|, words, s, d, left).Got?
    ensures PartsSound(env, env.profile.byKey[k], before + DecFields(env, lim, k, |before|, words, s, d, left).value,
                       depth)
    decreases Room(lim, d), 3, |env.profile.byKey[k].fields| - |before|
  {
    var p := env.profile.byKey[k];
    var parts := DecFields(env, lim, k, |before|, words, s, d, left).value;
    if |before| == |p.fields| {
      assert before + parts == before;
    } else {
      var s', left' := FieldSound(env, lim, k, before, words, s, d, left, depth);
      FieldsSound(env, lim, k, before + [parts[0]], WordsAfter(p, |before|, parts[0], words), s', d, left', depth);
      FirstMoved(before, parts);
    }
  }

  lemma FirstMoved(before: seq<Part>, parts: seq<Part>)
    requires |parts| > 0
    ensures before + parts == (before + [parts[0]]) + parts[1..]
  {
  }

  /** The first part read is sound, and the others are read from what follows it. */
  lemma {:induction false} FieldSound(env: Env, lim: Limits, k: Key, before: seq<Part>, words: map<string, Fields>,
                                      s: seq<Byte>, d: nat, left: nat, depth: nat)
    returns (s': seq<Byte>, left': nat)
    requires Facts(env) && Routed(env, k) && lim.maxDepth <= 64 && depth <= d
    requires |before| < |env.profile.byKey[k].fields| && PartsSound(env, env.profile.byKey[k], before, depth)
    requires WordsOf(env.profile.byKey[k], before, words)
    requires DecFields(env, lim, k, |before|, words, s, d, left).Got?
    ensures var p := env.profile.byKey[k];
            var parts := DecFields(env, lim, k, |before|, words, s, d, left).value;
            && |parts| == |p.fields| - |before|
            && PartsSound(env, p, before + [parts[0]], depth)
            && WordsOf(p, before + [parts[0]], WordsAfter(p, |before|, parts[0], words))
            && var next := DecFields(env, lim, k, |before| + 1, WordsAfter(p, |before|, parts[0], words), s', d, left');
               next.Got? && next.value == parts[1..]
    decreases Room(lim, d), 3, 0
  {
    var p, i := env.profile.byKey[k], |before|;
    assert FamilyFacts(env, k);
    var x: Part;
    x, s', left' := FirstPart(env, lim, k, i, words, s, d, left);
    PartIsSound(env, lim, k, before, words, s, d, left, depth, x);
    MoreParts(env, p, before, x, depth);
    MoreWords(p, before, x, words);
  }

  lemma FirstPart(env: Env, lim: Limits, k: Key, i: nat, words: map<string, Fields>, s: seq<Byte>, d: nat, left: nat)
    returns (x: Part, s': seq<Byte>, left': nat)
    requires Routed(env, k) && i < |env.profile.byKey[k].fields| && DecFields(env, lim, k, i, words, s, d, left).Got?
    ensures x.Word? <==> env.profile.byKey[k].fields[i].kind.FieldFlagsWord?
    ensures DecFields(env, lim, k, i, words, s, d, left) ==
            Prepend(x, DecFields(env, lim, k, i + 1, WordsAfter(env.profile.byKey[k], i, x, words), s', d, left'))
  {
    var f := env.profile.byKey[k].fields[i];
    x, s', left' := DecFields(env, lim, k, i, words, s, d, left).value[0], s, left;
    if f.kind.FieldFlagsWord? {
      s' := ReadFlags(s).rest;
    } else if x.Here? && !(f.cond.Some? && f.cond.value.presenceOnly) {
      var r := DecValue(env, lim, f.ty, s, d, left);
      s', left' := r.rest, r.left;
    }
  }

  lemma {:induction false} PartIsSound(env: Env, lim: Limits, k: Key, before: seq<Part>, words: map<string, Fields>,
                                       s: seq<Byte>, d: nat, left: nat, depth: nat, x: Part)
    requires Facts(env) && Routed(env, k) && lim.maxDepth <= 64 && depth <= d
    requires |before| < |env.profile.byKey[k].fields| && WordsOf(env.profile.byKey[k], before, words)
    requires var r := DecFields(env, lim, k, |before|, words, s, d, left);
             r.Got? && x == r.value[0]
    ensures PartSound(env, env.profile.byKey[k], before + [x], |before|, depth)
    decreases Room(lim, d), 2, 1
  {
    var p, i := env.profile.byKey[k], |before|;
    var f := p.fields[i];
    assert FamilyFacts(env, k);
    if f.cond.Some? {
      assert ValidCondition(p, i);
      LaterWords(p, before, x, i, f.cond.value.word, f.cond.value.bit);
    }
    if f.kind.FieldValue? && x.Here? && !(f.cond.Some? && f.cond.value.presenceOnly) {
      DecodedIsSound(env, lim, f.ty, s, d, left, depth);
    }
  }

  // ---------------------------------------------------------------- from parts to a struct

  /** A bit of a canonical word is set exactly when the field of that condition was read. */
  lemma BitIsRead(env: Env, k: Key, parts: seq<Part>, depth: nat, i: nat)
    requires Facts(env) && Routed(env, k) && |parts| == |env.profile.byKey[k].fields|
    requires PartsSound(env, env.profile.byKey[k], parts, depth)
    requires i < |parts| && env.profile.byKey[k].fields[i].kind.FieldValue? && env.profile.byKey[k].fields[i].cond.Some?
    ensures var c, p := env.canonical.byKey[k], env.profile.byKey[k];
            && At(c, p, i) < |c.fields| && c.fields[At(c, p, i)].cond.Some?
            && var cond := c.fields[At(c, p, i)].cond.value;
               cond.bit < 32 && (SetBy(c, p, parts, cond.word, cond.bit) <==> parts[i].Here?)
  {
    var c, p := env.canonical.byKey[k], env.profile.byKey[k];
    assert FamilyFacts(env, k);
    Partner(c, p, i);
    assert ValidCondition(c, At(c, p, i));
    var cond := c.fields[At(c, p, i)].cond.value;
    assert PartSound(env, p, parts, i, depth);
    if parts[i].Here? { assert ValueOnSlot(c.fields[At(c, p, i)], cond.word, cond.bit); }
    if SetBy(c, p, parts, cond.word, cond.bit) {
      var i' :| 0 <= i' < |parts| && parts[i'].Here? && At(c, p, i') < |c.fields| &&
        ValueOnSlot(c.fields[At(c, p, i')], cond.word, cond.bit);
      assert PartSound(env, p, parts, i', depth);
      Partner(c, p, i');
      SharingAgrees(c, p, i, i');
    }
  }
  lemma AssignedHasBit(env: Env, k: Key, parts: seq<Part>, word: string, bit: nat)
    requires Facts(env) && Routed(env, k) && |parts| == |env.profile.byKey[k].fields| && bit < 32
    ensures var c, p, slots := env.canonical.byKey[k], env.profile.byKey[k],
                               Assign(env.canonical.byKey[k], env.profile.byKey[k], env.zero[k], parts);
            && Aligned(c, slots)
            && (HasBit(c, slots, word, bit) ==> SetBy(c, p, parts, word, bit))
            && ((exists w :: 0 <= w < |c.fields| && c.fields[w].kind.FieldFlagsWord? && c.fields[w].name == word) ==>
                  (SetBy(c, p, parts, word, bit) ==> HasBit(c, slots, word, bit)))
  {
    var c, p := env.canonical.byKey[k], env.profile.byKey[k];
    var slots := Assign(c, p, env.zero[k], parts);
    assert FamilyFacts(env, k);
    forall j | 0 <= j < |slots| ensures slots[j].Flags? <==> c.fields[j].kind.FieldFlagsWord? {
      assert slots[j] == AssignedSlot(c, p, env.zero[k], parts, j);
    }
    var w := IndexOf(c.fields, word);
    if w < |slots| && slots[w].Flags? {
      assert slots[w] == AssignedSlot(c, p, env.zero[k], parts, w);
      assert SlotIsZero(env.zero[k][w]);
    }
  }

  /** Where a field's group is read, its slot is what was read; elsewhere it is zero. */
  lemma AssignedIsSound(env: Env, k: Key, parts: seq<Part>, j: nat, depth: nat)
    requires Facts(env) && Routed(env, k) && |parts| == |env.profile.byKey[k].fields|
    requires PartsSound(env, env.profile.byKey[k], parts, depth + 1)
    requires j < |env.canonical.byKey[k].fields|
    ensures var c, slots := env.canonical.byKey[k],
                            Assign(env.canonical.byKey[k], env.profile.byKey[k], env.zero[k], parts);
            && Aligned(c, slots)
            && if slots[j].Val? && Filled(c, slots, j) then Sound(env, c.fields[j].ty, slots[j].v, depth + 1)
               else SoundSlot(c, slots, env.zero[k][j], j)
  {
    var c, p := env.canonical.byKey[k], env.profile.byKey[k];
    var slots := Assign(c, p, env.zero[k], parts);
    assert FamilyFacts(env, k);
    AssignedHasBit(env, k, parts, "", 0);
    assert slots[j] == AssignedSlot(c, p, env.zero[k], parts, j);
    if slots[j].Flags? {
      StrayBitsUnset(env, k, parts, j);
    } else {
      PartnerBack(c, p, j);
      var i := IndexOf(p.fields, c.fields[j].name);
      Partner(c, p, i);
      assert PartSound(env, p, parts, i, depth + 1);
      if c.fields[j].cond.Some? {
        BitIsRead(env, k, parts, depth + 1, i);
        var cond := c.fields[j].cond.value;
        assert ValidCondition(c, j);
        AssignedHasBit(env, k, parts, cond.word, cond.bit);
      }
    }
  }

  lemma StrayBitsUnset(env: Env, k: Key, parts: seq<Part>, j: nat)
    requires Facts(env) && Routed(env, k) && |parts| == |env.profile.byKey[k].fields|
    requires j < |env.canonical.byKey[k].fields| && env.canonical.byKey[k].fields[j].kind.FieldFlagsWord?
    ensures var c, p := env.canonical.byKey[k], env.profile.byKey[k];
            var slot := AssignedSlot(c, p, env.zero[k], parts, j);
            slot.Flags? && forall b :: 0 <= b < 32 && slot.bits[b] ==> Owned(c, c.fields[j].name, b)
  {
    var c, p := env.canonical.byKey[k], env.profile.byKey[k];
    assert FamilyFacts(env, k);
    assert SlotIsZero(env.zero[k][j]);
    var slot := AssignedSlot(c, p, env.zero[k], parts, j);
    forall b | 0 <= b < 32 && slot.bits[b] ensures Owned(c, c.fields[j].name, b) {
      assert SetBy(c, p, parts, c.fields[j].name, b);
    }
  }

  // ---------------------------------------------------------------- every decoder returns sound values

  lemma ReadPrimSound(name: string, s: seq<Byte>)
    requires ReadPrim(KindOf(name), s).Ok?
    ensures Encodes(KindOf(name), ReadPrim(KindOf(name), s).value) &&
            ReadPrim(KindOf(name), s).value != Prim(PBytes([]))
  {
    Pow256Values();
    match KindOf(name) {
      case KInt => SignedIn(4, s[..4]);
      case KLong => SignedIn(8, s[..8]);
      case KBytes => ReadLimit(s);
      case KString => ReadLimit(s);
      case _ =>
    }
  }

  lemma SignedIn(n: nat, s: seq<Byte>)
    requires |s| == n
    ensures InRange(n, Signed(n, FromLE(s)))
  {
  }

  lemma ReadLimit(s: seq<Byte>)
    requires ReadBytes(s).Ok?
    ensures |ReadBytes(s).value| <= 0xFF_FFFF
  {
    Pow256Values();
    if s[0] == FIRST_LONG_STRING_BYTE { assert FromLE(s[1..4]) < Pow256(3); }
  }

  lemma {:induction false} BareIsSound(env: Env, lim: Limits, k: Key, iface: bool, s: seq<Byte>, d: nat, left: nat,
                                       depth: nat)
    requires Facts(env) && lim.maxDepth <= 64 && depth <= d && DecBare(env, lim, k, iface, s, d, left).Got?
    ensures var v := DecBare(env, lim, k, iface, s, d, left).value;
            v.Obj? && v.key == k && v.iface == iface && SoundObj(env, v, depth)
    decreases Room(lim, d), 0, 0
  {
    var parts := DecFields(env, lim, k, 0, map[], s, d + 1, left).value;
    FieldsSound(env, lim, k, [], map[], s, d + 1, left, depth + 1);
    assert [] + parts == parts;
    AssignedStruct(env, k, parts, iface, depth);
  }

  lemma AssignedStruct(env: Env, k: Key, parts: seq<Part>, iface: bool, depth: nat)
    requires Facts(env) && Routed(env, k) && |parts| == |env.profile.byKey[k].fields| && depth < MAX_DEPTH
    requires PartsSound(env, env.profile.byKey[k], parts, depth + 1)
    ensures SoundObj(env, Obj(k, Assign(env.canonical.byKey[k], env.profile.byKey[k], env.zero[k], parts), iface),
                     depth)
  {
    var c, slots := env.canonical.byKey[k], Assign(env.canonical.byKey[k], env.profile.byKey[k], env.zero[k], parts);
    AssignedHasBit(env, k, parts, "", 0);
    forall j | 0 <= j < |slots|
      ensures if slots[j].Val? && Filled(c, slots, j) then Sound(env, c.fields[j].ty, slots[j].v, depth + 1)
              else SoundSlot(c, slots, env.zero[k][j], j)
    {
      AssignedIsSound(env, k, parts, j, depth);
    }
  }

  lemma {:induction false} WireIsSound(env: Env, lim: Limits, k: Key, iface: bool, s: seq<Byte>, d: nat, left: nat,
                                       depth: nat)
    requires Facts(env) && lim.maxDepth <= 64 && depth <= d && DecWire(env, lim, k, iface, s, d, left).Got?
    ensures var v := DecWire(env, lim, k, iface, s, d, left).value;
            v.Obj? && v.key == k && v.iface == iface && SoundObj(env, v, depth)
    decreases Room(lim, d), 0, 1
  {
    BareIsSound(env, lim, k, iface, ReadId(env.profile.byKey[k].wireID, s).rest, d, left, depth);
  }

  lemma {:induction false} ClassIsSound(env: Env, lim: Limits, allowed: set<Key>, s: seq<Byte>, d: nat, left: nat,
                                        depth: nat)
    requires Facts(env) && lim.maxDepth <= 64 && depth <= d && DecClass(env, lim, allowed, s, d, left).Got?
    ensures var v := DecClass(env, lim, allowed, s, d, left).value;
            v.Obj? && v.key in allowed && v.iface && SoundObj(env, v, depth)
    decreases Room(lim, d), 1
  {
    WireIsSound(env, lim, WireKey(env.profile, ReadWord(4, s).value).value, true, s, d, left, depth);
  }

  lemma {:induction false} ItemsAreSound(env: Env, lim: Limits, t: TypeRef, n: nat, s: seq<Byte>, d: nat, left: nat,
                                         depth: nat)
    requires Facts(env) && lim.maxDepth <= 64 && depth <= d && DecItems(env, lim, t, n, s, d, left).Got?
    ensures var items := DecItems(env, lim, t, n, s, d, left).value;
            |items| == n && forall i :: 0 <= i < n ==> Sound(env, t, items[i], depth)
    decreases Room(lim, d), 3, n
  {
    if n > 0 {
      DecodedIsSound(env, lim, t, s, d, left, depth);
      var r := DecValue(env, lim, t, s, d, left);
      ItemsAreSound(env, lim, t, n - 1, r.rest, d, r.left, depth);
    }
  }

  /** Whatever the bytes, what a decoder returns is sound, if it may not go deeper than encoders do. */
  lemma {:induction false} DecodedIsSound(env: Env, lim: Limits, t: TypeRef, s: seq<Byte>, d: nat, left: nat,
                                          depth: nat)
    requires Facts(env) && lim.maxDepth <= 64 && depth <= d && DecValue(env, lim, t, s, d, left).Got?
    ensures Sound(env, t, DecValue(env, lim, t, s, d, left).value, depth)
    decreases Room(lim, d), 2, 0
  {
    match t.kind {
      case TypePrimitive =>
        if IsObjectType(t) {
          ClassIsSound(env, lim, env.canonical.byKey.Keys, s, d, left, depth);
        } else {
          ReadPrimSound(t.qname, s);
        }
      case TypeVector =>
        var n, rest := ReadVectorLength(BoxedVector(t), s).value, ReadVectorLength(BoxedVector(t), s).rest;
        ItemsAreSound(env, lim, t.arg.value, n, rest, d + 1, left - n, depth);
      case TypeNamed =>
        if BareNamed(t) {
          BareIsSound(env, lim, Key(CategoryType, t.qname), false, s, d, left, depth);
        } else if Singular(env, t.qname) {
          var k :| k in ClassGroup(env, t.qname) &&
            DecValue(env, lim, t, s, d, left) == DecWire(env, lim, k, false, s, d, left);
          WireIsSound(env, lim, k, false, s, d, left, depth);
        } else {
          ClassIsSound(env, lim, ClassGroup(env, t.qname), s, d, left, depth);
        }
      case TypeGenericRef =>
    }
  }
  // ---------------------------------------------------------------- there and back again

  lemma {:induction false} SoundFieldsWritten(env: Env, v: Value, depth: nat)
    requires Facts(env) && v.Obj? && SoundObj(env, v, depth) && !BrokenObj(env, v)
    ensures FieldsWritten(env, v, depth + 1)
    decreases v, 0
  {
    var c, p, parts := env.canonical.byKey[v.key], env.profile.byKey[v.key], EncParts(env, v, depth + 1);
    assert FamilyFacts(env, v.key);
    forall j | 0 <= j < |v.slots| && v.slots[j].Val? && DirectBytes.Written(c, v.slots, j)
      ensures Filled(c, v.slots, j) && EncValue(env, c.fields[j].ty, v.slots[j].v, depth + 1).Wrote?
      ensures AllWritten(env, c.fields[j].ty, v.slots[j].v, depth + 1)
    {
      if c.fields[j].cond.Some? {
        RaisedIsSet(env, v, depth, c.fields[j].cond.value.word, c.fields[j].cond.value.bit);
      }
      assert !FieldsBroken(env, v)[j];
      SoundIsWritten(env, c.fields[j].ty, v.slots[j].v, depth + 1);
    }
    forall i | 0 <= i < |parts| && p.fields[i].kind.FieldValue? && At(c, p, i) < |v.slots| &&
      DirectBytes.Written(c, v.slots, At(c, p, i))
      ensures parts[i].Wrote?
    {
      Partner(c, p, i);
      assert parts[i] == EncPart(env, v, i, depth + 1);
    }
  }

  /** A sound value that is not broken is written at every depth. */
  lemma {:induction false} SoundIsWritten(env: Env, t: TypeRef, v: Value, depth: nat)
    requires Facts(env) && Sound(env, t, v, depth) && !Broken(env, t, v)
    ensures EncValue(env, t, v, depth).Wrote? && AllWritten(env, t, v, depth)
    decreases v, 1
  {
    FateOfSound(env, t, v, depth);
    FateExact(env, t, v, depth);
    if t.kind.TypeVector? {
      if v.Vec? {
        forall i | 0 <= i < |v.items|
          ensures EncValue(env, t.arg.value, v.items[i], depth).Wrote? &&
                  AllWritten(env, t.arg.value, v.items[i], depth)
        {
          SoundIsWritten(env, t.arg.value, v.items[i], depth);
        }
      }
    } else if !PlainPrimitive(t) {
      SoundFieldsWritten(env, v, depth);
    }
  }

  /**
    Whatever bytes a layer decodes within 64 levels, the value is exact. It can be written again exactly
    when no object in it has a set bit over an empty vector of class values, and then decoding
    what was written gives the value itself and leaves exactly what follows, or meets a limit.
   */
  lemma DecodedReturns(env: Env, lim: Limits, t: TypeRef, s: seq<Byte>, left: nat, lim': Limits, rest: seq<Byte>,
                       left': nat)
    requires ValidEnv(env) && lim.maxDepth <= 64 && DecValue(env, lim, t, s, 0, left).Got?
    ensures var v := DecValue(env, lim, t, s, 0, left).value;
            && Exact(env.canonical, env.zero, t, v)
            && (if Broken(env, t, v) then EncValue(env, t, v, 0).Failed? else EncValue(env, t, v, 0).Wrote?)
            && (!Broken(env, t, v) ==>
                  DecValue(env, lim', t, EncValue(env, t, v, 0).bytes + rest, 0, left') ==
                  Expected(Shallow(env, lim', t, v, 0, 0), Count(env, t, v, 0), v, rest, left'))
  {
    var v := DecValue(env, lim, t, s, 0, left).value;
    ValidEnvFacts(env);
    DecodedIsSound(env, lim, t, s, 0, left, 0);
    SoundIsExact(env, t, v, 0);
    FateOfSound(env, t, v, 0);
    FateExact(env, t, v, 0);
    if !Broken(env, t, v) {
      SoundIsWritten(env, t, v, 0);
      EncodedValueComesBack(env, lim', t, v, rest, left');
      NormIsClear(env, t, v, 0);
      ZerosAreZero(env);
      ClearIffExact(env.canonical, env.zero, t, v);
    }
  }

  // ---------------------------------------------------------------- an empty vector that does not return

  /**
    A family of the layer, unchanged, of a flags word and an optional boxed vector of a class of
    several constructors.
   */
  ghost predicate HasGrove(env: Env, k: Key)
  {
    Routed(env, k) && env.canonical.byKey[k] == env.profile.byKey[k] && GroveType(env, env.canonical.byKey[k])
  }

  ghost predicate GroveType(env: Env, d: Definition)
  {
    && ValidDefinition(d) && |d.fields| == 2 && d.fields[0].kind.FieldFlagsWord? && d.fields[1].kind.FieldValue?
    && d.fields[1].cond.Some? && d.fields[1].cond.value.word == d.fields[0].name && !d.fields[1].cond.value.presenceOnly
    && BoxedVector(d.fields[1].ty) && d.fields[1].ty.arg.Some? && ClassOfMany(env, d.fields[1].ty.arg.value)
  }

  function OneBit(bit: nat): Fields
  {
    seq(32, b => b == bit)
  }

  /** A struct whose one bit is set over a nil slice. */
  function BareGrove(k: Key, bit: nat): Value
  {
    Obj(k, [Flags(OneBit(bit)), Val(Nil)], false)
  }

  /**
    The bytes of such a struct with its bit and an empty vector are decoded, but what they decode to is refused:
    decoding and encoding are not inverse there, and nothing is lost in between but the emptiness of a slice.
   */
  lemma EmptyVectorStays(env: Env, lim: Limits, k: Key, left: nat)
    requires ValidEnv(env) && HasGrove(env, k) && lim.maxDepth >= 2
    ensures var bit := env.canonical.byKey[k].fields[1].cond.value.bit;
            && DecBare(env, lim, k, false, FlagsWire(OneBit(bit)) + VectorHeader(true, 0), 0, left) ==
               Got(BareGrove(k, bit), [], left)
            && EncBare(env, BareGrove(k, bit), 0).Failed?
  {
    var d := env.canonical.byKey[k];
    ValidEnvFacts(env);
    assert ValidCondition(d, 1);
    GroveDecodes(env, lim, k, left);
    GroveIsBroken(env, k);
    BrokenIsMalformed(env, d, BareGrove(k, d.fields[1].cond.value.bit).slots);
  }

  lemma GroveIsBroken(env: Env, k: Key)
    requires HasGrove(env, k)
    ensures var d := env.canonical.byKey[k];
            var slots := BareGrove(k, d.fields[1].cond.value.bit).slots;
            Aligned(d, slots) && BrokenPromise(env, d, slots)
  {
    var d := env.canonical.byKey[k];
    var slots := BareGrove(k, d.fields[1].cond.value.bit).slots;
    assert ValidCondition(d, 1);
    assert IndexOf(d.fields, d.fields[0].name) == 0;
    assert HoldsClass(env, d.fields[1].ty);
    assert slots[1] == Val(Nil) && HasBit(d, slots, d.fields[0].name, d.fields[1].cond.value.bit);
  }

  lemma EmptyVectorRead(env: Env, lim: Limits, t: TypeRef, d: nat, left: nat)
    requires BoxedVector(t) && t.arg.Some? && d < lim.maxDepth
    ensures DecValue(env, lim, t, VectorHeader(true, 0), d, left) == Got(Nil, [], left)
  {
    LengthRoundTrip(true, 0, []);
    assert VectorHeader(true, 0) + [] == VectorHeader(true, 0);
    assert DecItems(env, lim, t.arg.value, 0, [], d + 1, left) == Got([], [], left);
    assert DecVector(env, lim, t, VectorHeader(true, 0), d, left) == Got(Nil, [], left);
  }

  lemma GroveDecodes(env: Env, lim: Limits, k: Key, left: nat)
    requires Facts(env) && HasGrove(env, k) && lim.maxDepth >= 2
    ensures var bit := env.canonical.byKey[k].fields[1].cond.value.bit;
            DecBare(env, lim, k, false, FlagsWire(OneBit(bit)) + VectorHeader(true, 0), 0, left) ==
            Got(BareGrove(k, bit), [], left)
  {
    var d := env.canonical.byKey[k];
    var bits := OneBit(d.fields[1].cond.value.bit);
    assert ValidCondition(d, 1);
    FlagsRoundTrip(bits, VectorHeader(true, 0));
    VectorFieldRead(env, lim, k, map[][d.fields[0].name := bits], left);
    assert DecFields(env, lim, k, 0, map[], FlagsWire(bits) + VectorHeader(true, 0), 1, left) ==
           Got([Word(bits)] + [Part.Here(Nil)], [], left);
    assert [Word(bits)] + [Part.Here(Nil)] == [Word(bits), Part.Here(Nil)];
    GroveAssigned(env, k);
  }

  lemma VectorFieldRead(env: Env, lim: Limits, k: Key, words: map<string, Fields>, left: nat)
    requires HasGrove(env, k) && lim.maxDepth >= 2 && env.canonical.byKey[k].fields[0].name in words
    requires env.canonical.byKey[k].fields[1].cond.value.bit < 32
    requires words[env.canonical.byKey[k].fields[0].name][env.canonical.byKey[k].fields[1].cond.value.bit]
    ensures DecFields(env, lim, k, 1, words, VectorHeader(true, 0), 1, left) == Got([Part.Here(Nil)], [], left)
  {
    EmptyVectorRead(env, lim, env.canonical.byKey[k].fields[1].ty, 1, left);
    assert DecFields(env, lim, k, 2, words, [], 1, left) == Got([], [], left);
    assert [Part.Here(Nil)] + [] == [Part.Here(Nil)];
  }

  lemma GroveAssigned(env: Env, k: Key)
    requires Facts(env) && HasGrove(env, k)
    ensures var d := env.canonical.byKey[k];
            var bit := d.fields[1].cond.value.bit;
            Assign(d, d, env.zero[k], [Word(OneBit(bit)), Part.Here(Nil)]) == BareGrove(k, bit).slots
  {
    var d, zero := env.canonical.byKey[k], env.zero[k];
    var bit := d.fields[1].cond.value.bit;
    var parts := [Word(OneBit(bit)), Part.Here(Nil)];
    assert FamilyFacts(env, k) && ValidCondition(d, 1);
    assert At(d, d, 1) == 1 && IndexOf(d.fields, d.fields[0].name) == 0;
    assert SlotIsZero(zero[0]);
    forall b | 0 <= b < 32 ensures SetBy(d, d, parts, d.fields[0].name, b) <==> b == bit {
      if b == bit { assert parts[1].Here? && ValueOnSlot(d.fields[At(d, d, 1)], d.fields[0].name, b); }
    }
    assert AssignedSlot(d, d, zero, parts, 0).bits == OneBit(bit);
    assert AssignedSlot(d, d, zero, parts, 1) == Val(Nil);
  }
}

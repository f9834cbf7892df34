/**
  The generated encoders as they run: values are appended to a shared buffer, vectors
  back-patch their count and roll back dropped or failed elements, and optional nested
  fields are encoded aside before the flag words are known. Every method is proved against
  the codec's meaning.
 */
module LayerEncoder {
  import opened Bin
  import opened Schema
  import opened Values
  import opened LayerCodec

  /** Result of one encoder call: success, the projection-drop error, or another error. */
  datatype Status = Done | Drop | Fail

  function Code(r: Res): Status
  {
    match r
    case Wrote(_) => Done
    case Dropped => Drop
    case Failed => Fail
  }

  /**
    The call ended as `r` says; whatever happened, it only appended, and on success it appended
    exactly the bytes of `r`.
   */
  ghost predicate Effect(r: Res, st: Status, before: seq<Byte>, after: seq<Byte>)
  {
    st == Code(r) && before <= after && (r.Wrote? ==> after == before + r.bytes)
  }

  // ---------------------------------------------------------------- kept elements

  lemma {:induction false} KeptConcat(a: seq<Res>, b: seq<Res>)
    ensures KeptCount(a + b) == KeptCount(a) + KeptCount(b)
    ensures KeptBytes(a + b) == KeptBytes(a) + KeptBytes(b)
  {
    if a == [] {
      assert a + b == b;
    } else {
      assert (a + b)[1..] == a[1..] + b;
      KeptConcat(a[1..], b);
    }
  }

  lemma {:induction false} KeptNext(parts: seq<Res>, i: nat)
    requires i < |parts|
    ensures KeptCount(parts[..i + 1]) == KeptCount(parts[..i]) + (if parts[i].Wrote? then 1 else 0)
    ensures KeptBytes(parts[..i + 1]) == KeptBytes(parts[..i]) + (if parts[i].Wrote? then parts[i].bytes else [])
  {
    assert parts[..i + 1] == parts[..i] + [parts[i]];
    KeptConcat(parts[..i], [parts[i]]);
  }

  lemma {:induction false} AllKept(parts: seq<Res>)
    requires forall i :: 0 <= i < |parts| ==> parts[i].Wrote?
    ensures KeptCount(parts) == |parts|
  {
    if parts != [] {
      AllKept(parts[1..]);
    }
  }

  lemma PatchedWord(before: seq<Byte>, id: seq<Byte>, was: seq<Byte>, is_: seq<Byte>, body: seq<Byte>)
    requires |was| == 4 == |is_|
    ensures var s, at := before + (id + was) + body, |before| + |id|;
            at + 4 <= |s| && s[..at] + is_ + s[at + 4..] == before + (id + is_) + body
  {
    var s, at := before + (id + was) + body, |before| + |id|;
    assert s[..at] == before + id;
    assert s[at + 4..] == body;
    assert before + id + is_ == before + (id + is_);
  }

  /** Writing the count over the placeholder gives the header of that count. */
  lemma Patched(before: seq<Byte>, boxed: bool, n: nat, body: seq<Byte>)
    ensures var s := before + VectorHeader(boxed, 0) + body;
            var at := |before| + (if boxed then 4 else 0);
            at + 4 <= |s| && s[..at] + LE(4, n) + s[at + 4..] == before + VectorHeader(boxed, n) + body
  {
    PatchedWord(before, if boxed then LE(4, TYPE_VECTOR) else [], LE(4, 0), LE(4, n), body);
  }

  /** The first `i` elements have been written after `header`. */
  ghost predicate Progress(header: seq<Byte>, parts: seq<Res>, i: nat, buf: seq<Byte>)
  {
    i <= |parts| && (forall j :: 0 <= j < i ==> !parts[j].Failed?) && buf == header + KeptBytes(parts[..i])
  }

  lemma {:induction false} ProgressStep(header: seq<Byte>, parts: seq<Res>, i: nat, buf: seq<Byte>)
    requires i < |parts| && Progress(header, parts, i, buf) && !parts[i].Failed?
    ensures Progress(header, parts, i + 1, if parts[i].Wrote? then buf + parts[i].bytes else buf)
    ensures KeptCount(parts[..i + 1]) == KeptCount(parts[..i]) + (if parts[i].Wrote? then 1 else 0)
  {
    KeptNext(parts, i);
    var kept := KeptBytes(parts[..i]);
    assert kept + [] == kept;
    if parts[i].Wrote? {
      Regroup(header, kept, parts[i].bytes);
    }
  }

  lemma {:induction false} Finished(before: seq<Byte>, boxed: bool, parts: seq<Res>, after: seq<Byte>)
    requires forall j :: 0 <= j < |parts| ==> !parts[j].Failed?
    requires after == before + VectorHeader(boxed, KeptCount(parts)) + KeptBytes(parts)
    ensures Effect(AssembleVector(boxed, parts), Done, before, after)
  {
    Regroup(before, VectorHeader(boxed, KeptCount(parts)), KeptBytes(parts));
  }

  // ---------------------------------------------------------------- values

  method PutPrimitive(name: string, v: Value, b: Buffer) returns (st: Status)
    modifies b
    ensures Effect(EncPrim(name, v), st, old(b.Buf), b.Buf)
    ensures !st.Done? ==> b.Buf == old(b.Buf)
  {
    var k := KindOf(name);
    if !PrimFits(k, v) { return Fail; }
    if k.KBytes? || k.KString? {
      var ok := b.PutBytesChecked(if v.Nil? then [] else v.p.data);
      return if ok then Done else Fail;
    }
    b.Put(PrimWire(k, v));
    return Done;
  }

  method PutHeader(boxed: bool, n: nat, b: Buffer)
    modifies b
    ensures b.Buf == old(b.Buf) + VectorHeader(boxed, n)
  {
    if boxed {
      b.PutVectorHeader(n);
      assert old(b.Buf) + LE(4, TYPE_VECTOR) + LE(4, n) == old(b.Buf) + (LE(4, TYPE_VECTOR) + LE(4, n));
    } else {
      b.PutWord(4, n);
      assert [] + LE(4, n) == LE(4, n);
    }
  }

  /**
    A failed vector leaves the buffer as it found it: it was refused before its header, or its
    elements are not primitives.
   */
  predicate Restores(t: TypeRef, v: Value)
  {
    t.arg.None? || !(v.Nil? || v.Vec?) || (v.Vec? && |v.items| > MAX_VECTOR) || !PlainPrimitive(t.arg.value)
  }

  /** A failed vector of primitives keeps its header and the elements before the first bad one. */
  ghost predicate Truncated(boxed: bool, parts: seq<Res>, before: seq<Byte>, after: seq<Byte>)
  {
    exists i :: 0 <= i < |parts| && parts[i].Failed? && (forall j :: 0 <= j < i ==> parts[j].Wrote?) &&
      after == before + VectorHeader(boxed, |parts|) + KeptBytes(parts[..i])
  }

  lemma PrimitiveParts(env: Env, t: TypeRef, v: Value, depth: nat, i: nat)
    requires PlainPrimitive(t) && v.Vec? && i < |v.items|
    ensures EncItems(env, t, v, depth)[i] == EncPrim(t.qname, v.items[i]) && !EncPrim(t.qname, v.items[i]).Dropped?
  {
    assert EncItems(env, t, v, depth)[i] == EncValue(env, t, v.items[i], depth);
  }

  method EncodePrimitives(env: Env, t: TypeRef, v: Value, depth: nat, boxed: bool, b: Buffer) returns (st: Status)
    requires PlainPrimitive(t) && (v.Nil? || v.Vec?)
    modifies b
    ensures Effect(AssembleVector(boxed, EncItems(env, t, v, depth)), st, old(b.Buf), b.Buf)
    ensures st.Fail? ==> Truncated(boxed, EncItems(env, t, v, depth), old(b.Buf), b.Buf)
  {
    var items := if v.Nil? then [] else v.items;
    ghost var parts := EncItems(env, t, v, depth);
    PutHeader(boxed, |items|, b);
    ghost var header := b.Buf;
    assert parts[..0] == [] && header + [] == header;
    for i := 0 to |items|
      invariant Progress(header, parts, i, b.Buf)
      invariant forall j :: 0 <= j < i ==> parts[j].Wrote?
    {
      PrimitiveParts(env, t, v, depth, i);
      ghost var before := b.Buf;
      st := PutPrimitive(t.qname, items[i], b);
      if !st.Done? {
        assert Truncated(boxed, parts, old(b.Buf), b.Buf);
        return;
      }
      ProgressStep(header, parts, i, before);
    }
    assert parts[..|items|] == parts;
    AllKept(parts);
    Finished(old(b.Buf), boxed, parts, b.Buf);
    st := Done;
  }

  ghost predicate SomeFailed(parts: seq<Res>)
  {
    exists i :: 0 <= i < |parts| && parts[i].Failed?
  }

  /** The elements one after another; a dropped one is cut off again, any other error stops the loop. */
  method EncodeEach(env: Env, t: TypeRef, v: Value, depth: nat, b: Buffer) returns (st: Status, length: nat)
    requires v.Nil? || v.Vec?
    modifies b
    ensures var parts := EncItems(env, t, v, depth);
            if st.Done? then Progress(old(b.Buf), parts, |parts|, b.Buf) && length == KeptCount(parts)
            else st.Fail? && old(b.Buf) <= b.Buf && SomeFailed(parts)
    decreases v, 3, 0
  {
    var items := if v.Nil? then [] else v.items;
    ghost var parts := EncItems(env, t, v, depth);
    ghost var header := b.Buf;
    assert parts[..0] == [] && header + [] == header;
    length := 0;
    for i := 0 to |items|
      invariant Progress(header, parts, i, b.Buf) && length == KeptCount(parts[..i])
    {
      var itemStart := |b.Buf|;
      ghost var before := b.Buf;
      var err := EncodeValue(env, t, items[i], depth, b);
      assert Effect(parts[i], err, before, b.Buf);
      if !err.Done? {
        b.Buf := b.Buf[..itemStart];
        if err.Fail? {
          assert SomeFailed(parts);
          return Fail, length;
        }
      } else {
        length := length + 1;
      }
      ProgressStep(header, parts, i, before);
    }
    assert parts[..|items|] == parts;
    st := Done;
  }

  /** A vector of anything but primitives: placeholder count, elements, then the count or a complete rollback. */
  method EncodeItems(env: Env, t: TypeRef, v: Value, depth: nat, boxed: bool, b: Buffer) returns (st: Status)
    requires v.Nil? || v.Vec?
    modifies b
    ensures Effect(AssembleVector(boxed, EncItems(env, t, v, depth)), st, old(b.Buf), b.Buf)
    ensures !st.Done? ==> b.Buf == old(b.Buf)
    decreases v, 3, 1
  {
    var vectorStart := |b.Buf|;
    PutHeader(boxed, 0, b);
    var length;
    st, length := EncodeEach(env, t, v, depth, b);
    if !st.Done? {
      b.Buf := b.Buf[..vectorStart];
      return;
    }
    PatchCount(old(b.Buf), vectorStart, boxed, length, EncItems(env, t, v, depth), b);
  }

  method PatchCount(ghost before: seq<Byte>, vectorStart: nat, boxed: bool, length: nat, ghost parts: seq<Res>,
                    b: Buffer)
    requires vectorStart == |before|
    requires Progress(before + VectorHeader(boxed, 0), parts, |parts|, b.Buf) && length == KeptCount(parts)
    modifies b
    ensures Effect(AssembleVector(boxed, parts), Done, before, b.Buf)
  {
    assert parts[..|parts|] == parts;
    Patched(before, boxed, length, KeptBytes(parts));
    var countOffset := vectorStart + (if boxed then 4 else 0);
    b.Buf := b.Buf[..countOffset] + LE(4, length) + b.Buf[countOffset + 4..];
    Finished(before, boxed, parts, b.Buf);
  }

  /** The encoder generated for a type reference. */
  method EncodeValue(env: Env, t: TypeRef, v: Value, depth: nat, b: Buffer) returns (st: Status)
    modifies b
    ensures Effect(EncValue(env, t, v, depth), st, old(b.Buf), b.Buf)
    ensures t.kind.TypeVector? && !st.Done? ==> (b.Buf == old(b.Buf) <==> Restores(t, v))
    decreases v, 4
  {
    match t.kind {
      case TypePrimitive =>
        if IsObjectType(t) { st := EncodeFamily(env, v, depth, b); } else { st := PutPrimitive(t.qname, v, b); }
      case TypeGenericRef => st := Fail;
      case TypeVector =>
        if t.arg.None? || !(v.Nil? || v.Vec?) { return Fail; }
        if v.Vec? && |v.items| > MAX_VECTOR { return Fail; }
        if PlainPrimitive(t.arg.value) {
          st := EncodePrimitives(env, t.arg.value, v, depth, BoxedVector(t), b);
          if !st.Done? {
            PrimitiveVectorLeavesHeader(EncItems(env, t.arg.value, v, depth), BoxedVector(t), old(b.Buf), b.Buf);
          }
        } else {
          st := EncodeItems(env, t.arg.value, v, depth, BoxedVector(t), b);
        }
      case TypeNamed =>
        if BareNamed(t) {
          if v.Obj? && !v.iface && v.key == Key(CategoryType, t.qname) { st := EncodeBare(env, v, depth, b); }
          else { st := Fail; }
        } else if Singular(env, t.qname) {
          if v.Obj? && !v.iface && v.key in ClassGroup(env, t.qname) { st := EncodeBoxed(env, v, depth, b); }
          else { st := Fail; }
        } else if v.Obj? && v.iface && v.key in Constructors(env.canonical, t.qname) {
          if v.key in env.profile.byKey && v.key !in ClassGroup(env, t.qname) { st := Fail; }
          else { st := EncodeFamily(env, v, depth, b); }
        } else {
          st := Fail;
        }
    }
  }

  method EncodeFamily(env: Env, v: Value, depth: nat, b: Buffer) returns (st: Status)
    modifies b
    ensures Effect(EncFamily(env, v, depth), st, old(b.Buf), b.Buf)
    decreases v, 3
  {
    if !v.Obj? || !v.iface || v.key !in env.canonical.byKey { return Fail; }
    if v.key !in env.profile.byKey { return if IsUpdate(env.canonical.byKey[v.key]) then Fail else Drop; }
    st := EncodeBoxed(env, v, depth, b);
  }

  method EncodeBoxed(env: Env, v: Value, depth: nat, b: Buffer) returns (st: Status)
    requires v.Obj?
    modifies b
    ensures Effect(EncBoxed(env, v, depth), st, old(b.Buf), b.Buf)
    decreases v, 2
  {
    if v.key !in env.profile.byKey { return Fail; }
    b.PutWord(4, env.profile.byKey[v.key].wireID);
    ghost var middle := b.Buf;
    st := EncodeBare(env, v, depth, b);
    ghost var r := EncBare(env, v, depth);
    assert old(b.Buf) <= middle <= b.Buf;
    if r.Wrote? {
      assert old(b.Buf) + LE(4, env.profile.byKey[v.key].wireID) + r.bytes ==
             old(b.Buf) + (LE(4, env.profile.byKey[v.key].wireID) + r.bytes);
    }
  }

  /** The body of a constructor: prepared fields aside, the group check, then everything in profile order. */
  method EncodeBare(env: Env, v: Value, depth: nat, b: Buffer) returns (st: Status)
    requires v.Obj?
    modifies b
    ensures Effect(EncBare(env, v, depth), st, old(b.Buf), b.Buf)
    decreases v, 1
  {
    if depth >= MAX_DEPTH || !Encodable(env, v) { return Fail; }
    var c, p := env.canonical.byKey[v.key], env.profile.byKey[v.key];
    ghost var parts := EncParts(env, v, depth + 1);
    if Malformed(env, c, v.slots) { return Fail; }
    var known;
    st, known := PrepareFields(env, v, depth + 1);
    if st.Done? {
      st := EmitPrepared(env, v, known, depth, b);
    } else {
      assert Assemble(env, c, p, v.slots, parts) == Failed;
    }
  }

  /** The group check, then everything in profile order. */
  method EmitPrepared(env: Env, v: Value, known: seq<Res>, depth: nat, b: Buffer) returns (st: Status)
    requires Encodable(env, v) && |known| == |env.profile.byKey[v.key].fields|
    requires var c, p := env.canonical.byKey[v.key], env.profile.byKey[v.key];
             Agrees(c, p, v.slots, known, EncParts(env, v, depth + 1)) && !Malformed(env, c, v.slots)
    modifies b
    ensures Effect(Assemble(env, env.canonical.byKey[v.key], env.profile.byKey[v.key], v.slots,
                            EncParts(env, v, depth + 1)),
                   st, old(b.Buf), b.Buf)
    decreases v, 0, 3
  {
    var c, p := env.canonical.byKey[v.key], env.profile.byKey[v.key];
    ghost var parts := EncParts(env, v, depth + 1);
    SamePresence(c, p, v.slots, known, parts);
    if PartialGroup(c, p, v.slots, known) {
      assert Assemble(env, c, p, v.slots, parts) == Failed;
      return Fail;
    }
    assert Assemble(env, c, p, v.slots, parts) == EmitFrom(c, p, v.slots, parts, 0);
    st := EmitFields(env, v, known, depth + 1, b);
  }

  // ---------------------------------------------------------------- prepared fields

  predicate Needed(c: Definition, p: Definition, slots: seq<Slot>, i: nat)
    requires Aligned(c, slots) && i < |p.fields|
  {
    Prepared(p.fields[i]) && RawGroup(c, p, slots, p.fields[i].cond.value.word, p.fields[i].cond.value.bit)
  }

  /** `known` holds the outcome of every prepared field whose group is raised, and nothing else was encoded. */
  ghost predicate Agrees(c: Definition, p: Definition, slots: seq<Slot>, known: seq<Res>, parts: seq<Res>)
    requires Aligned(c, slots) && |known| <= |p.fields| == |parts|
  {
    forall i :: 0 <= i < |known| ==>
      if Needed(c, p, slots, i) then known[i] == parts[i] && !parts[i].Failed? else known[i] == Wrote([])
  }

  /** Presence after encoding depends only on the prepared outcomes. */
  lemma SamePresence(c: Definition, p: Definition, slots: seq<Slot>, known: seq<Res>, parts: seq<Res>)
    requires Aligned(c, slots) && |known| == |p.fields| == |parts| && Agrees(c, p, slots, known, parts)
    ensures forall i :: 0 <= i < |known| ==> (Survives(c, p, slots, known, i) <==> Survives(c, p, slots, parts, i))
    ensures !PreparedFails(c, p, slots, parts)
    ensures forall word, bit :: FinalGroup(c, p, slots, known, word, bit) <==> FinalGroup(c, p, slots, parts, word, bit)
    ensures PartialGroup(c, p, slots, known) <==> PartialGroup(c, p, slots, parts)
    ensures forall word :: WordBits(c, p, slots, known, word) == WordBits(c, p, slots, parts, word)
  {
    forall i | 0 <= i < |known| ensures Survives(c, p, slots, known, i) <==> Survives(c, p, slots, parts, i) {
      assert Needed(c, p, slots, i) ==> known[i] == parts[i];
    }
    forall word, bit: nat ensures FinalGroup(c, p, slots, known, word, bit) <==>
        FinalGroup(c, p, slots, parts, word, bit) {
      if FinalGroup(c, p, slots, known, word, bit) {
        var i :| 0 <= i < |p.fields| && ValueOnSlot(p.fields[i], word, bit) && Survives(c, p, slots, known, i);
        assert Survives(c, p, slots, parts, i);
      }
      if FinalGroup(c, p, slots, parts, word, bit) {
        var i :| 0 <= i < |p.fields| && ValueOnSlot(p.fields[i], word, bit) && Survives(c, p, slots, parts, i);
        assert Survives(c, p, slots, known, i);
      }
    }
  }

  /** Encodes each raised optional nested field into a buffer of its own; a dropped one is remembered, not reported. */
  method PrepareFields(env: Env, v: Value, depth: nat) returns (st: Status, known: seq<Res>)
    requires Encodable(env, v)
    ensures var c, p, parts := env.canonical.byKey[v.key], env.profile.byKey[v.key], EncParts(env, v, depth);
            if st.Done? then |known| == |p.fields| && Agrees(c, p, v.slots, known, parts)
            else st.Fail? && PreparedFails(c, p, v.slots, parts)
    decreases v, 0, 1
  {
    var c, p := env.canonical.byKey[v.key], env.profile.byKey[v.key];
    ghost var parts := EncParts(env, v, depth);
    known := [];
    for i := 0 to |p.fields|
      invariant |known| == i && Agrees(c, p, v.slots, known, parts)
    {
      var outcome := Wrote([]);
      if Needed(c, p, v.slots, i) {
        var encoded := new Buffer([]);
        st := EncodePart(env, v, i, depth, encoded);
        if st.Fail? {
          assert PreparedFails(c, p, v.slots, parts);
          return;
        }
        assert parts[i].Wrote? ==> [] + parts[i].bytes == parts[i].bytes;
        outcome := if st.Done? then Wrote(encoded.Buf) else Dropped;
      }
      known := known + [outcome];
    }
    st := Done;
  }

  method EncodePart(env: Env, v: Value, i: nat, depth: nat, b: Buffer) returns (st: Status)
    requires Encodable(env, v) && i < |env.profile.byKey[v.key].fields|
    modifies b
    ensures Effect(EncPart(env, v, i, depth), st, old(b.Buf), b.Buf)
    decreases v, 0, 0
  {
    var c, p := env.canonical.byKey[v.key], env.profile.byKey[v.key];
    var j := At(c, p, i);
    if p.fields[i].kind.FieldValue? && j < |v.slots| && v.slots[j].Val? {
      st := EncodeValue(env, p.fields[i].ty, v.slots[j].v, depth, b);
    } else {
      assert b.Buf + [] == b.Buf;
      st := Done;
    }
  }

  // ---------------------------------------------------------------- fields in profile order

  lemma ThenAssociates(x: Res, y: Res, z: Res)
    ensures Then(Then(x, y), z) == Then(x, Then(y, z))
  {
    if x.Wrote? && y.Wrote? && z.Wrote? {
      assert x.bytes + y.bytes + z.bytes == x.bytes + (y.bytes + z.bytes);
    }
  }

  /** An on-wire prepared field of a consistent group was encoded. */
  lemma PreparedIsKnown(c: Definition, p: Definition, slots: seq<Slot>, known: seq<Res>, parts: seq<Res>, i: nat)
    requires Aligned(c, slots) && |known| == |p.fields| == |parts| && Agrees(c, p, slots, known, parts) && i < |known|
    requires Prepared(p.fields[i]) && OnWire(c, p, slots, parts, i) && !PartialGroup(c, p, slots, parts)
    ensures known[i] == parts[i] && known[i].Wrote?
  {
    assert Survives(c, p, slots, parts, i);
    assert Needed(c, p, slots, i);
  }

  method EmitFields(env: Env, v: Value, known: seq<Res>, depth: nat, b: Buffer) returns (st: Status)
    requires Encodable(env, v) && |known| == |env.profile.byKey[v.key].fields|
    requires Agrees(env.canonical.byKey[v.key], env.profile.byKey[v.key], v.slots, known, EncParts(env, v, depth))
    requires !PartialGroup(env.canonical.byKey[v.key], env.profile.byKey[v.key], v.slots, EncParts(env, v, depth))
    modifies b
    ensures Effect(EmitFrom(env.canonical.byKey[v.key], env.profile.byKey[v.key], v.slots, EncParts(env, v, depth), 0),
                   st, old(b.Buf), b.Buf)
    decreases v, 0, 2
  {
    var c, p := env.canonical.byKey[v.key], env.profile.byKey[v.key];
    ghost var parts := EncParts(env, v, depth);
    ghost var whole := EmitFrom(c, p, v.slots, parts, 0);
    ghost var sofar: seq<Byte> := [];
    assert b.Buf + [] == b.Buf;
    for i := 0 to |p.fields|
      invariant b.Buf == old(b.Buf) + sofar
      invariant whole == Then(Wrote(sofar), EmitFrom(c, p, v.slots, parts, i))
    {
      ghost var here := Emitted(c, p, v.slots, parts, i);
      ThenAssociates(Wrote(sofar), here, EmitFrom(c, p, v.slots, parts, i + 1));
      ghost var before := b.Buf;
      st := EmitField(env, v, known, i, depth, b);
      if !st.Done? { return; }
      Regroup(old(b.Buf), sofar, here.bytes);
      sofar := sofar + here.bytes;
    }
    assert sofar + [] == sofar;
    st := Done;
  }

  method EmitField(env: Env, v: Value, known: seq<Res>, i: nat, depth: nat, b: Buffer) returns (st: Status)
    requires Encodable(env, v) && |known| == |env.profile.byKey[v.key].fields| && i < |known|
    requires Agrees(env.canonical.byKey[v.key], env.profile.byKey[v.key], v.slots, known, EncParts(env, v, depth))
    requires !PartialGroup(env.canonical.byKey[v.key], env.profile.byKey[v.key], v.slots, EncParts(env, v, depth))
    modifies b
    ensures Effect(Emitted(env.canonical.byKey[v.key], env.profile.byKey[v.key], v.slots, EncParts(env, v, depth), i),
                   st, old(b.Buf), b.Buf)
    decreases v, 0, 1
  {
    var c, p := env.canonical.byKey[v.key], env.profile.byKey[v.key];
    ghost var parts := EncParts(env, v, depth);
    SamePresence(c, p, v.slots, known, parts);
    if p.fields[i].kind.FieldFlagsWord? {
      b.Put(FlagsWire(WordBits(c, p, v.slots, known, p.fields[i].name)));
      return Done;
    }
    if !OnWire(c, p, v.slots, known, i) {
      assert b.Buf + [] == b.Buf;
      return Done;
    }
    if Prepared(p.fields[i]) {
      PreparedIsKnown(c, p, v.slots, known, parts, i);
      b.Put(known[i].bytes);
      return Done;
    }
    st := EncodePart(env, v, i, depth, b);
  }

  // ---------------------------------------------------------------- public entries

  /** `layerCodecEncodeAtomic`: any error restores the exact starting buffer. */
  method EncodeAtomic(env: Env, t: TypeRef, v: Value, b: Buffer) returns (st: Status)
    modifies b
    ensures st == Code(EncValue(env, t, v, 0))
    ensures b.Buf == if st.Done? then old(b.Buf) + EncValue(env, t, v, 0).bytes else old(b.Buf)
  {
    var start := |b.Buf|;
    st := EncodeValue(env, t, v, 0, b);
    if !st.Done? {
      b.Buf := b.Buf[..start];
    }
  }

  /** The header of a failed primitive vector stays in the buffer. */
  lemma PrimitiveVectorLeavesHeader(parts: seq<Res>, boxed: bool, before: seq<Byte>, after: seq<Byte>)
    requires Truncated(boxed, parts, before, after)
    ensures before < after
  {
    var i :| 0 <= i < |parts| && parts[i].Failed? && (forall j :: 0 <= j < i ==> parts[j].Wrote?) &&
      after == before + VectorHeader(boxed, |parts|) + KeptBytes(parts[..i]);
    assert |VectorHeader(boxed, |parts|)| >= 4;
  }

  // ---------------------------------------------------------------- a primitive vector that cannot be rolled back

  const BYTES := TypeRef(TypePrimitive, "bytes", false, false, None)
  const BYTE_STRINGS := TypeRef(TypeVector, "Vector", false, false, Some(BYTES))

  /** Some good strings, one that is too long for a TL string, and anything after it. */
  function WithOversized(before: seq<Value>, data: seq<Byte>, after: seq<Value>): Value
  {
    Vec(before + [Prim(PBytes(data))] + after)
  }

  /** Every vector of byte strings with an oversized one fails without restoring the buffer. */
  lemma OversizedStringLeavesHeader(env: Env, before: seq<Value>, data: seq<Byte>, after: seq<Value>, depth: nat)
    requires |data| > MAX_LONG_STRING && |before| + 1 + |after| <= MAX_VECTOR
    ensures EncValue(env, BYTE_STRINGS, WithOversized(before, data, after), depth).Failed?
    ensures !Restores(BYTE_STRINGS, WithOversized(before, data, after))
  {
    var v := WithOversized(before, data, after);
    var parts := EncItems(env, BYTES, v, depth);
    assert v.items[|before|] == Prim(PBytes(data));
    assert parts[|before|] == EncValue(env, BYTES, v.items[|before|], depth);
    assert parts[|before|].Failed?;
  }

  /** For instance one string of 2^24 zeros. */
  lemma OversizedStringExists(env: Env, depth: nat) returns (v: Value)
    ensures EncValue(env, BYTE_STRINGS, v, depth).Failed? && !Restores(BYTE_STRINGS, v)
  {
    v := WithOversized([], Zeros(MAX_LONG_STRING + 1), []);
    OversizedStringLeavesHeader(env, [], Zeros(MAX_LONG_STRING + 1), [], depth);
  }
}

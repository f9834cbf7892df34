/**
  What a trip through a layer does to a value, told by its bytes: a flag bit comes back set
  exactly when it was set or a member of its group has something to show, primitives come back
  with the bytes they were written with, and fields of unset groups come back with nothing to show.
 */
module LayerPresence {
  import opened Bin
  import opened Schema
  import opened Values
  import opened LayerCodec
  import opened LayerRoundTrip
  import opened LayerRewrite
  import opened LayerNormal
  import DirectBytes

  // ---------------------------------------------------------------- values with something to show

  ghost predicate SomeByte(s: seq<Byte>)
  {
    exists i :: 0 <= i < |s| && s[i] != 0
  }

  /**
    A byte of the number is not zero, for floating point apart from the sign; the slice is not
    nil; the bool is true.
   */
  ghost predicate PrimShows(p: PrimVal)
  {
    match p
    case PInt(v) => SomeByte(LE(4, v))
    case PLong(v) => SomeByte(LE(8, v))
    case PDouble(bits) => SomeByte(LE(8, bits)[..7]) || LE(8, bits)[7] !in {0, 0x80}
    case PRaw(data) => SomeByte(data)
    case PBytes(_) => true
    case PBool(b) => b
  }

  ghost predicate Shows(v: Value)
  {
    match v
    case Prim(p) => PrimShows(p)
    case Nil => false
    case Vec(_) => true
    case Obj(_, slots, iface) => iface || exists i :: 0 <= i < |slots| && SlotShows(slots[i])
  }

  ghost predicate SlotShows(s: Slot)
  {
    match s
    case Flags(bits) => exists b :: 0 <= b < 32 && bits[b]
    case Val(v) => Shows(v)
  }

  /** Every number in the value has the width of its Go type. */
  ghost predicate Machine(v: Value)
  {
    match v
    case Prim(p) => MachinePrim(p)
    case Nil => true
    case Vec(items) => forall i :: 0 <= i < |items| ==> Machine(items[i])
    case Obj(_, slots, _) => forall i :: 0 <= i < |slots| && slots[i].Val? ==> Machine(slots[i].v)
  }

  predicate MachinePrim(p: PrimVal)
  {
    match p
    case PInt(v) => InRange(4, v)
    case PLong(v) => InRange(8, v)
    case PDouble(bits) => bits < Pow256(8)
    case _ => true
  }

  lemma {:induction false} ZeroBytes(n: nat)
    ensures LE(n, 0) == Zeros(n)
  {
    if n > 0 { ZeroBytes(n - 1); }
  }

  lemma NoByte(s: seq<Byte>)
    ensures SomeByte(s) <==> s != Zeros(|s|)
  {
    if !SomeByte(s) { assert s == Zeros(|s|); }
  }

  lemma SignedShows(n: nat, v: int)
    requires n > 0 && InRange(n, v)
    ensures SomeByte(LE(n, v)) <==> v != 0
  {
    ZeroBytes(n);
    NoByte(LE(n, v));
    SignedRoundTrip(n, v, []);
    SignedRoundTrip(n, 0, []);
  }

  /** The bytes of a negative zero. */
  lemma SignBytes()
    ensures LE(8, 0x8000_0000_0000_0000) == Zeros(7) + [0x80]
  {
    var s := LE(8, 0x8000_0000_0000_0000);
    Pow256Values();
    FromLEOfSign();
    FromLEInverse(Zeros(7) + [0x80]);
  }

  lemma {:induction false} FromLEPadded(n: nat, b: Byte)
    ensures FromLE(Zeros(n) + [b]) == Pow256(n) * b
  {
    if n > 0 {
      FromLEPadded(n - 1, b);
      assert (Zeros(n) + [b])[1..] == Zeros(n - 1) + [b];
    } else {
      assert (Zeros(0) + [b])[1..] == [];
    }
  }

  lemma FromLEOfSign()
    ensures FromLE(Zeros(7) + [0x80]) == 0x8000_0000_0000_0000
  {
    FromLEPadded(7, 0x80);
    Pow256Values();
  }

  lemma DoubleShows(bits: nat)
    requires bits < Pow256(8)
    ensures PrimShows(PDouble(bits)) <==> bits != 0 && bits != 0x8000_0000_0000_0000
  {
    var s := LE(8, bits);
    ZeroBytes(8);
    SignBytes();
    NoByte(s[..7]);
    LEInverse(8, bits);
    LEInverse(8, 0);
    FromLEOfSign();
    assert s == s[..7] + [s[7]];
    assert Zeros(8) == Zeros(7) + [0];
  }
  // ---------------------------------------------------------------- the zero test looks at the bytes

  lemma PrimShowsExact(p: PrimVal)
    requires MachinePrim(p)
    ensures PrimShows(p) <==> !PrimIsZero(p)
  {
    Pow256Values();
    match p {
      case PInt(v) => SignedShows(4, v);
      case PLong(v) => SignedShows(8, v);
      case PDouble(bits) => DoubleShows(bits);
      case _ =>
    }
  }

  lemma {:induction false} SlotShowsExact(x: Slot)
    requires x.Val? ==> Machine(x.v)
    ensures SlotShows(x) <==> !SlotIsZero(x)
    decreases x
  {
    if x.Val? { ShowsExact(x.v); }
  }

  /** A value is zero for the generated test exactly when it has nothing to show. */
  lemma {:induction false} ShowsExact(v: Value)
    requires Machine(v)
    ensures Shows(v) <==> !IsZero(v)
    decreases v
  {
    match v {
      case Prim(p) => PrimShowsExact(p);
      case Obj(_, slots, _) =>
        forall i | 0 <= i < |slots| ensures SlotShows(slots[i]) <==> !SlotIsZero(slots[i]) {
          SlotShowsExact(slots[i]);
        }
      case _ =>
    }
  }

  lemma {:induction false} ZeroShowsNothing(v: Value)
    requires IsZero(v)
    ensures !Shows(v)
    decreases v
  {
    match v {
      case Prim(p) =>
        Pow256Values();
        if p.PInt? || p.PLong? || p.PDouble? { PrimShowsExact(p); }
      case Obj(_, slots, _) =>
        forall i | 0 <= i < |slots| ensures !SlotShows(slots[i]) {
          if slots[i].Val? { ZeroShowsNothing(slots[i].v); }
        }
      case _ =>
    }
  }

  // ---------------------------------------------------------------- groups told by bits and bytes

  /** A conditional field on this bit. */
  ghost predicate Member(c: Definition, word: string, bit: nat, k: nat)
    requires k < |c.fields|
  {
    && c.fields[k].kind.FieldValue? && c.fields[k].cond.Some?
    && c.fields[k].cond.value.word == word && c.fields[k].cond.value.bit == bit
  }

  ghost predicate MemberShows(c: Definition, slots: seq<Slot>, word: string, bit: nat)
    requires Aligned(c, slots)
  {
    exists k :: 0 <= k < |slots| && slots[k].Val? && Member(c, word, bit, k) && Shows(slots[k].v)
  }

  ghost predicate BitIsSet(c: Definition, slots: seq<Slot>, word: string, bit: nat)
    requires Aligned(c, slots) && bit < 32
  {
    exists w :: 0 <= w < |slots| && slots[w].Flags? && c.fields[w].name == word && slots[w].bits[bit]
  }

  lemma MembersRaise(c: Definition, slots: seq<Slot>, word: string, bit: nat)
    requires ValidDefinition(c) && Aligned(c, slots) && bit < 32
    requires forall k :: 0 <= k < |slots| && slots[k].Val? ==> Machine(slots[k].v)
    ensures HasBit(c, slots, word, bit) <==> BitIsSet(c, slots, word, bit)
    ensures DirectBytes.SetByField(c, slots, word, bit) <==> MemberShows(c, slots, word, bit)
    ensures Owned(c, word, bit) <==> exists k :: 0 <= k < |c.fields| && Member(c, word, bit, k)
  {
    forall k | 0 <= k < |slots| && slots[k].Val?
      ensures Member(c, word, bit, k) <==> OnSlot(c.fields[k], word, bit)
      ensures Shows(slots[k].v) <==> !IsZero(slots[k].v)
    {
      ShowsExact(slots[k].v);
    }
    if BitIsSet(c, slots, word, bit) {
      var w :| 0 <= w < |slots| && slots[w].Flags? && c.fields[w].name == word && slots[w].bits[bit];
      assert IndexOf(c.fields, word) == w;
    }
    assert Owned(c, word, bit) <==> exists k :: 0 <= k < |c.fields| && Member(c, word, bit, k) by {
      assert forall k :: 0 <= k < |c.fields| ==> (Member(c, word, bit, k) <==> ValueOnSlot(c.fields[k], word, bit));
    }
  }

  // ---------------------------------------------------------------- what comes back

  /** `w` is what must come back of `v`: its bytes, its elements and its fields, with the flag bits that tell them. */
  ghost predicate Returned(s: SchemaModel, t: TypeRef, v: Value, w: Value)
    decreases v, 1
  {
    if PlainPrimitive(t) then SamePrim(KindOf(t.qname), v, w)
    else if t.kind.TypeVector? then
      if v.Vec? && t.arg.Some? && v.items != [] then
        w.Vec? && |w.items| == |v.items| &&
        forall i :: 0 <= i < |v.items| ==> Returned(s, t.arg.value, v.items[i], w.items[i])
      else w == Nil
    else
      && v.Obj? && w.Obj? && w.key == v.key && w.iface == v.iface && v.key in s.byKey
      && Aligned(s.byKey[v.key], v.slots) && |w.slots| == |v.slots|
      && forall j :: 0 <= j < |v.slots| ==> SlotReturned(s, v, w.slots[j], j)
  }

  predicate SamePrim(k: PrimKind, v: Value, w: Value)
  {
    PrimFits(k, v) && PrimFits(k, w) && PrimWire(k, w) == PrimWire(k, v) && w != Prim(PBytes([]))
  }

  ghost predicate SlotReturned(s: SchemaModel, v: Value, w: Slot, j: nat)
    requires v.Obj? && v.key in s.byKey && Aligned(s.byKey[v.key], v.slots) && j < |v.slots|
    decreases v, 0
  {
    var c := s.byKey[v.key];
    var f := c.fields[j];
    match v.slots[j]
    case Flags(bits) =>
      && w.Flags?
      && forall b :: 0 <= b < 32 ==>
           (w.bits[b] <==> MemberShows(c, v.slots, f.name, b) ||
                           (bits[b] && exists k :: 0 <= k < |c.fields| && Member(c, f.name, b, k)))
    case Val(x) =>
      && w.Val?
      && if f.cond.None? then Returned(s, f.ty, x, w.v)
         else
           var word, bit := f.cond.value.word, f.cond.value.bit;
           bit < 32 &&
           if !BitIsSet(c, v.slots, word, bit) && !MemberShows(c, v.slots, word, bit) then !Shows(w.v)
           else if f.cond.value.presenceOnly then w.v == Prim(PBool(true))
           else Returned(s, f.ty, x, w.v)
  }

  lemma PrimComesBack(name: string, v: Value)
    requires EncPrim(name, v).Wrote?
    ensures SamePrim(KindOf(name), v, NormPrim(v))
  {
  }

  lemma WordComesBack(s: SchemaModel, zero: ZeroMap, v: Value, j: nat)
    requires Shaped(s, zero, v) && ValidDefinition(s.byKey[v.key]) && Machine(v) && j < |v.slots| && v.slots[j].Flags?
    ensures SlotReturned(s, v, ClearSlot(s, zero, v, j), j)
  {
    var c := s.byKey[v.key];
    var name := c.fields[j].name;
    var bits := ClearSlot(s, zero, v, j).bits;
    assert IndexOf(c.fields, name) == j;
    forall b | 0 <= b < 32
      ensures bits[b] <==> MemberShows(c, v.slots, name, b) ||
                           (v.slots[j].bits[b] && exists k :: 0 <= k < |c.fields| && Member(c, name, b, k))
    {
      MembersRaise(c, v.slots, name, b);
      assert bits[b] <==> Owned(c, name, b) && Raised(c, v.slots, name, b);
      if MemberShows(c, v.slots, name, b) {
        var k :| 0 <= k < |v.slots| && v.slots[k].Val? && Member(c, name, b, k) && Shows(v.slots[k].v);
      }
    }
  }

  lemma GroupTold(c: Definition, slots: seq<Slot>, j: nat)
    requires ValidDefinition(c) && Aligned(c, slots) && j < |slots| && c.fields[j].cond.Some?
    requires forall k :: 0 <= k < |slots| && slots[k].Val? ==> Machine(slots[k].v)
    ensures var word, bit := c.fields[j].cond.value.word, c.fields[j].cond.value.bit;
            bit < 32 &&
            (Raised(c, slots, word, bit) <==> BitIsSet(c, slots, word, bit) || MemberShows(c, slots, word, bit))
  {
    var w := WordAt(c, slots, j);
    MembersRaise(c, slots, c.fields[j].cond.value.word, c.fields[j].cond.value.bit);
  }

  lemma {:induction false} FieldComesBack(env: Env, v: Value, j: nat, depth: nat)
    requires v.Obj? && WithinObj(env, v, depth) && Machine(v) && j < |v.slots| && v.slots[j].Val?
    requires ZeroStructs(env.canonical, env.zero) && ZeroShaped(env)
    ensures SlotReturned(env.canonical, v, ClearSlot(env.canonical, env.zero, v, j), j)
    decreases v, 0
  {
    var c := env.canonical.byKey[v.key];
    if c.fields[j].cond.None? {
      ValueComesBack(env, c.fields[j].ty, v.slots[j].v, depth + 1);
    } else {
      GroupTold(c, v.slots, j);
      var cond := c.fields[j].cond.value;
      if !Raised(c, v.slots, cond.word, cond.bit) {
        assert SlotIsZero(env.zero[v.key][j]);
        ZeroShowsNothing(env.zero[v.key][j].v);
      } else if !cond.presenceOnly {
        ValueComesBack(env, c.fields[j].ty, v.slots[j].v, depth + 1);
      }
    }
  }

  /** Every canonical struct has a zero of its shape. */
  ghost predicate ZeroShaped(env: Env)
  {
    forall k :: k in env.canonical.byKey ==> k in env.zero && Aligned(env.canonical.byKey[k], env.zero[k])
  }

  /** The flag normalisation keeps every byte that is to be seen and sets exactly the bits that tell them. */
  lemma {:induction false} ValueComesBack(env: Env, t: TypeRef, v: Value, depth: nat)
    requires ZeroStructs(env.canonical, env.zero) && Within(env, t, v, depth) && Machine(v)
    requires ZeroShaped(env)
    ensures Returned(env.canonical, t, v, Clear(env.canonical, env.zero, t, v))
    decreases v, 1
  {
    if PlainPrimitive(t) {
      PrimComesBack(t.qname, v);
    } else if t.kind.TypeVector? {
      if v.Vec? && v.items != [] {
        var w := Clear(env.canonical, env.zero, t, v);
        forall i | 0 <= i < |v.items| ensures Returned(env.canonical, t.arg.value, v.items[i], w.items[i]) {
          ValueComesBack(env, t.arg.value, v.items[i], depth);
        }
      }
    } else {
      var w := Clear(env.canonical, env.zero, t, v);
      forall j | 0 <= j < |v.slots| ensures SlotReturned(env.canonical, v, w.slots[j], j) {
        if v.slots[j].Flags? {
          WordComesBack(env.canonical, env.zero, v, j);
        } else {
          FieldComesBack(env, v, j, depth);
        }
      }
    }
  }

  /**
    If every family the type can reach is present without body obligations, a placed value within
    the limits is written, and what is decoded, at any nesting, has the bytes of every primitive that
    was there to be seen, every element, and a flag bit exactly where one was set or a field shows.
   */
  lemma TripShows(env: Env, s: set<Key>, lim: Limits, t: TypeRef, v: Value, rest: seq<Byte>, left: nat)
    requires ValidEnv(env) && Available(env, s) && Carries(env, s, t) && Within(env, t, v, 0) && Placed(env, t, v)
    requires Machine(v) && Shallow(env, lim, t, v, 0, 0) && Count(env, t, v, 0) <= left
    ensures EncValue(env, t, v, 0).Wrote?
    ensures var d := DecValue(env, lim, t, EncValue(env, t, v, 0).bytes + rest, 0, left);
            d.Got? && d.rest == rest && Returned(env.canonical, t, v, d.value)
  {
    RewrittenValueComesBack(env, s, lim, t, v, rest, left);
    ZerosAreZero(env);
    ValueComesBack(env, t, v, 0);
  }

  // ---------------------------------------------------------------- one optional field

  lemma ReturnedAligned(s: SchemaModel, t: TypeRef, v: Value, w: Value)
    requires Returned(s, t, v, w) && !PlainPrimitive(t) && !t.kind.TypeVector?
    ensures Aligned(s.byKey[v.key], w.slots)
  {
    forall j | 0 <= j < |v.slots| ensures w.slots[j].Flags? <==> s.byKey[v.key].fields[j].kind.FieldFlagsWord? {
      assert SlotReturned(s, v, w.slots[j], j);
    }
  }

  /** The bit of an optional field comes back set exactly when it was set or some field on it shows. */
  lemma BitComesBack(s: SchemaModel, t: TypeRef, v: Value, w: Value, j: nat)
    requires Returned(s, t, v, w) && !PlainPrimitive(t) && !t.kind.TypeVector? && ValidDefinition(s.byKey[v.key])
    requires j < |v.slots| && s.byKey[v.key].fields[j].cond.Some?
    ensures Aligned(s.byKey[v.key], w.slots)
    ensures var c := s.byKey[v.key];
            var word, bit := c.fields[j].cond.value.word, c.fields[j].cond.value.bit;
            bit < 32 &&
            (BitIsSet(c, w.slots, word, bit) <==> BitIsSet(c, v.slots, word, bit) || MemberShows(c, v.slots, word, bit))
  {
    var c := s.byKey[v.key];
    ReturnedAligned(s, t, v, w);
    var i := WordAt(c, v.slots, j);
    var bit := c.fields[j].cond.value.bit;
    assert Member(c, c.fields[i].name, bit, j);
    assert SlotReturned(s, v, w.slots[i], i);
    OneWord(c, v.slots, i, bit);
    OneWord(c, w.slots, i, bit);
  }

  lemma OneWord(c: Definition, slots: seq<Slot>, i: nat, bit: nat)
    requires ValidDefinition(c) && Aligned(c, slots) && i < |slots| && slots[i].Flags? && bit < 32
    ensures BitIsSet(c, slots, c.fields[i].name, bit) <==> slots[i].bits[bit]
  {
  }

  /** An optional field that holds a number, a fixed block of bytes or a bool. */
  predicate OptionalPrim(c: Definition, slots: seq<Slot>, j: nat, p: PrimVal)
    requires Aligned(c, slots)
  {
    && j < |slots| && slots[j] == Val(Prim(p)) && !p.PBytes?
    && c.fields[j].cond.Some? && !c.fields[j].cond.value.presenceOnly && PlainPrimitive(c.fields[j].ty)
  }

  /** Neither the bit nor a member other than field `j` raises the group. */
  ghost predicate OnlyMember(c: Definition, slots: seq<Slot>, word: string, bit: nat, j: nat)
    requires Aligned(c, slots)
  {
    && (bit < 32 ==> !BitIsSet(c, slots, word, bit))
    && forall k :: 0 <= k < |slots| && k != j && slots[k].Val? && Member(c, word, bit, k) ==> !Shows(slots[k].v)
  }

  /** What shows comes back as it was together with its bit; what does not show does not set the bit. */
  ghost predicate PrimTold(c: Definition, slots: seq<Slot>, back: seq<Slot>, cond: Condition, j: nat, p: PrimVal)
    requires Aligned(c, slots) && Aligned(c, back) && j < |slots| && cond.bit < 32
  {
    && (PrimShows(p) ==> back[j] == slots[j] && BitIsSet(c, back, cond.word, cond.bit))
    && (!PrimShows(p) && OnlyMember(c, slots, cond.word, cond.bit, j) ==> !BitIsSet(c, back, cond.word, cond.bit))
  }

  /**
    An optional number with a byte that is not zero comes back with its value and its bit, negative or not and
    whether its bit was set or not; one of zero bytes alone on a clear bit leaves the bit clear. The same
    holds for fixed blocks of bytes, bools, and floating point apart from the sign of zero.
   */
  lemma OptionalComesBack(env: Env, s: set<Key>, lim: Limits, t: TypeRef, v: Value, j: nat, p: PrimVal, rest: seq<Byte>,
                          left: nat)
    requires ValidEnv(env) && Available(env, s) && Carries(env, s, t) && Within(env, t, v, 0) && Placed(env, t, v)
    requires Machine(v) && Shallow(env, lim, t, v, 0, 0) && Count(env, t, v, 0) <= left
    requires !PlainPrimitive(t) && !t.kind.TypeVector? && Shaped(env.canonical, env.zero, v)
    requires OptionalPrim(env.canonical.byKey[v.key], v.slots, j, p)
    ensures EncValue(env, t, v, 0).Wrote?
    ensures var c := env.canonical.byKey[v.key];
            var d := DecValue(env, lim, t, EncValue(env, t, v, 0).bytes + rest, 0, left);
            && d.Got? && d.value.Obj? && |d.value.slots| == |v.slots| && Aligned(c, d.value.slots)
            && c.fields[j].cond.value.bit < 32 && PrimTold(c, v.slots, d.value.slots, c.fields[j].cond.value, j, p)
  {
    TripShows(env, s, lim, t, v, rest, left);
    var w := DecValue(env, lim, t, EncValue(env, t, v, 0).bytes + rest, 0, left).value;
    OptionalReturned(env.canonical, t, v, w, j, p);
  }

  lemma OptionalReturned(s: SchemaModel, t: TypeRef, v: Value, w: Value, j: nat, p: PrimVal)
    requires Returned(s, t, v, w) && !PlainPrimitive(t) && !t.kind.TypeVector? && ValidDefinition(s.byKey[v.key])
    requires Aligned(s.byKey[v.key], v.slots) && OptionalPrim(s.byKey[v.key], v.slots, j, p)
    ensures Aligned(s.byKey[v.key], w.slots)
    ensures var c := s.byKey[v.key];
            c.fields[j].cond.value.bit < 32 && PrimTold(c, v.slots, w.slots, c.fields[j].cond.value, j, p)
  {
    var c := s.byKey[v.key];
    var cond := c.fields[j].cond.value;
    BitComesBack(s, t, v, w, j);
    assert Member(c, cond.word, cond.bit, j);
    assert SlotReturned(s, v, w.slots[j], j);
    if PrimShows(p) {
      assert Shows(v.slots[j].v) && MemberShows(c, v.slots, cond.word, cond.bit);
      SameBytes(KindOf(c.fields[j].ty.qname), p, w.slots[j].v);
    }
  }

  lemma SameBytes(k: PrimKind, p: PrimVal, w: Value)
    requires SamePrim(k, Prim(p), w) && !p.PBytes?
    ensures w == Prim(p)
  {
    Pow256Values();
    match p {
      case PInt(v) => SignedInverse(4, v); SignedInverse(4, w.p.v);
      case PLong(v) => SignedInverse(8, v); SignedInverse(8, w.p.v);
      case PDouble(bits) => WordRoundTrip(8, bits, []); WordRoundTrip(8, w.p.bits, []);
      case PBool(b) => BoolRoundTrip(b, []); BoolRoundTrip(w.p.b, []);
      case _ =>
    }
  }

  // ---------------------------------------------------------------- an instance

  /** The pair without its bit. */
  function BarePairOf(a: int, b: int): Value
  {
    Obj(PAIR, [Flags(seq(32, _ => false)), Val(Prim(PInt(a))), Val(Prim(PInt(b)))], false)
  }

  lemma BarePairWithin(a: int, b: int)
    requires InRange(4, a) && InRange(4, b)
    ensures Within(PAIR_ENV, PAIRS, BarePairOf(a, b), 0)
  {
    Pow256Values();
    PairShape(a, b);
    var v := BarePairOf(a, b);
    assert Aligned(OLD_PAIR, v.slots);
    assert EncPrim("int", Prim(PInt(a))).Wrote? && EncPrim("int", Prim(PInt(b))).Wrote?;
    assert !Malformed(PAIR_ENV, OLD_PAIR, v.slots);
    assert WithinObj(PAIR_ENV, v, 0);
    PairClass();
  }

  lemma BarePairClears(a: int, b: int)
    requires InRange(4, a) && a != 0
    ensures Clear(PAIR_ENV.canonical, PAIR_ENV.zero, PAIRS, BarePairOf(a, b)) == PairOf(a, b)
  {
    PairShape(a, b);
    var s, zero, v := PAIR_ENV.canonical, PAIR_ENV.zero, BarePairOf(a, b);
    assert Aligned(OLD_PAIR, v.slots) && Shaped(s, zero, v);
    assert Raised(OLD_PAIR, v.slots, "flags", 0) by { assert !IsZero(v.slots[1].v); }
    forall b' | 0 <= b' < 32 ensures Owned(OLD_PAIR, "flags", b') <==> b' == 0 {}
    assert ClearSlot(s, zero, v, 0).bits == PairOf(a, b).slots[0].bits;
    assert ClearSlot(s, zero, v, 1) == v.slots[1] && ClearSlot(s, zero, v, 2) == v.slots[2];
    assert Clear(s, zero, PAIRS, v).slots == PairOf(a, b).slots;
  }

  /** Written with a clear bit, an optional field that is not zero comes back with its bit set, whatever its sign. */
  lemma BarePairGainsItsBit(lim: Limits, a: int, b: int, rest: seq<Byte>, left: nat)
    requires InRange(4, a) && InRange(4, b) && a != 0
    requires Shallow(PAIR_ENV, lim, PAIRS, BarePairOf(a, b), 0, 0)
    requires Count(PAIR_ENV, PAIRS, BarePairOf(a, b), 0) <= left
    ensures EncValue(PAIR_ENV, PAIRS, BarePairOf(a, b), 0).Wrote?
    ensures DecValue(PAIR_ENV, lim, PAIRS, EncValue(PAIR_ENV, PAIRS, BarePairOf(a, b), 0).bytes + rest, 0, left) ==
            Got(PairOf(a, b), rest, left - Count(PAIR_ENV, PAIRS, BarePairOf(a, b), 0))
  {
    PairEnvValid();
    BarePairWithin(a, b);
    BarePairClears(a, b);
    KeptClassesPlace(PAIR_ENV, {PAIR}, PAIRS, BarePairOf(a, b), 0);
    RewrittenValueComesBack(PAIR_ENV, {PAIR}, lim, PAIRS, BarePairOf(a, b), rest, left);
  }
}

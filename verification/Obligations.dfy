/**
  The two-sided structural diff of one constructor in two layers: which fields are
  renamed, which reuse a flag slot, and which non-mechanical decisions remain.
 */
module Obligations {
  import opened Bin
  import opened Schema

  type FieldMap = map<string, FieldShape>

  /** A source field and the target field it is carried by. */
  datatype Pair = Pair(from: string, to: string)
  type Pairs = set<Pair>

  datatype Kind = Alias | Replacement | Required | Incompatible | FlagGroup | Projection | Discard | Result
  datatype Direction = ToProfile | ToCanonical | Both
  datatype Obligation = Obligation(
    kind: Kind, direction: Direction, field: string, other: string, word: string, bit: nat, members: set<string>)

  function FieldOb(kind: Kind, direction: Direction, field: string, other: string): Obligation
  {
    Obligation(kind, direction, field, other, "", 0, {})
  }

  // ---------------------------------------------------------------- specification of the pairing

  /** The value fields of a definition by name. */
  function ValueNames(d: Definition): set<string>
  {
    set i | 0 <= i < |d.fields| && d.fields[i].kind.FieldValue? :: d.fields[i].name
  }

  function ValueMap(d: Definition): FieldMap
    requires UniqueNames(d.fields)
  {
    map n | n in ValueNames(d) :: d.fields[IndexOf(d.fields, n)]
  }

  /** The map holds exactly the value fields, each under its name. */
  lemma ValueMapFacts(d: Definition)
    requires UniqueNames(d.fields)
    ensures forall i :: 0 <= i < |d.fields| && d.fields[i].kind.FieldValue? ==>
              d.fields[i].name in ValueMap(d) && ValueMap(d)[d.fields[i].name] == d.fields[i]
    ensures forall n :: n in ValueMap(d) ==>
              exists i :: 0 <= i < |d.fields| && d.fields[i].kind.FieldValue? && d.fields[i].name == n
  {
  }

  /** `m` holds exactly the value fields of `d`, each under its name and at its ordinal. */
  ghost predicate Holds(d: Definition, m: FieldMap)
  {
    && (forall i :: 0 <= i < |d.fields| && d.fields[i].kind.FieldValue? ==>
          d.fields[i].name in m && m[d.fields[i].name] == d.fields[i])
    && (forall n :: n in m ==>
          m[n].name == n && m[n].kind.FieldValue? && m[n].ordinal < |d.fields| && d.fields[m[n].ordinal] == m[n])
  }

  lemma ValueMapHolds(d: Definition)
    requires ValidDefinition(d)
    ensures Holds(d, ValueMap(d))
  {
    ValueMapFacts(d);
  }

  predicate AliasCompatible(c: FieldShape, p: FieldShape)
  {
    && c.ordinal == p.ordinal && c.ty == p.ty
    && (c.cond.Some? <==> p.cond.Some?)
    && (c.cond.Some? && p.cond.Some? ==> c.cond.value.presenceOnly == p.cond.value.presenceOnly)
  }

  /** A rename: both names are unmatched and the fields agree in position, type and optionality. */
  predicate AliasPair(c: FieldMap, p: FieldMap, a: string, b: string)
  {
    a in c && a !in p && b in p && b !in c && AliasCompatible(c[a], p[b])
  }

  /** A canonical conditional field with neither a namesake nor a rename, on this flag slot. */
  ghost predicate FreeCanonical(c: FieldMap, p: FieldMap, a: string, word: string, bit: nat)
  {
    a in c && a !in p && OnSlot(c[a], word, bit) && forall b :: !AliasPair(c, p, a, b)
  }

  ghost predicate FreeProfile(c: FieldMap, p: FieldMap, b: string, word: string, bit: nat)
  {
    b in p && b !in c && OnSlot(p[b], word, bit) && forall a :: !AliasPair(c, p, a, b)
  }

  ghost predicate ReplacementOn(c: FieldMap, p: FieldMap, a: string, b: string, word: string, bit: nat)
  {
    && FreeCanonical(c, p, a, word, bit) && FreeProfile(c, p, b, word, bit)
    && (forall x :: FreeCanonical(c, p, x, word, bit) ==> x == a)
    && (forall x :: FreeProfile(c, p, x, word, bit) ==> x == b)
  }

  /** The unambiguous one-to-one reuse of one flag slot by otherwise unmatched fields. */
  ghost predicate ReplacementPair(c: FieldMap, p: FieldMap, a: string, b: string)
  {
    a in c && c[a].cond.Some? && ReplacementOn(c, p, a, b, c[a].cond.value.word, c[a].cond.value.bit)
  }

  ghost predicate Paired(c: FieldMap, p: FieldMap, a: string, b: string)
  {
    AliasPair(c, p, a, b) || ReplacementPair(c, p, a, b)
  }

  ghost predicate OrdinalsUnique(m: FieldMap)
  {
    forall a, b :: a in m && b in m && m[a].ordinal == m[b].ordinal ==> a == b
  }

  // ---------------------------------------------------------------- specification of the obligations

  ghost predicate AreAliases(c: FieldMap, p: FieldMap, s: Pairs)
  {
    forall x: Pair :: x in s <==> AliasPair(c, p, x.from, x.to)
  }

  ghost predicate AreReplacements(c: FieldMap, p: FieldMap, s: Pairs)
  {
    forall x: Pair :: x in s <==> ReplacementPair(c, p, x.from, x.to)
  }

  function Swap(s: Pairs): Pairs
  {
    set x | x in s :: Pair(x.to, x.from)
  }

  ghost predicate OneToOne(s: Pairs)
  {
    forall x, y :: x in s && y in s && (x.from == y.from || x.to == y.to) ==> x == y
  }

  ghost predicate HasSource(pairs: Pairs, n: string)
  {
    exists x :: x in pairs && x.to == n
  }

  /** The source field a target field is read from: its partner, or its namesake. */
  ghost function SourceName(pairs: Pairs, n: string): string
  {
    if HasSource(pairs, n) then var x :| x in pairs && x.to == n; x.from else n
  }

  predicate IncompatibleFields(s: FieldShape, t: FieldShape)
  {
    s.ty != t.ty || (s.cond.Some? && s.cond.value.presenceOnly) != (t.cond.Some? && t.cond.value.presenceOnly)
  }

  datatype Presence = NotThere | Always | OnBit(word: string, bit: nat)

  function PresenceOf(s: FieldMap, n: string): Presence
  {
    if n !in s then NotThere
    else if s[n].cond.None? then Always
    else OnBit(s[n].cond.value.word, s[n].cond.value.bit)
  }

  /** The obligation, if any, that one target field causes in one direction. */
  ghost predicate FieldObligation(s: FieldMap, t: FieldMap, al: Pairs, rp: Pairs, dir: Direction, n: string,
                                  o: Obligation)
  {
    n in t &&
    var src := SourceName(al + rp, n);
    if src !in s then t[n].cond.None? && o == FieldOb(Required, dir, "", n)
    else if HasSource(rp, n) then false
    else if IncompatibleFields(s[src], t[n]) then o == FieldOb(Incompatible, dir, src, n)
    else s[src].cond.Some? && t[n].cond.None? && o == FieldOb(Required, dir, src, n)
  }

  function GroupMembers(t: FieldMap, word: string, bit: nat): set<string>
  {
    set n | n in t && OnSlot(t[n], word, bit)
  }

  /** All members of a target flag group have one and the same source presence. */
  ghost predicate UniformGroup(s: FieldMap, t: FieldMap, pairs: Pairs, word: string, bit: nat)
  {
    UniformPresence(s, pairs, GroupMembers(t, word, bit))
  }

  ghost predicate UniformPresence(s: FieldMap, pairs: Pairs, members: set<string>)
  {
    forall n, m :: n in members && m in members ==>
      PresenceOf(s, SourceName(pairs, n)) == PresenceOf(s, SourceName(pairs, m))
  }

  ghost predicate GroupObligation(s: FieldMap, t: FieldMap, pairs: Pairs, dir: Direction, o: Obligation)
  {
    && o == Obligation(FlagGroup, dir, "", "", o.word, o.bit, GroupMembers(t, o.word, o.bit))
    && !UniformGroup(s, t, pairs, o.word, o.bit)
  }

  /** Everything one direction of the comparison reports. */
  ghost predicate DirectionObligation(s: FieldMap, t: FieldMap, al: Pairs, rp: Pairs, dir: Direction, o: Obligation)
  {
    if o.kind.FlagGroup? then GroupObligation(s, t, al + rp, dir, o)
    else FieldObligation(s, t, al, rp, dir, o.other, o)
  }

  /** A source field that no target field is read from. */
  ghost predicate Unpaired(s: FieldMap, t: FieldMap, pairs: Pairs, a: string)
  {
    a in s && a !in t && forall x :: x in pairs ==> x.from != a
  }

  /** Everything the comparison of two definitions reports, and nothing else. */
  ghost predicate IsObligation(c: FieldMap, p: FieldMap, resultDiffers: bool, al: Pairs, rp: Pairs, o: Obligation)
  {
    match o.kind
    case Alias => o == FieldOb(Alias, Both, o.field, o.other) && Pair(o.field, o.other) in al
    case Replacement => o == FieldOb(Replacement, Both, o.field, o.other) && Pair(o.field, o.other) in rp
    case Projection => o == FieldOb(Projection, ToProfile, o.field, "") && Unpaired(c, p, al + rp, o.field)
    case Discard => o == FieldOb(Discard, ToCanonical, o.field, "") && Unpaired(p, c, Swap(al + rp), o.field)
    case Result => resultDiffers && o == FieldOb(Result, o.direction, "", "") && !o.direction.Both?
    case _ =>
      match o.direction
      case ToProfile => DirectionObligation(c, p, al, rp, ToProfile, o)
      case ToCanonical => DirectionObligation(p, c, Swap(al), Swap(rp), ToCanonical, o)
      case Both => false
  }

  predicate ResultDiffers(c: Definition, p: Definition)
  {
    c.key.category.CategoryFunction? && c.result != p.result
  }

  /** What "nothing to decide" means for two versions of a definition. */
  ghost predicate Corresponds(c: Definition, p: Definition)
    requires UniqueNames(c.fields) && UniqueNames(p.fields)
  {
    SameFields(c, p) && !ResultDiffers(c, p)
  }

  /** Nothing to decide about the body, whatever happens to a method's result. */
  ghost predicate SameFields(c: Definition, p: Definition)
    requires UniqueNames(c.fields) && UniqueNames(p.fields)
  {
    CorrespondingFields(ValueMap(c), ValueMap(p))
  }

  ghost predicate CorrespondingFields(c: FieldMap, p: FieldMap)
  {
    && c.Keys == p.Keys
    && (forall n :: n in c ==> SameMeaning(c[n], p[n]))
    && (forall n, m :: n in c && m in c ==> (Shares(c, n, m) <==> Shares(p, n, m)))
  }

  predicate SameMeaning(f: FieldShape, g: FieldShape)
  {
    && f.ty == g.ty
    && (f.cond.Some? <==> g.cond.Some?)
    && (f.cond.Some? && g.cond.Some? ==> f.cond.value.presenceOnly == g.cond.value.presenceOnly)
  }

  predicate Shares(m: FieldMap, a: string, b: string)
    requires a in m && b in m
  {
    && m[a].cond.Some? && m[b].cond.Some?
    && m[a].cond.value.word == m[b].cond.value.word && m[a].cond.value.bit == m[b].cond.value.bit
  }

  // ---------------------------------------------------------------- lemmas about the pairing

  lemma ValueMapOrdinals(d: Definition)
    requires ValidDefinition(d)
    ensures OrdinalsUnique(ValueMap(d))
  {
    var m := ValueMap(d);
    forall a, b | a in m && b in m && m[a].ordinal == m[b].ordinal
      ensures a == b
    {
      var i :| 0 <= i < |d.fields| && d.fields[i].kind.FieldValue? && d.fields[i].name == a;
      var j :| 0 <= j < |d.fields| && d.fields[j].kind.FieldValue? && d.fields[j].name == b;
    }
  }

  /**
    Renames and slot replacements together form a partial injection between unmatched
    value fields: no field is paired twice and no field with a namesake is ever paired.
   */
  lemma PairingIsInjection(c: FieldMap, p: FieldMap, al: Pairs, rp: Pairs)
    requires OrdinalsUnique(c) && OrdinalsUnique(p) && AreAliases(c, p, al) && AreReplacements(c, p, rp)
    ensures OneToOne(al + rp) && al !! rp
    ensures forall x :: x in al + rp ==> x.from in c && x.from !in p && x.to in p && x.to !in c
  {
    forall x, y | x in al + rp && y in al + rp && (x.from == y.from || x.to == y.to)
      ensures x == y
    {
      if x.from == y.from { PairingFunctional(c, p, x.from, x.to, y.to); }
      if x.to == y.to { PairingInjective(c, p, x.from, y.from, x.to); }
    }
  }

  lemma PairingFunctional(c: FieldMap, p: FieldMap, a: string, b: string, b': string)
    requires OrdinalsUnique(p) && Paired(c, p, a, b) && Paired(c, p, a, b')
    ensures b == b'
  {
    if AliasPair(c, p, a, b) && AliasPair(c, p, a, b') {
      assert p[b].ordinal == p[b'].ordinal;
    }
  }

  lemma PairingInjective(c: FieldMap, p: FieldMap, a: string, a': string, b: string)
    requires OrdinalsUnique(c) && Paired(c, p, a, b) && Paired(c, p, a', b)
    ensures a == a'
  {
    if AliasPair(c, p, a, b) && AliasPair(c, p, a', b) {
      assert c[a].ordinal == c[a'].ordinal;
    }
  }

  // ---------------------------------------------------------------- no obligations means correspondence

  ghost predicate Silent(c: FieldMap, p: FieldMap, resultDiffers: bool, al: Pairs, rp: Pairs)
  {
    forall o :: !IsObligation(c, p, resultDiffers, al, rp, o)
  }

  /** One direction with matching names has nothing to decide. */
  ghost predicate Mechanical(s: FieldMap, t: FieldMap)
    requires s.Keys == t.Keys
  {
    && (forall n :: n in t ==> !IncompatibleFields(s[n], t[n]) && (s[n].cond.Some? ==> t[n].cond.Some?))
    && (forall n, m :: n in t && m in t && Shares(t, n, m) ==> PresenceOf(s, n) == PresenceOf(s, m))
  }

  lemma SilentDirection(s: FieldMap, t: FieldMap, dir: Direction)
    requires s.Keys == t.Keys
    requires forall o: Obligation :: !DirectionObligation(s, t, {}, {}, dir, o)
    ensures Mechanical(s, t)
  {
    var none: Pairs := {};
    assert none + none == none;
    forall n | n in t
      ensures !IncompatibleFields(s[n], t[n]) && (s[n].cond.Some? ==> t[n].cond.Some?)
    {
      assert SourceName(none + none, n) == n;
      assert !DirectionObligation(s, t, none, none, dir, FieldOb(Incompatible, dir, n, n));
      assert !DirectionObligation(s, t, none, none, dir, FieldOb(Required, dir, n, n));
    }
    forall n, m | n in t && m in t && Shares(t, n, m)
      ensures PresenceOf(s, n) == PresenceOf(s, m)
    {
      var word, bit := t[n].cond.value.word, t[n].cond.value.bit;
      assert SourceName(none, n) == n && SourceName(none, m) == m;
      assert !DirectionObligation(s, t, none, none, dir,
                                  Obligation(FlagGroup, dir, "", "", word, bit, GroupMembers(t, word, bit)));
      assert n in GroupMembers(t, word, bit) && m in GroupMembers(t, word, bit);
    }
  }

  lemma MechanicalIsSilent(s: FieldMap, t: FieldMap, dir: Direction, o: Obligation)
    requires s.Keys == t.Keys && Mechanical(s, t)
    ensures !DirectionObligation(s, t, {}, {}, dir, o)
  {
    var none: Pairs := {};
    assert none + none == none;
    if o.kind.FlagGroup? {
      forall n, m | n in GroupMembers(t, o.word, o.bit) && m in GroupMembers(t, o.word, o.bit)
        ensures PresenceOf(s, SourceName(none, n)) == PresenceOf(s, SourceName(none, m))
      {
        assert Shares(t, n, m);
        assert SourceName(none, n) == n && SourceName(none, m) == m;
      }
    } else {
      assert SourceName(none + none, o.other) == o.other;
    }
  }

  lemma MechanicalBothWays(c: FieldMap, p: FieldMap)
    requires c.Keys == p.Keys
    ensures CorrespondingFields(c, p) <==> Mechanical(c, p) && Mechanical(p, c)
  {
    if Mechanical(c, p) && Mechanical(p, c) {
      forall n, m | n in c && m in c
        ensures Shares(c, n, m) <==> Shares(p, n, m)
      {
        MechanicalShares(c, p, n, m);
        MechanicalShares(p, c, n, m);
      }
    }
    if CorrespondingFields(c, p) {
      CorrespondingMechanical(c, p);
      CorrespondingMechanical(p, c);
    }
  }

  lemma MechanicalShares(s: FieldMap, t: FieldMap, n: string, m: string)
    requires s.Keys == t.Keys && Mechanical(s, t) && Mechanical(t, s) && n in t && m in t
    ensures Shares(t, n, m) ==> Shares(s, n, m)
  {
    if Shares(t, n, m) {
      assert PresenceOf(s, n) == PresenceOf(s, m);
      assert s[n].cond.Some?;
    }
  }

  lemma CorrespondingMechanical(s: FieldMap, t: FieldMap)
    requires CorrespondingFields(s, t) || CorrespondingFields(t, s)
    ensures s.Keys == t.Keys && Mechanical(s, t)
  {
    forall n, m | n in t && m in t && Shares(t, n, m)
      ensures PresenceOf(s, n) == PresenceOf(s, m)
    {
      assert Shares(s, n, m);
    }
  }

  lemma SilentNames(c: FieldMap, p: FieldMap, rd: bool, al: Pairs, rp: Pairs)
    requires Silent(c, p, rd, al, rp)
    ensures al == {} && rp == {} && c.Keys == p.Keys && !rd
  {
    assert !IsObligation(c, p, rd, al, rp, FieldOb(Result, ToProfile, "", ""));
    forall x ensures x !in al {
      assert !IsObligation(c, p, rd, al, rp, FieldOb(Alias, Both, x.from, x.to));
    }
    forall x ensures x !in rp {
      assert !IsObligation(c, p, rd, al, rp, FieldOb(Replacement, Both, x.from, x.to));
    }
    forall n ensures n in c ==> n in p {
      assert !IsObligation(c, p, rd, al, rp, FieldOb(Projection, ToProfile, n, ""));
    }
    forall n ensures n in p ==> n in c {
      assert !IsObligation(c, p, rd, al, rp, FieldOb(Discard, ToCanonical, n, ""));
    }
  }

  lemma SilentImplies(c: FieldMap, p: FieldMap, rd: bool, al: Pairs, rp: Pairs)
    requires Silent(c, p, rd, al, rp)
    ensures CorrespondingFields(c, p) && !rd
  {
    SilentNames(c, p, rd, al, rp);
    assert Swap(al) == {} && Swap(rp) == {};
    forall o: Obligation ensures !DirectionObligation(c, p, {}, {}, ToProfile, o) {
      assert !IsObligation(c, p, rd, al, rp, o);
    }
    forall o: Obligation ensures !DirectionObligation(p, c, {}, {}, ToCanonical, o) {
      assert !IsObligation(c, p, rd, al, rp, o);
    }
    SilentDirection(c, p, ToProfile);
    SilentDirection(p, c, ToCanonical);
    MechanicalBothWays(c, p);
  }

  lemma CorrespondingSilent(c: FieldMap, p: FieldMap, al: Pairs, rp: Pairs)
    requires AreAliases(c, p, al) && AreReplacements(c, p, rp) && CorrespondingFields(c, p)
    ensures Silent(c, p, false, al, rp)
  {
    assert al == {};
    assert rp == {};
    assert Swap(al) == {} && Swap(rp) == {} && Swap(al + rp) == {};
    MechanicalBothWays(c, p);
    forall o: Obligation ensures !IsObligation(c, p, false, al, rp, o) {
      MechanicalIsSilent(c, p, ToProfile, o);
      MechanicalIsSilent(p, c, ToCanonical, o);
    }
  }

  /**
    The comparison is silent if and only if the value fields correspond one to one by name
    with equal type, optionality and presence-only status, and two fields share a flag bit
    on one side exactly when they share one on the other; bit numbers may differ.
   */
  lemma SilentIffCorresponds(c: Definition, p: Definition, al: Pairs, rp: Pairs)
    requires UniqueNames(c.fields) && UniqueNames(p.fields)
    requires AreAliases(ValueMap(c), ValueMap(p), al) && AreReplacements(ValueMap(c), ValueMap(p), rp)
    ensures Silent(ValueMap(c), ValueMap(p), ResultDiffers(c, p), al, rp) <==> Corresponds(c, p)
  {
    if Silent(ValueMap(c), ValueMap(p), ResultDiffers(c, p), al, rp) {
      SilentImplies(ValueMap(c), ValueMap(p), ResultDiffers(c, p), al, rp);
    }
    if Corresponds(c, p) {
      CorrespondingSilent(ValueMap(c), ValueMap(p), al, rp);
    }
  }

  /** `BodyObligations` of a family present on both sides: everything but the decision about a method's result. */
  ghost predicate IsBodyObligation(c: Definition, p: Definition, al: Pairs, rp: Pairs, o: Obligation)
    requires UniqueNames(c.fields) && UniqueNames(p.fields)
  {
    !o.kind.Result? && IsObligation(ValueMap(c), ValueMap(p), ResultDiffers(c, p), al, rp, o)
  }

  /** A family has a mechanical body codec exactly when its value fields correspond, even if its result changed. */
  lemma BodySilentIffSameFields(c: Definition, p: Definition, al: Pairs, rp: Pairs)
    requires UniqueNames(c.fields) && UniqueNames(p.fields)
    requires AreAliases(ValueMap(c), ValueMap(p), al) && AreReplacements(ValueMap(c), ValueMap(p), rp)
    ensures (forall o :: !IsBodyObligation(c, p, al, rp, o)) <==> SameFields(c, p)
  {
    var cm, pm := ValueMap(c), ValueMap(p);
    if forall o :: !IsBodyObligation(c, p, al, rp, o) {
      forall o: Obligation ensures !IsObligation(cm, pm, false, al, rp, o) {
        assert !IsBodyObligation(c, p, al, rp, o);
        ResultApart(cm, pm, ResultDiffers(c, p), al, rp, o);
      }
      SilentImplies(cm, pm, false, al, rp);
    }
    if SameFields(c, p) {
      CorrespondingSilent(cm, pm, al, rp);
      forall o: Obligation ensures !IsBodyObligation(c, p, al, rp, o) {
        assert !IsObligation(cm, pm, false, al, rp, o);
        ResultApart(cm, pm, ResultDiffers(c, p), al, rp, o);
      }
    }
  }

  lemma ResultApart(c: FieldMap, p: FieldMap, rd: bool, al: Pairs, rp: Pairs, o: Obligation)
    ensures IsObligation(c, p, false, al, rp, o) <==> !o.kind.Result? && IsObligation(c, p, rd, al, rp, o)
  {
  }

  // ---------------------------------------------------------------- the comparison itself

  method ValueFieldMap(d: Definition) returns (m: FieldMap)
    requires UniqueNames(d.fields)
    ensures m == ValueMap(d)
  {
    m := map[];
    for i := 0 to |d.fields|
      invariant forall n :: n in m <==> exists j :: 0 <= j < i && d.fields[j].kind.FieldValue? && d.fields[j].name == n
      invariant forall j :: 0 <= j < i && d.fields[j].kind.FieldValue? ==> m[d.fields[j].name] == d.fields[j]
    {
      if d.fields[i].kind.FieldValue? {
        m := m[d.fields[i].name := d.fields[i]];
      }
    }
  }

  /** Value fields of one side without a namesake on the other, in order. */
  method OnlyIn(d: Definition, ghost m: FieldMap, other: FieldMap) returns (only: seq<FieldShape>)
    requires ValidDefinition(d) && Holds(d, m)
    ensures forall f :: f in only <==> f.name in m && f == m[f.name] && f.name !in other
    ensures forall i, j :: 0 <= i < j < |only| ==> only[i].ordinal < only[j].ordinal
  {
    only := [];
    for i := 0 to |d.fields|
      invariant forall f :: f in only <==> f in d.fields[..i] && f.kind.FieldValue? && f.name !in other
      invariant forall k :: 0 <= k < |only| ==> only[k].ordinal < i
      invariant forall k, j :: 0 <= k < j < |only| ==> only[k].ordinal < only[j].ordinal
    {
      assert d.fields[..i + 1] == d.fields[..i] + [d.fields[i]];
      if d.fields[i].kind.FieldValue? && d.fields[i].name !in other {
        only := only + [d.fields[i]];
      }
    }
    assert d.fields[..|d.fields|] == d.fields;
  }

  predicate Candidate(f: FieldShape, g: FieldShape, used: set<string>)
  {
    g.name !in used && AliasCompatible(f, g)
  }

  /** The single unused candidate; an ambiguous choice is never guessed. */
  method FindMatch(f: FieldShape, candidates: seq<FieldShape>, used: set<string>) returns (r: Option<string>)
    ensures r.Some? ==> exists i :: 0 <= i < |candidates| && Candidate(f, candidates[i], used)
                          && candidates[i].name == r.value
                          && forall j :: 0 <= j < |candidates| && Candidate(f, candidates[j], used) ==> j == i
    ensures r.None? ==> NoCandidate(f, candidates, used) || TwoCandidates(f, candidates, used)
  {
    r := None;
    ghost var at := 0;
    for i := 0 to |candidates|
      invariant r.Some? ==> at < i && Candidate(f, candidates[at], used) && candidates[at].name == r.value
                            && forall j :: 0 <= j < i && Candidate(f, candidates[j], used) ==> j == at
      invariant r.None? ==> forall j :: 0 <= j < i ==> !Candidate(f, candidates[j], used)
    {
      if !Candidate(f, candidates[i], used) { continue; }
      if r.Some? {
        return None;
      }
      r, at := Some(candidates[i].name), i;
    }
  }

  method FindFieldAliases(c: Definition, p: Definition) returns (aliases: Pairs)
    requires ValidDefinition(c) && ValidDefinition(p)
    ensures AreAliases(ValueMap(c), ValueMap(p), aliases)
    ensures forall x :: x in aliases <==> exists i :: RenamedAt(c, p, i, x)
  {
    var cm := ValueFieldMap(c);
    var pm := ValueFieldMap(p);
    ValueMapHolds(c);
    ValueMapHolds(p);
    var canonicalOnly := OnlyIn(c, cm, pm);
    var profileOnly := OnlyIn(p, pm, cm);
    OnlyInIs(c, pm, canonicalOnly);
    OnlyInIs(p, cm, profileOnly);
    aliases := MatchAliases(cm, pm, canonicalOnly, profileOnly);
    AliasesAreRenames(c, p, aliases);
  }

  method MatchAliases(ghost cm: FieldMap, ghost pm: FieldMap, canonicalOnly: seq<FieldShape>,
                      profileOnly: seq<FieldShape>)
    returns (aliases: Pairs)
    requires IsOnly(cm, pm, canonicalOnly) && IsOnly(pm, cm, profileOnly)
    ensures AreAliases(cm, pm, aliases)
  {
    aliases := {};
    var used := {};
    AliasStart(cm, pm, canonicalOnly);
    for i := 0 to |canonicalOnly|
      invariant AliasState(cm, pm, canonicalOnly, i, aliases) && used == Targets(aliases)
    {
      var f := canonicalOnly[i];
      var match_ := FindMatch(f, profileOnly, used);
      AliasStep(cm, pm, canonicalOnly, i, profileOnly, aliases, match_);
      if match_.Some? {
        used := used + {match_.value};
        aliases := aliases + {Pair(f.name, match_.value)};
      }
    }
    AliasEnd(cm, pm, canonicalOnly, aliases);
  }

  /** `only` lists the fields of `m` missing from `other`, in the order of their ordinals. */
  ghost predicate IsOnly(m: FieldMap, other: FieldMap, only: seq<FieldShape>)
  {
    && OrdinalsUnique(m)
    && (forall n :: n in m ==> m[n].name == n)
    && (forall f :: f in only <==> f.name in m && f == m[f.name] && f.name !in other)
    && (forall i, j :: 0 <= i < j < |only| ==> only[i].ordinal < only[j].ordinal)
  }

  lemma OnlyInIs(d: Definition, other: FieldMap, only: seq<FieldShape>)
    requires ValidDefinition(d)
    requires forall f :: f in only <==> f.name in ValueMap(d) && f == ValueMap(d)[f.name] && f.name !in other
    requires forall i, j :: 0 <= i < j < |only| ==> only[i].ordinal < only[j].ordinal
    ensures IsOnly(ValueMap(d), other, only)
  {
    ValueMapOrdinals(d);
  }

  function Sources(s: Pairs): set<string>
  {
    set x | x in s :: x.from
  }

  function Targets(s: Pairs): set<string>
  {
    set x | x in s :: x.to
  }

  /** After `i` canonical fields, exactly their renames have been found. */
  ghost predicate AliasState(cm: FieldMap, pm: FieldMap, only: seq<FieldShape>, i: nat, aliases: Pairs)
    requires i <= |only|
  {
    forall x: Pair :: x in aliases <==>
      (AliasPair(cm, pm, x.from, x.to) && exists k :: 0 <= k < i && only[k].name == x.from)
  }

  lemma AliasStart(cm: FieldMap, pm: FieldMap, only: seq<FieldShape>)
    ensures AliasState(cm, pm, only, 0, {})
  {
  }

  lemma AliasEnd(cm: FieldMap, pm: FieldMap, only: seq<FieldShape>, aliases: Pairs)
    requires IsOnly(cm, pm, only) && AliasState(cm, pm, only, |only|, aliases)
    ensures AreAliases(cm, pm, aliases)
  {
    forall x: Pair | AliasPair(cm, pm, x.from, x.to)
      ensures x in aliases
    {
      assert cm[x.from] in only;
    }
  }

  ghost predicate NoCandidate(f: FieldShape, gs: seq<FieldShape>, used: set<string>)
  {
    forall k :: 0 <= k < |gs| ==> !Candidate(f, gs[k], used)
  }

  ghost predicate TwoCandidates(f: FieldShape, gs: seq<FieldShape>, used: set<string>)
  {
    exists k, j :: 0 <= k < j < |gs| && Candidate(f, gs[k], used) && Candidate(f, gs[j], used)
  }

  /** Ordinals make candidates unique, so the guard against ambiguity never loses a rename. */
  lemma AliasStep(cm: FieldMap, pm: FieldMap, only: seq<FieldShape>, i: nat, profileOnly: seq<FieldShape>,
                  aliases: Pairs, m: Option<string>)
    requires IsOnly(cm, pm, only) && IsOnly(pm, cm, profileOnly) && i < |only|
    requires AliasState(cm, pm, only, i, aliases)
    requires m.Some? ==> exists k :: 0 <= k < |profileOnly| && Candidate(only[i], profileOnly[k], Targets(aliases))
                           && profileOnly[k].name == m.value
    requires m.None? ==> NoCandidate(only[i], profileOnly, Targets(aliases)) ||
                         TwoCandidates(only[i], profileOnly, Targets(aliases))
    ensures AliasState(cm, pm, only, i + 1, aliases + (if m.Some? then {Pair(only[i].name, m.value)} else {}))
  {
    var f := only[i];
    assert f in only;
    assert !TwoCandidates(f, profileOnly, Targets(aliases));
    if m.Some? {
      var k :| 0 <= k < |profileOnly| && Candidate(f, profileOnly[k], Targets(aliases)) &&
        profileOnly[k].name == m.value;
      assert profileOnly[k] in profileOnly;
      assert AliasPair(cm, pm, f.name, m.value);
    }
    forall b | AliasPair(cm, pm, f.name, b)
      ensures m == Some(b)
    {
      RenameUnused(cm, pm, only, i, aliases, b);
      assert pm[b] in profileOnly;
      var k :| 0 <= k < |profileOnly| && profileOnly[k] == pm[b];
      assert Candidate(f, profileOnly[k], Targets(aliases));
      if m.Some? {
        assert pm[m.value].ordinal == pm[b].ordinal;
      }
    }
  }

  lemma RenameUnused(cm: FieldMap, pm: FieldMap, only: seq<FieldShape>, i: nat, aliases: Pairs, b: string)
    requires IsOnly(cm, pm, only) && i < |only| && AliasState(cm, pm, only, i, aliases)
    requires AliasPair(cm, pm, only[i].name, b)
    ensures b !in Targets(aliases)
  {
    forall x: Pair | x in aliases
      ensures x.to != b
    {
      var k :| 0 <= k < i && only[k].name == x.from;
      assert only[k] in only && only[i] in only;
      assert only[k].ordinal < only[i].ordinal;
    }
  }

  // ---------------------------------------------------------------- renames told by the fields

  ghost predicate HasValueField(d: Definition, name: string)
  {
    exists i :: 0 <= i < |d.fields| && d.fields[i].kind.FieldValue? && d.fields[i].name == name
  }

  /**
    The fields at position `i` have different names that nothing else carries, one type, and are
    both unconditional or both conditional and equally presence-only.
   */
  ghost predicate RenamedAt(c: Definition, p: Definition, i: int, x: Pair)
  {
    && 0 <= i < |c.fields| && i < |p.fields|
    && c.fields[i].kind.FieldValue? && p.fields[i].kind.FieldValue?
    && x.from == c.fields[i].name && x.to == p.fields[i].name
    && !HasValueField(p, x.from) && !HasValueField(c, x.to)
    && c.fields[i].ty == p.fields[i].ty
    && match (c.fields[i].cond, p.fields[i].cond)
       case (None, None) => true
       case (Some(a), Some(b)) => a.presenceOnly == b.presenceOnly
       case _ => false
  }

  lemma NamesAreFields(d: Definition, name: string)
    requires ValidDefinition(d)
    ensures name in ValueMap(d) <==> HasValueField(d, name)
  {
    ValueMapFacts(d);
  }

  lemma AliasIsRename(c: Definition, p: Definition, x: Pair)
    requires ValidDefinition(c) && ValidDefinition(p)
    ensures AliasPair(ValueMap(c), ValueMap(p), x.from, x.to) <==> exists i :: RenamedAt(c, p, i, x)
  {
    var cm, pm := ValueMap(c), ValueMap(p);
    ValueMapHolds(c);
    ValueMapHolds(p);
    NamesAreFields(p, x.from);
    NamesAreFields(c, x.to);
    if AliasPair(cm, pm, x.from, x.to) {
      assert RenamedAt(c, p, cm[x.from].ordinal, x);
    }
    if i :| RenamedAt(c, p, i, x) {
      assert cm[x.from] == c.fields[i] && pm[x.to] == p.fields[i];
    }
  }

  lemma AliasesAreRenames(c: Definition, p: Definition, al: Pairs)
    requires ValidDefinition(c) && ValidDefinition(p) && AreAliases(ValueMap(c), ValueMap(p), al)
    ensures forall x :: x in al <==> exists i :: RenamedAt(c, p, i, x)
  {
    forall x ensures x in al <==> exists i :: RenamedAt(c, p, i, x) { AliasIsRename(c, p, x); }
  }

  /** No renamed field is reported as incompatible or required, in either direction. */
  lemma RenamedIsMechanical(c: Definition, p: Definition, al: Pairs, rp: Pairs, x: Pair, o: Obligation)
    requires ValidDefinition(c) && ValidDefinition(p)
    requires AreAliases(ValueMap(c), ValueMap(p), al) && AreReplacements(ValueMap(c), ValueMap(p), rp)
    requires x in al && (o.kind.Incompatible? || o.kind.Required?)
    requires IsObligation(ValueMap(c), ValueMap(p), ResultDiffers(c, p), al, rp, o)
    ensures o.direction.ToProfile? ==> o.other != x.to
    ensures o.direction.ToCanonical? ==> o.other != x.from
  {
    var cm, pm := ValueMap(c), ValueMap(p);
    ValueMapOrdinals(c);
    ValueMapOrdinals(p);
    PairingIsInjection(cm, pm, al, rp);
    SwapUnion(al, rp);
    SourceNameIs(al + rp, x.to);
    SourceNameIs(Swap(al) + Swap(rp), x.from);
    assert HasSource(al + rp, x.to);
    assert Pair(x.to, x.from) in Swap(al);
    assert HasSource(Swap(al) + Swap(rp), x.from);
  }

  /** Nor is a field that takes the flag slot of another. */
  lemma ReplacedIsMechanical(c: Definition, p: Definition, al: Pairs, rp: Pairs, x: Pair, o: Obligation)
    requires ValidDefinition(c) && ValidDefinition(p)
    requires AreAliases(ValueMap(c), ValueMap(p), al) && AreReplacements(ValueMap(c), ValueMap(p), rp)
    requires x in rp && (o.kind.Incompatible? || o.kind.Required?)
    requires IsObligation(ValueMap(c), ValueMap(p), ResultDiffers(c, p), al, rp, o)
    ensures o.direction.ToProfile? ==> o.other != x.to
    ensures o.direction.ToCanonical? ==> o.other != x.from
  {
    var cm, pm := ValueMap(c), ValueMap(p);
    ValueMapOrdinals(c);
    ValueMapOrdinals(p);
    PairingIsInjection(cm, pm, al, rp);
    SwapUnion(al, rp);
    SourceNameIs(al + rp, x.to);
    SourceNameIs(Swap(al) + Swap(rp), x.from);
    assert HasSource(rp, x.to);
    assert Pair(x.to, x.from) in Swap(rp);
    assert HasSource(Swap(rp), x.from);
  }

  /** Only a mandatory field is required: one that the target has no bit for. */
  lemma RequiredIsMandatory(c: Definition, p: Definition, al: Pairs, rp: Pairs, o: Obligation)
    requires ValidDefinition(c) && ValidDefinition(p) && o.kind.Required?
    requires IsObligation(ValueMap(c), ValueMap(p), ResultDiffers(c, p), al, rp, o)
    ensures var t := if o.direction.ToProfile? then p else c;
            exists i :: 0 <= i < |t.fields| && t.fields[i].kind.FieldValue? && t.fields[i].name == o.other &&
                        t.fields[i].cond.None?
  {
    ValueMapHolds(c);
    ValueMapHolds(p);
    var t := if o.direction.ToProfile? then p else c;
    assert t.fields[ValueMap(t)[o.other].ordinal].cond.None?;
  }

  // ---------------------------------------------------------------- split groups and changed results

  /** Where two members of a target group are read from: one source is absent, or they have different conditions. */
  ghost predicate Apart(s: FieldMap, n: string, m: string)
  {
    || (n in s) != (m in s)
    || (n in s && m in s && match (s[n].cond, s[m].cond)
                            case (None, None) => false
                            case (Some(a), Some(b)) => a.word != b.word || a.bit != b.bit
                            case _ => true)
  }

  /**
    A target flag group is reported exactly when two fields on its bit are read from sources that
    can differ in presence.
   */
  lemma GroupReportedIffApart(s: FieldMap, t: FieldMap, pairs: Pairs, dir: Direction, o: Obligation)
    requires o.kind.FlagGroup?
    ensures GroupObligation(s, t, pairs, dir, o) <==>
            && o == Obligation(FlagGroup, dir, "", "", o.word, o.bit, GroupMembers(t, o.word, o.bit))
            && exists n, m :: n in t && m in t && OnSlot(t[n], o.word, o.bit) && OnSlot(t[m], o.word, o.bit) &&
                              Apart(s, SourceName(pairs, n), SourceName(pairs, m))
  {
    forall n, m
      ensures Apart(s, SourceName(pairs, n), SourceName(pairs, m)) <==>
              PresenceOf(s, SourceName(pairs, n)) != PresenceOf(s, SourceName(pairs, m))
    {
    }
  }

  // ---------------------------------------------------------------- flag slot replacements

  datatype SlotKey = SlotKey(word: string, bit: nat)
  type Groups = map<SlotKey, set<string>>

  predicate InGroup(g: Groups, k: SlotKey, n: string)
  {
    k in g && n in g[k]
  }

  /** Unmatched, unpaired conditional fields of one side, grouped by flag slot. */
  method FreeBySlot(d: Definition, ghost m: FieldMap, other: FieldMap, paired: set<string>) returns (groups: Groups)
    requires ValidDefinition(d) && Holds(d, m)
    ensures forall k, n :: InGroup(groups, k, n) <==>
              (n in m && n !in other && n !in paired && OnSlot(m[n], k.word, k.bit))
  {
    groups := map[];
    for i := 0 to |d.fields|
      invariant forall k, n :: InGroup(groups, k, n) <==>
                  exists j :: 0 <= j < i && FreeField(d.fields[j], other, paired, k) && d.fields[j].name == n
    {
      var f := d.fields[i];
      if f.kind.FieldFlagsWord? || f.cond.None? || f.name in other || f.name in paired { continue; }
      var key := SlotKey(f.cond.value.word, f.cond.value.bit);
      ghost var before := groups;
      groups := groups[key := (if key in groups then groups[key] else {}) + {f.name}];
      assert forall k, n :: InGroup(groups, k, n) <==> InGroup(before, k, n) || (k == key && n == f.name);
    }
    forall k, n
      ensures InGroup(groups, k, n) <==> (n in m && n !in other && n !in paired && OnSlot(m[n], k.word, k.bit))
    {
      if n in m && n !in other && n !in paired && OnSlot(m[n], k.word, k.bit) {
        assert FreeField(d.fields[m[n].ordinal], other, paired, k);
      }
    }
  }

  predicate FreeField(f: FieldShape, other: FieldMap, paired: set<string>, k: SlotKey)
  {
    f.kind.FieldValue? && f.name !in other && f.name !in paired && OnSlot(f, k.word, k.bit)
  }

  method FindFieldReplacements(c: Definition, p: Definition, aliases: Pairs) returns (result: Pairs)
    requires ValidDefinition(c) && ValidDefinition(p)
    requires AreAliases(ValueMap(c), ValueMap(p), aliases)
    ensures AreReplacements(ValueMap(c), ValueMap(p), result)
  {
    var cm := ValueFieldMap(c);
    var pm := ValueFieldMap(p);
    ValueMapHolds(c);
    ValueMapHolds(p);
    var canonical := FreeBySlot(c, cm, pm, Sources(aliases));
    var profile := FreeBySlot(p, pm, cm, Targets(aliases));
    FreeGroups(cm, pm, aliases, canonical, profile);
    result := SingletonGroups(canonical, profile);
    ReplacementsFromGroups(cm, pm, canonical, profile, result);
  }

  /** The grouped candidates are exactly the free fields of the specification. */
  ghost predicate GroupsAreFree(cm: FieldMap, pm: FieldMap, canonical: Groups, profile: Groups)
  {
    && (forall k, n :: InGroup(canonical, k, n) <==> FreeCanonical(cm, pm, n, k.word, k.bit))
    && (forall k, n :: InGroup(profile, k, n) <==> FreeProfile(cm, pm, n, k.word, k.bit))
  }

  lemma AliasEnds(cm: FieldMap, pm: FieldMap, aliases: Pairs, n: string)
    requires AreAliases(cm, pm, aliases)
    ensures n in Sources(aliases) <==> exists b :: AliasPair(cm, pm, n, b)
    ensures n in Targets(aliases) <==> exists a :: AliasPair(cm, pm, a, n)
  {
    if b :| AliasPair(cm, pm, n, b) { assert Pair(n, b) in aliases; }
    if a :| AliasPair(cm, pm, a, n) { assert Pair(a, n) in aliases; }
  }

  lemma FreeGroups(cm: FieldMap, pm: FieldMap, aliases: Pairs, canonical: Groups, profile: Groups)
    requires AreAliases(cm, pm, aliases)
    requires forall k, n :: InGroup(canonical, k, n) <==>
               (n in cm && n !in pm && n !in Sources(aliases) && OnSlot(cm[n], k.word, k.bit))
    requires forall k, n :: InGroup(profile, k, n) <==>
               (n in pm && n !in cm && n !in Targets(aliases) && OnSlot(pm[n], k.word, k.bit))
    ensures GroupsAreFree(cm, pm, canonical, profile)
  {
    forall k, n
      ensures InGroup(canonical, k, n) <==> FreeCanonical(cm, pm, n, k.word, k.bit)
    {
      AliasEnds(cm, pm, aliases, n);
    }
    forall k, n
      ensures InGroup(profile, k, n) <==> FreeProfile(cm, pm, n, k.word, k.bit)
    {
      AliasEnds(cm, pm, aliases, n);
    }
  }

  predicate SinglePair(canonical: Groups, profile: Groups, k: SlotKey, x: Pair)
  {
    k in canonical && k in profile && canonical[k] == {x.from} && profile[k] == {x.to}
  }

  method SingletonGroups(canonical: Groups, profile: Groups) returns (result: Pairs)
    ensures forall x :: x in result <==> exists k :: SinglePair(canonical, profile, k, x)
  {
    result := {};
    var todo := canonical.Keys;
    while todo != {}
      invariant todo <= canonical.Keys
      invariant forall x :: x in result <==> exists k :: k !in todo && SinglePair(canonical, profile, k, x)
      decreases |todo|
    {
      var k :| k in todo;
      todo := todo - {k};
      if k in profile && |canonical[k]| == 1 && |profile[k]| == 1 {
        var a :| a in canonical[k];
        var b :| b in profile[k];
        SingletonSet(canonical[k], a);
        SingletonSet(profile[k], b);
        result := result + {Pair(a, b)};
        assert SinglePair(canonical, profile, k, Pair(a, b));
      }
    }
  }

  lemma SingletonSet(s: set<string>, a: string)
    requires |s| == 1 && a in s
    ensures s == {a}
  {
    assert |s - {a}| == 0;
  }

  lemma ReplacementsFromGroups(cm: FieldMap, pm: FieldMap, canonical: Groups, profile: Groups, result: Pairs)
    requires GroupsAreFree(cm, pm, canonical, profile)
    requires forall x :: x in result <==> exists k :: SinglePair(canonical, profile, k, x)
    ensures AreReplacements(cm, pm, result)
  {
    forall x: Pair
      ensures x in result <==> ReplacementPair(cm, pm, x.from, x.to)
    {
      if x in result {
        var k :| SinglePair(canonical, profile, k, x);
        assert InGroup(canonical, k, x.from) && InGroup(profile, k, x.to);
        forall y | FreeCanonical(cm, pm, y, k.word, k.bit) ensures y == x.from {
          assert InGroup(canonical, k, y);
        }
        forall y | FreeProfile(cm, pm, y, k.word, k.bit) ensures y == x.to {
          assert InGroup(profile, k, y);
        }
        assert ReplacementOn(cm, pm, x.from, x.to, k.word, k.bit);
      }
      if ReplacementPair(cm, pm, x.from, x.to) {
        var k := SlotKey(cm[x.from].cond.value.word, cm[x.from].cond.value.bit);
        ReplacementIsSingle(cm, pm, canonical, profile, k, x);
      }
    }
  }

  lemma ReplacementIsSingle(cm: FieldMap, pm: FieldMap, canonical: Groups, profile: Groups, k: SlotKey, x: Pair)
    requires GroupsAreFree(cm, pm, canonical, profile) && ReplacementOn(cm, pm, x.from, x.to, k.word, k.bit)
    ensures SinglePair(canonical, profile, k, x)
  {
    assert InGroup(canonical, k, x.from) && InGroup(profile, k, x.to);
    forall y | y in canonical[k] ensures y == x.from { assert InGroup(canonical, k, y); }
    forall y | y in profile[k] ensures y == x.to { assert InGroup(profile, k, y); }
  }

  // ---------------------------------------------------------------- one direction

  ghost predicate SingleSource(pairs: Pairs)
  {
    forall x, y :: x in pairs && y in pairs && x.to == y.to ==> x == y
  }

  /** The search over one pairing for the source of a target field. */
  method FindSource(pairs: Pairs, n: string) returns (r: Option<string>)
    requires SingleSource(pairs)
    ensures r.Some? <==> HasSource(pairs, n)
    ensures r.Some? ==> r.value == SourceName(pairs, n) && Pair(r.value, n) in pairs
  {
    r := None;
    var todo := pairs;
    while todo != {}
      invariant todo <= pairs
      invariant forall x :: x in pairs && x.to == n ==> x in todo
      decreases |todo|
    {
      var x :| x in todo;
      if x.to == n { return Some(x.from); }
      todo := todo - {x};
    }
  }

  /** Renames first, replacements override: together the source in the combined pairing. */
  method SourceOf(al: Pairs, rp: Pairs, n: string) returns (src: string, replaced: bool)
    requires SingleSource(al + rp)
    ensures src == SourceName(al + rp, n)
    ensures replaced == HasSource(rp, n)
  {
    src, replaced := n, false;
    var a := FindSource(al, n);
    if a.Some? { src := a.value; }
    var r := FindSource(rp, n);
    if r.Some? { src, replaced := r.value, true; }
    assert r.Some? ==> Pair(r.value, n) in al + rp;
    assert a.Some? ==> Pair(a.value, n) in al + rp;
  }

  method CompareFields(s: FieldMap, t: Definition, ghost m: FieldMap, al: Pairs, rp: Pairs, dir: Direction)
    returns (obs: set<Obligation>)
    requires ValidDefinition(t) && Holds(t, m) && SingleSource(al + rp)
    ensures forall o :: o in obs <==> FieldObligation(s, m, al, rp, dir, o.other, o)
  {
    obs := {};
    for i := 0 to |t.fields|
      invariant forall o :: o in obs <==> FieldObligation(s, m, al, rp, dir, o.other, o) && m[o.other].ordinal < i
    {
      var f := t.fields[i];
      if f.kind.FieldFlagsWord? { continue; }
      assert m[f.name] == f;
      var src, replaced := SourceOf(al, rp, f.name);
      if src !in s {
        if f.cond.None? { obs := obs + {FieldOb(Required, dir, "", f.name)}; }
      } else if !replaced {
        if IncompatibleFields(s[src], f) {
          obs := obs + {FieldOb(Incompatible, dir, src, f.name)};
        } else if s[src].cond.Some? && f.cond.None? {
          obs := obs + {FieldOb(Required, dir, src, f.name)};
        }
      }
    }
  }

  method GroupBySlot(t: Definition) returns (groups: Groups)
    requires ValidDefinition(t)
    ensures forall k, n :: InGroup(groups, k, n) <==> n in GroupMembers(ValueMap(t), k.word, k.bit)
  {
    ValueMapHolds(t);
    groups := FreeBySlot(t, ValueMap(t), map[], {});
  }

  method GroupUniform(s: FieldMap, al: Pairs, rp: Pairs, members: set<string>) returns (uniform: bool)
    requires SingleSource(al + rp)
    ensures uniform <==> UniformPresence(s, al + rp, members)
  {
    uniform := true;
    if members == {} { return; }
    var first :| first in members;
    var src, _ := SourceOf(al, rp, first);
    var expected := PresenceOf(s, src);
    var todo := members;
    while todo != {}
      invariant todo <= members
      invariant uniform <==> forall n :: n in members - todo ==> PresenceOf(s, SourceName(al + rp, n)) == expected
      decreases |todo|
    {
      var n :| n in todo;
      todo := todo - {n};
      var src, _ := SourceOf(al, rp, n);
      if PresenceOf(s, src) != expected { uniform := false; }
    }
    assert members - todo == members;
  }

  method CompareGroups(s: FieldMap, t: Definition, al: Pairs, rp: Pairs, dir: Direction) returns (obs: set<Obligation>)
    requires ValidDefinition(t) && SingleSource(al + rp)
    ensures forall o :: o in obs <==> GroupObligation(s, ValueMap(t), al + rp, dir, o)
  {
    var groups := GroupBySlot(t);
    ghost var tm := ValueMap(t);
    forall k | k in groups ensures groups[k] == GroupMembers(tm, k.word, k.bit) {
      assert forall n :: InGroup(groups, k, n) <==> n in GroupMembers(tm, k.word, k.bit);
    }
    var mixed := MixedGroups(s, al, rp, groups);
    obs := set k | k in mixed :: Obligation(FlagGroup, dir, "", "", k.word, k.bit, groups[k]);
    forall o: Obligation ensures o in obs <==> GroupObligation(s, tm, al + rp, dir, o) {
      GroupReported(s, tm, al + rp, dir, groups, mixed, o);
    }
  }

  lemma GroupReported(s: FieldMap, t: FieldMap, pairs: Pairs, dir: Direction, groups: Groups, mixed: set<SlotKey>,
                      o: Obligation)
    requires forall k, n :: InGroup(groups, k, n) <==> n in GroupMembers(t, k.word, k.bit)
    requires forall k :: k in groups ==> groups[k] == GroupMembers(t, k.word, k.bit)
    requires forall k :: k in mixed <==> k in groups && !UniformPresence(s, pairs, groups[k])
    ensures o in (set k | k in mixed :: Obligation(FlagGroup, dir, "", "", k.word, k.bit, groups[k])) <==>
            GroupObligation(s, t, pairs, dir, o)
  {
    if GroupObligation(s, t, pairs, dir, o) {
      var n :| n in GroupMembers(t, o.word, o.bit);
      assert InGroup(groups, SlotKey(o.word, o.bit), n);
      assert SlotKey(o.word, o.bit) in mixed;
    }
  }

  method MixedGroups(s: FieldMap, al: Pairs, rp: Pairs, groups: Groups) returns (mixed: set<SlotKey>)
    requires SingleSource(al + rp)
    ensures forall k :: k in mixed <==> k in groups && !UniformPresence(s, al + rp, groups[k])
  {
    mixed := {};
    var todo := groups.Keys;
    while todo != {}
      invariant todo <= groups.Keys
      invariant forall k :: k in mixed <==> k in groups && k !in todo && !UniformPresence(s, al + rp, groups[k])
      decreases |todo|
    {
      var k :| k in todo;
      todo := todo - {k};
      var uniform := GroupUniform(s, al, rp, groups[k]);
      if !uniform { mixed := mixed + {k}; }
    }
  }

  method CompareDirection(s: FieldMap, t: Definition, al: Pairs, rp: Pairs, dir: Direction)
    returns (obs: set<Obligation>)
    requires ValidDefinition(t) && SingleSource(al + rp)
    ensures forall o :: o in obs <==> DirectionObligation(s, ValueMap(t), al, rp, dir, o)
  {
    ValueMapHolds(t);
    var fields := CompareFields(s, t, ValueMap(t), al, rp, dir);
    var groups := CompareGroups(s, t, al, rp, dir);
    obs := fields + groups;
  }

  /** Projections of canonical fields or discards of profile fields, depending on the direction. */
  method UnpairedFields(s: Definition, t: FieldMap, pairs: Pairs, kind: Kind, dir: Direction)
    returns (obs: set<Obligation>)
    requires ValidDefinition(s)
    ensures forall o :: o in obs <==> UnpairedReported(ValueMap(s), t, pairs, kind, dir, o)
  {
    ValueMapHolds(s);
    var names := UnpairedNames(s, ValueMap(s), t, pairs);
    obs := set n | n in names :: FieldOb(kind, dir, n, "");
  }

  method UnpairedNames(s: Definition, ghost m: FieldMap, t: FieldMap, pairs: Pairs) returns (names: set<string>)
    requires ValidDefinition(s) && Holds(s, m)
    ensures forall n :: n in names <==> Unpaired(m, t, pairs, n)
  {
    names := {};
    for i := 0 to |s.fields|
      invariant forall n :: n in names <==> n in m && n !in t && n !in Sources(pairs) && m[n].ordinal < i
    {
      var f := s.fields[i];
      if f.kind.FieldFlagsWord? || f.name in t || f.name in Sources(pairs) { continue; }
      assert m[f.name] == f;
      names := names + {f.name};
    }
  }

  // ---------------------------------------------------------------- the whole comparison

  /** Reports exactly the obligations of the specification; silent exactly when the definitions correspond. */
  method CompareDefinitions(c: Definition, p: Definition) returns (obs: set<Obligation>, al: Pairs, rp: Pairs)
    requires ValidDefinition(c) && ValidDefinition(p)
    ensures AreAliases(ValueMap(c), ValueMap(p), al) && AreReplacements(ValueMap(c), ValueMap(p), rp)
    ensures forall o :: o in obs <==> IsObligation(ValueMap(c), ValueMap(p), ResultDiffers(c, p), al, rp, o)
    ensures obs == {} <==> Corresponds(c, p)
    ensures FieldOb(Result, ToProfile, "", "") in obs <==> c.key.category.CategoryFunction? && c.result != p.result
  {
    al := FindFieldAliases(c, p);
    rp := FindFieldReplacements(c, p, al);
    ValueMapOrdinals(c);
    ValueMapOrdinals(p);
    PairingIsInjection(ValueMap(c), ValueMap(p), al, rp);
    obs := CompareWith(c, p, al, rp);
    SilentIffCorresponds(c, p, al, rp);
  }

  method CompareWith(c: Definition, p: Definition, al: Pairs, rp: Pairs) returns (obs: set<Obligation>)
    requires ValidDefinition(c) && ValidDefinition(p) && OneToOne(al + rp)
    ensures forall o :: o in obs <==> IsObligation(ValueMap(c), ValueMap(p), ResultDiffers(c, p), al, rp, o)
  {
    SwapUnion(al, rp);
    var cm := ValueFieldMap(c);
    var pm := ValueFieldMap(p);
    var toProfile := CompareDirection(cm, p, al, rp, ToProfile);
    var toCanonical := CompareDirection(pm, c, Swap(al), Swap(rp), ToCanonical);
    var projected := UnpairedFields(c, pm, al + rp, Projection, ToProfile);
    var discarded := UnpairedFields(p, cm, Swap(al + rp), Discard, ToCanonical);
    var results := if ResultDiffers(c, p)
      then {FieldOb(Result, ToProfile, "", ""), FieldOb(Result, ToCanonical, "", "")} else {};
    obs := PairReports(al, Alias) + PairReports(rp, Replacement) + toProfile + toCanonical + projected + discarded +
           results;
    Assemble(cm, pm, ResultDiffers(c, p), al, rp, toProfile, toCanonical, projected, discarded, results);
  }

  function PairReports(pairs: Pairs, kind: Kind): set<Obligation>
  {
    set x | x in pairs :: FieldOb(kind, Both, x.from, x.to)
  }

  lemma Assemble(cm: FieldMap, pm: FieldMap, rd: bool, al: Pairs, rp: Pairs, toProfile: set<Obligation>,
                 toCanonical: set<Obligation>, projected: set<Obligation>, discarded: set<Obligation>,
                 results: set<Obligation>)
    requires forall o :: o in toProfile <==> DirectionObligation(cm, pm, al, rp, ToProfile, o)
    requires forall o :: o in toCanonical <==> DirectionObligation(pm, cm, Swap(al), Swap(rp), ToCanonical, o)
    requires forall o :: o in projected <==> UnpairedReported(cm, pm, al + rp, Projection, ToProfile, o)
    requires forall o :: o in discarded <==> UnpairedReported(pm, cm, Swap(al + rp), Discard, ToCanonical, o)
    requires results == if rd then {FieldOb(Result, ToProfile, "", ""), FieldOb(Result, ToCanonical, "", "")} else {}
    ensures forall o :: o in PairReports(al, Alias) + PairReports(rp, Replacement) + toProfile + toCanonical +
                             projected + discarded + results
                        <==> IsObligation(cm, pm, rd, al, rp, o)
  {
    forall o: Obligation
      ensures o in PairReports(al, Alias) + PairReports(rp, Replacement) + toProfile + toCanonical + projected +
              discarded + results
              <==> IsObligation(cm, pm, rd, al, rp, o)
    {
      ObligationParts(cm, pm, rd, al, rp, o);
      PairObligation(al, Alias, o);
      PairObligation(rp, Replacement, o);
      assert o in results <==> ResultReported(rd, o);
    }
  }

  lemma SwapUnion(al: Pairs, rp: Pairs)
    requires OneToOne(al + rp)
    ensures Swap(al) + Swap(rp) == Swap(al + rp)
    ensures SingleSource(al + rp) && SingleSource(Swap(al) + Swap(rp))
  {
  }

  ghost predicate AliasReported(al: Pairs, kind: Kind, o: Obligation)
  {
    o == FieldOb(kind, Both, o.field, o.other) && Pair(o.field, o.other) in al
  }

  ghost predicate UnpairedReported(s: FieldMap, t: FieldMap, pairs: Pairs, kind: Kind, dir: Direction, o: Obligation)
  {
    o == FieldOb(kind, dir, o.field, "") && Unpaired(s, t, pairs, o.field)
  }

  ghost predicate ResultReported(rd: bool, o: Obligation)
  {
    rd && (o == FieldOb(Result, ToProfile, "", "") || o == FieldOb(Result, ToCanonical, "", ""))
  }

  /** The parts of the comparison have disjoint kinds and together are the specification. */
  lemma ObligationParts(c: FieldMap, p: FieldMap, rd: bool, al: Pairs, rp: Pairs, o: Obligation)
    ensures IsObligation(c, p, rd, al, rp, o) <==>
            || AliasReported(al, Alias, o) || AliasReported(rp, Replacement, o)
            || DirectionObligation(c, p, al, rp, ToProfile, o)
            || DirectionObligation(p, c, Swap(al), Swap(rp), ToCanonical, o)
            || UnpairedReported(c, p, al + rp, Projection, ToProfile, o)
            || UnpairedReported(p, c, Swap(al + rp), Discard, ToCanonical, o)
            || ResultReported(rd, o)
  {
    DirectionKinds(c, p, al, rp, ToProfile, o);
    DirectionKinds(p, c, Swap(al), Swap(rp), ToCanonical, o);
  }

  lemma DirectionKinds(s: FieldMap, t: FieldMap, al: Pairs, rp: Pairs, dir: Direction, o: Obligation)
    ensures DirectionObligation(s, t, al, rp, dir, o) ==>
              o.direction == dir && (o.kind.Required? || o.kind.Incompatible? || o.kind.FlagGroup?)
  {
  }

  lemma PairObligation(pairs: Pairs, kind: Kind, o: Obligation)
    ensures o in PairReports(pairs, kind) <==> AliasReported(pairs, kind, o)
  {
    if o in PairReports(pairs, kind) {
      var x :| x in pairs && o == FieldOb(kind, Both, x.from, x.to);
      assert x == Pair(o.field, o.other);
    }
    if o == FieldOb(kind, Both, o.field, o.other) && Pair(o.field, o.other) in pairs {
      var x := Pair(o.field, o.other);
      assert x in pairs && o == FieldOb(kind, Both, x.from, x.to);
    }
  }

  // ---------------------------------------------------------------- field mappings of the emitters

  /** The canonical position a profile field is converted with, if any. */
  ghost function MappedTo(c: Definition, pairs: Pairs, name: string): Option<nat>
  {
    var i := IndexOf(c.fields, SourceName(pairs, name));
    if i < |c.fields| then Some(i) else None
  }

  method BuildFieldMappings(c: Definition, p: Definition, al: Pairs, rp: Pairs) returns (mapping: seq<Option<nat>>)
    requires OneToOne(al + rp)
    ensures |mapping| == |p.fields|
    ensures forall i :: 0 <= i < |mapping| ==> mapping[i] == MappedTo(c, al + rp, p.fields[i].name)
  {
    mapping := [];
    for i := 0 to |p.fields|
      invariant |mapping| == i
      invariant forall j :: 0 <= j < i ==> mapping[j] == MappedTo(c, al + rp, p.fields[j].name)
    {
      var src, _ := SourceOf(al, rp, p.fields[i].name);
      var k := IndexOf(c.fields, src);
      mapping := mapping + [if k < |c.fields| then Some(k) else None];
    }
  }

  /**
    No two profile value fields are converted with the same canonical field, and a value
    field meets a canonical flags word only when the two carry the same name.
   */
  lemma MappingIsInjection(c: Definition, p: Definition, al: Pairs, rp: Pairs, i: nat, j: nat)
    requires ValidDefinition(c) && ValidDefinition(p)
    requires AreAliases(ValueMap(c), ValueMap(p), al) && AreReplacements(ValueMap(c), ValueMap(p), rp)
    requires i < |p.fields| && j < |p.fields| && p.fields[i].kind.FieldValue? && p.fields[j].kind.FieldValue?
    requires MappedTo(c, al + rp, p.fields[i].name).Some?
    ensures MappedTo(c, al + rp, p.fields[i].name) == MappedTo(c, al + rp, p.fields[j].name) ==> i == j
    ensures c.fields[MappedTo(c, al + rp, p.fields[i].name).value].kind.FieldValue? ||
            c.fields[MappedTo(c, al + rp, p.fields[i].name).value].name == p.fields[i].name
  {
    ValueMapOrdinals(c);
    ValueMapOrdinals(p);
    PairingIsInjection(ValueMap(c), ValueMap(p), al, rp);
    ValueMapHolds(c);
    ValueMapHolds(p);
    InjectionStep(c, p, ValueMap(c), ValueMap(p), al + rp, i, j);
  }

  lemma InjectionStep(c: Definition, p: Definition, cm: FieldMap, pm: FieldMap, pairs: Pairs, i: nat, j: nat)
    requires ValidDefinition(c) && ValidDefinition(p) && Holds(c, cm) && Holds(p, pm) && OneToOne(pairs)
    requires forall x :: x in pairs ==> x.from in cm && x.from !in pm && x.to in pm && x.to !in cm
    requires i < |p.fields| && j < |p.fields| && p.fields[i].kind.FieldValue? && p.fields[j].kind.FieldValue?
    requires MappedTo(c, pairs, p.fields[i].name).Some?
    ensures MappedTo(c, pairs, p.fields[i].name) == MappedTo(c, pairs, p.fields[j].name) ==> i == j
    ensures c.fields[MappedTo(c, pairs, p.fields[i].name).value].kind.FieldValue? ||
            c.fields[MappedTo(c, pairs, p.fields[i].name).value].name == p.fields[i].name
  {
    var n, m := p.fields[i].name, p.fields[j].name;
    assert n in pm && m in pm;
    SourceNameIs(pairs, n);
    SourceNameIs(pairs, m);
    if HasSource(pairs, n) {
      var k := MappedTo(c, pairs, n).value;
      assert c.fields[k].name in cm;
    }
  }

  lemma SourceNameIs(pairs: Pairs, n: string)
    ensures if HasSource(pairs, n) then Pair(SourceName(pairs, n), n) in pairs else SourceName(pairs, n) == n
  {
    if HasSource(pairs, n) {
      var x :| x in pairs && x.to == n && SourceName(pairs, n) == x.from;
      assert x == Pair(SourceName(pairs, n), n);
    }
  }

  /** Value field `n` is what some profile value field is converted from. */
  ghost predicate ConvertedFrom(p: FieldMap, pairs: Pairs, n: string)
  {
    exists m :: m in p && SourceName(pairs, m) == n
  }

  ghost predicate Pairing(c: FieldMap, p: FieldMap, pairs: Pairs)
  {
    OneToOne(pairs) && forall x :: x in pairs ==> x.from in c && x.from !in p && x.to in p && x.to !in c
  }

  lemma ProjectedIff(c: FieldMap, p: FieldMap, pairs: Pairs, n: string)
    requires Pairing(c, p, pairs) && n in c
    ensures Unpaired(c, p, pairs, n) <==> !ConvertedFrom(p, pairs, n)
  {
    if n in p {
      SourceNameIs(pairs, n);
      assert SourceName(pairs, n) == n;
    } else if ConvertedFrom(p, pairs, n) {
      var m :| m in p && SourceName(pairs, m) == n;
      SourceNameIs(pairs, m);
      assert Pair(n, m) in pairs;
    } else {
      forall x | x in pairs ensures x.from != n {
        SourceNameIs(pairs, x.to);
        assert HasSource(pairs, x.to);
        assert Pair(SourceName(pairs, x.to), x.to) == x;
      }
    }
  }

  lemma DiscardedIff(c: FieldMap, p: FieldMap, pairs: Pairs, n: string)
    requires Pairing(c, p, pairs) && n in p
    ensures Unpaired(p, c, Swap(pairs), n) <==> SourceName(pairs, n) !in c
  {
    SourceNameIs(pairs, n);
    if HasSource(pairs, n) {
      assert Pair(n, SourceName(pairs, n)) in Swap(pairs);
      assert SourceName(pairs, n) in c;
    } else {
      forall x | x in Swap(pairs) ensures x.from != n {
        var y :| y in pairs && x == Pair(y.to, y.from);
      }
    }
  }

  /**
    No value field is lost silently: a canonical one is converted into some profile field or
    has its own projection obligation, a profile one is converted from some canonical field
    or has its own discard obligation, and never both.
   */
  lemma EveryFieldIsAccountedFor(c: Definition, p: Definition, al: Pairs, rp: Pairs, n: string)
    requires ValidDefinition(c) && ValidDefinition(p)
    requires AreAliases(ValueMap(c), ValueMap(p), al) && AreReplacements(ValueMap(c), ValueMap(p), rp)
    ensures var cm, pm, rd := ValueMap(c), ValueMap(p), ResultDiffers(c, p);
            && (n in cm ==> (IsObligation(cm, pm, rd, al, rp, FieldOb(Projection, ToProfile, n, "")) <==>
                               !ConvertedFrom(pm, al + rp, n)))
            && (n in pm ==> (IsObligation(cm, pm, rd, al, rp, FieldOb(Discard, ToCanonical, n, "")) <==>
                               SourceName(al + rp, n) !in cm))
  {
    var cm, pm := ValueMap(c), ValueMap(p);
    ValueMapOrdinals(c);
    ValueMapOrdinals(p);
    PairingIsInjection(cm, pm, al, rp);
    AccountedFor(cm, pm, ResultDiffers(c, p), al, rp, n);
  }

  lemma AccountedFor(c: FieldMap, p: FieldMap, rd: bool, al: Pairs, rp: Pairs, n: string)
    requires Pairing(c, p, al + rp)
    ensures n in c ==>
              (IsObligation(c, p, rd, al, rp, FieldOb(Projection, ToProfile, n, "")) <==> !ConvertedFrom(p, al + rp, n))
    ensures n in p ==>
              (IsObligation(c, p, rd, al, rp, FieldOb(Discard, ToCanonical, n, "")) <==> SourceName(al + rp, n) !in c)
  {
    if n in c { ProjectedIff(c, p, al + rp, n); }
    if n in p { DiscardedIff(c, p, al + rp, n); }
  }
}

/**
  Pruning of the sparse codec model: starting from the dirty wires, the families with a
  sparse encoder and a few root texts, keep exactly the converters that generated code can
  still reach. Generated source text is represented by the converters it mentions.
 */
module SparseClosure {
  import opened Bin
  import opened Ordering

  datatype Op = Preflight | Encode | Decode

  datatype Mention = WireMention(op: Op, id: nat) | ClassMention(name: string) | FamilyMention(name: string)

  /** A piece of generated source: the converters it mentions, and whether it names a dynamic object helper. */
  datatype Text = Text(mentions: seq<Mention>, dynamic: bool)

  datatype Wire = Wire(
    id: nat, sparseDirect: bool, profileOnly: bool, groups: seq<Text>, sparseEncode: bool, sparseDecode: bool)

  /** A class or family function; preflight functions are never part of a sparse codec. */
  datatype Declaration = Declaration(preflight: bool, name: Option<string>, text: Text)

  datatype Node = WireNode(id: nat) | ClassNode(name: string) | FamilyNode(name: string)

  datatype Tables = Tables(wires: map<nat, Wire>, classes: map<string, Declaration>, families: map<string, Declaration>)

  datatype Start = Start(roots: set<nat>, families: set<string>, text: Text)

  // ---------------------------------------------------------------- the reference graph

  function Target(m: Mention): Node
  {
    match m
    case WireMention(_, id) => WireNode(id)
    case ClassMention(name) => ClassNode(name)
    case FamilyMention(name) => FamilyNode(name)
  }

  function Joined(texts: seq<Text>): Text
  {
    if texts == [] then Text([], false)
    else
      var front := Joined(texts[..|texts| - 1]);
      var last := texts[|texts| - 1];
      Text(front.mentions + last.mentions, front.dynamic || last.dynamic)
  }

  /** A direct or profile-only wire calls canonical methods and refers to no converter. */
  function WireText(w: Wire): Text
  {
    if w.sparseDirect || w.profileOnly then Text([], false) else Joined(w.groups)
  }

  function Body(t: Tables, n: Node): Option<Text>
  {
    match n
    case WireNode(id) => if id in t.wires then Some(WireText(t.wires[id])) else None
    case ClassNode(name) => if name in t.classes then Some(t.classes[name].text) else None
    case FamilyNode(name) => if name in t.families then Some(t.families[name].text) else None
  }

  /** Everything mentioned by the root texts and by the bodies of `done`. */
  function Mentioned(t: Tables, s: Start, done: set<Node>): set<Mention>
  {
    (set m | m in s.text.mentions) +
    (set n, m | n in done && Body(t, n).Some? && m in Body(t, n).value.mentions :: m)
  }

  ghost predicate Referenced(t: Tables, s: Start, done: set<Node>, n: Node)
  {
    || (n.WireNode? && n.id in s.roots)
    || (n.FamilyNode? && n.name in s.families)
    || exists m :: m in Mentioned(t, s, done) && Target(m) == n
  }

  /** `n` is mentioned along a chain of at most `k` bodies starting at the roots. */
  ghost predicate ReachableIn(t: Tables, s: Start, n: Node, k: nat)
    decreases k
  {
    || Referenced(t, s, {}, n)
    || (k > 0 && exists n', m :: ReachableIn(t, s, n', k - 1) && BodyMentions(t, n', m) && Target(m) == n)
  }

  ghost predicate BodyMentions(t: Tables, n: Node, m: Mention)
  {
    Body(t, n).Some? && m in Body(t, n).value.mentions
  }

  ghost predicate Reachable(t: Tables, s: Start, n: Node)
  {
    exists k: nat :: ReachableIn(t, s, n, k)
  }

  /** The operation is mentioned by a root text or by a reachable body. */
  ghost predicate Used(t: Tables, s: Start, m: Mention)
  {
    m in s.text.mentions || exists n :: Reachable(t, s, n) && BodyMentions(t, n, m)
  }

  ghost predicate ReachesDynamic(t: Tables, s: Start)
  {
    s.text.dynamic || exists n :: Reachable(t, s, n) && Body(t, n).Some? && Body(t, n).value.dynamic
  }

  ghost predicate HasOperation(t: Tables, s: Start, id: nat)
  {
    Used(t, s, WireMention(Encode, id)) || Used(t, s, WireMention(Decode, id))
  }

  /** No reachable converter is absent, dynamic, or direct without an operation. */
  ghost predicate Prunable(t: Tables, s: Start, ws: seq<Wire>)
  {
    && (forall n :: Reachable(t, s, n) ==> Body(t, n).Some?)
    && !ReachesDynamic(t, s)
    && (forall i :: 0 <= i < |ws| && ws[i].sparseDirect && Reachable(t, s, WireNode(ws[i].id)) ==>
          HasOperation(t, s, ws[i].id))
  }

  ghost function KeptWires(t: Tables, s: Start, ws: seq<Wire>): seq<Wire>
  {
    if ws == [] then []
    else
      var w := ws[|ws| - 1];
      KeptWires(t, s, ws[..|ws| - 1]) +
      if !Reachable(t, s, WireNode(w.id)) then []
      else if !w.sparseDirect then [w]
      else [w.(sparseEncode := Used(t, s, WireMention(Encode, w.id)),
               sparseDecode := Used(t, s, WireMention(Decode, w.id)))]
  }

  // ---------------------------------------------------------------- closure facts

  lemma ReachableStep(t: Tables, s: Start, done: set<Node>, n: Node)
    requires forall x :: x in done ==> Reachable(t, s, x)
    requires Referenced(t, s, done, n)
    ensures Reachable(t, s, n)
  {
    if Referenced(t, s, {}, n) {
      assert ReachableIn(t, s, n, 0);
    } else {
      var m :| m in Mentioned(t, s, done) && Target(m) == n;
      assert m !in Mentioned(t, s, {});
      var n' :| n' in done && BodyMentions(t, n', m);
      var k: nat :| ReachableIn(t, s, n', k);
      assert ReachableIn(t, s, n, k + 1);
    }
  }

  /** A set that contains everything it refers to contains everything reachable. */
  lemma {:induction false} ClosedCoversIn(t: Tables, s: Start, done: set<Node>, n: Node, k: nat)
    requires forall x :: Referenced(t, s, done, x) ==> x in done
    requires ReachableIn(t, s, n, k)
    ensures n in done
    decreases k
  {
    if Referenced(t, s, {}, n) {
      assert forall m :: m in Mentioned(t, s, {}) ==> m in Mentioned(t, s, done);
      assert Referenced(t, s, done, n);
    } else {
      var n', m :| ReachableIn(t, s, n', k - 1) && BodyMentions(t, n', m) && Target(m) == n;
      ClosedCoversIn(t, s, done, n', k - 1);
      assert m in Mentioned(t, s, done);
      assert Referenced(t, s, done, n);
    }
  }

  /** The closure is determined by the graph alone: a closed set of reachable converters is the reachable set. */
  lemma ClosureIsReachable(t: Tables, s: Start, done: set<Node>)
    requires forall x :: x in done ==> Reachable(t, s, x)
    requires forall x :: Referenced(t, s, done, x) ==> x in done
    ensures forall n :: n in done <==> Reachable(t, s, n)
    ensures forall m :: m in Mentioned(t, s, done) <==> Used(t, s, m)
  {
    forall n | Reachable(t, s, n)
      ensures n in done
    {
      var k: nat :| ReachableIn(t, s, n, k);
      ClosedCoversIn(t, s, done, n, k);
    }
    forall m
      ensures m in Mentioned(t, s, done) <==> Used(t, s, m)
    {
      if m in Mentioned(t, s, done) && m !in s.text.mentions {
        var n :| n in done && BodyMentions(t, n, m);
      }
    }
  }

  // ---------------------------------------------------------------- what a converter calls

  /**
    A wire that has its own body calls what its profile bodies mention; a direct or profile-only one calls
    canonical methods alone. Class and family functions call what their text mentions.
   */
  ghost predicate Calls(t: Tables, n: Node, m: Mention)
  {
    match n
    case WireNode(id) =>
      && id in t.wires && !t.wires[id].sparseDirect && !t.wires[id].profileOnly
      && exists i :: 0 <= i < |t.wires[id].groups| && m in t.wires[id].groups[i].mentions
    case ClassNode(name) => name in t.classes && m in t.classes[name].text.mentions
    case FamilyNode(name) => name in t.families && m in t.families[name].text.mentions
  }

  ghost predicate CallsDynamic(t: Tables, n: Node)
  {
    match n
    case WireNode(id) =>
      && id in t.wires && !t.wires[id].sparseDirect && !t.wires[id].profileOnly
      && exists i :: 0 <= i < |t.wires[id].groups| && t.wires[id].groups[i].dynamic
    case ClassNode(name) => name in t.classes && t.classes[name].text.dynamic
    case FamilyNode(name) => name in t.families && t.families[name].text.dynamic
  }

  lemma {:induction false} JoinedMentions(texts: seq<Text>, m: Mention)
    ensures m in Joined(texts).mentions <==> exists i :: 0 <= i < |texts| && m in texts[i].mentions
    ensures Joined(texts).dynamic <==> exists i :: 0 <= i < |texts| && texts[i].dynamic
  {
    if texts != [] {
      var front, last := texts[..|texts| - 1], texts[|texts| - 1];
      JoinedMentions(front, m);
      assert forall i :: 0 <= i < |texts| ==> texts[i] == if i < |front| then front[i] else last;
    }
  }

  lemma CallsExact(t: Tables, n: Node, m: Mention)
    ensures BodyMentions(t, n, m) <==> Calls(t, n, m)
    ensures Body(t, n).Some? && Body(t, n).value.dynamic <==> CallsDynamic(t, n)
  {
    if n.WireNode? && n.id in t.wires { JoinedMentions(t.wires[n.id].groups, m); }
  }

  /** A mention of any operation of a wire needs its converter, a mention of a function the function. */
  ghost predicate Needs(m: Mention, n: Node)
  {
    match n
    case WireNode(id) => m.WireMention? && m.id == id
    case ClassNode(name) => m == ClassMention(name)
    case FamilyNode(name) => m == FamilyMention(name)
  }

  /** Every reference made by a kept converter resolves to a kept converter. */
  lemma KeptReferencesResolve(t: Tables, s: Start, n: Node, m: Mention, x: Node)
    requires Reachable(t, s, n) && Calls(t, n, m) && Needs(m, x)
    ensures Reachable(t, s, x)
    ensures (forall y :: Reachable(t, s, y) ==> Body(t, y).Some?) ==> Body(t, x).Some?
  {
    CallsExact(t, n, m);
    assert Target(m) == x;
    assert m in Mentioned(t, s, {n});
    assert Referenced(t, s, {n}, x);
    ReachableStep(t, s, {n}, x);
  }

  /** The roots, the encoders of root families and what root texts mention are kept. */
  lemma RootsAreKept(t: Tables, roots: set<nat>, suffixes: set<string>, texts: seq<Text>, n: Node)
    requires IsRoot(roots, suffixes, texts, n)
    ensures Reachable(t, StartOf(roots, suffixes, texts), n)
  {
    var s := StartOf(roots, suffixes, texts);
    RootExact(t, roots, suffixes, texts, n);
    ReachableStep(t, s, {}, n);
  }

  ghost predicate IsRoot(roots: set<nat>, suffixes: set<string>, texts: seq<Text>, n: Node)
  {
    || (n.WireNode? && n.id in roots)
    || (n.FamilyNode? && exists x :: x in suffixes && n.name == "layerEncodeFamily" + x)
    || exists i, m :: 0 <= i < |texts| && m in texts[i].mentions && Needs(m, n)
  }

  lemma RootExact(t: Tables, roots: set<nat>, suffixes: set<string>, texts: seq<Text>, n: Node)
    ensures IsRoot(roots, suffixes, texts, n) <==> Referenced(t, StartOf(roots, suffixes, texts), {}, n)
  {
    var s := StartOf(roots, suffixes, texts);
    assert forall m :: Needs(m, n) <==> Target(m) == n;
    if i, m :| 0 <= i < |texts| && m in texts[i].mentions && Needs(m, n) {
      JoinedMentions(texts, m);
      assert m in Mentioned(t, s, {});
    }
    if m :| m in Mentioned(t, s, {}) && Target(m) == n {
      JoinedMentions(texts, m);
    }
  }

  /** Nothing else is kept: a kept converter is a root or is called by a kept one. */
  lemma KeptForAReason(t: Tables, roots: set<nat>, suffixes: set<string>, texts: seq<Text>, n: Node)
    requires Reachable(t, StartOf(roots, suffixes, texts), n)
    ensures || IsRoot(roots, suffixes, texts, n)
            || exists x, m :: Reachable(t, StartOf(roots, suffixes, texts), x) && Calls(t, x, m) && Needs(m, n)
  {
    var s := StartOf(roots, suffixes, texts);
    RootExact(t, roots, suffixes, texts, n);
    var k: nat :| ReachableIn(t, s, n, k);
    if !IsRoot(roots, suffixes, texts, n) {
      var x, m :| ReachableIn(t, s, x, k - 1) && BodyMentions(t, x, m) && Target(m) == n;
      CallsExact(t, x, m);
      assert Reachable(t, s, x) && Needs(m, n);
    }
  }

  // ---------------------------------------------------------------- when a model can be pruned

  ghost predicate Declares(d: Declaration, name: string)
  {
    !d.preflight && d.name == Some(name)
  }

  /** The table holds the last declaration of each name, preflight functions aside. */
  lemma {:induction false} DeclarationTableExact(ds: seq<Declaration>, name: string)
    ensures name in DeclarationTable(ds) <==> exists i :: 0 <= i < |ds| && Declares(ds[i], name)
    ensures name in DeclarationTable(ds) ==>
              exists i :: 0 <= i < |ds| && Declares(ds[i], name) && DeclarationTable(ds)[name] == ds[i] &&
                          forall j :: i < j < |ds| ==> !Declares(ds[j], name)
  {
    if ds != [] {
      var front := ds[..|ds| - 1];
      DeclarationTableExact(front, name);
      assert forall i :: 0 <= i < |front| ==> front[i] == ds[i];
      if !Declares(ds[|ds| - 1], name) && name in DeclarationTable(front) {
        var i :| 0 <= i < |front| && Declares(front[i], name) && DeclarationTable(front)[name] == front[i] &&
          forall j :: i < j < |front| ==> !Declares(front[j], name);
        assert Declares(ds[i], name) && forall j :: i < j < |ds| ==> !Declares(ds[j], name);
      }
    }
  }

  lemma {:induction false} WireTableExact(ws: seq<Wire>, id: nat)
    ensures id in WireTable(ws) <==> exists i :: 0 <= i < |ws| && ws[i].id == id
    ensures id in WireTable(ws) ==>
              exists i :: 0 <= i < |ws| && ws[i].id == id && WireTable(ws)[id] == ws[i] &&
                          forall j :: i < j < |ws| ==> ws[j].id != id
  {
    if ws != [] {
      var front := ws[..|ws| - 1];
      WireTableExact(front, id);
      assert forall i :: 0 <= i < |front| ==> front[i] == ws[i];
      if ws[|ws| - 1].id != id && id in WireTable(front) {
        var i :| 0 <= i < |front| && front[i].id == id && WireTable(front)[id] == front[i] &&
          forall j :: i < j < |front| ==> front[j].id != id;
        assert ws[i].id == id && forall j :: i < j < |ws| ==> ws[j].id != id;
      }
    }
  }

  /** The converter is in the model. */
  ghost predicate Present(ws: seq<Wire>, classes: seq<Declaration>, families: seq<Declaration>, n: Node)
  {
    match n
    case WireNode(id) => exists i :: 0 <= i < |ws| && ws[i].id == id
    case ClassNode(name) => exists i :: 0 <= i < |classes| && Declares(classes[i], name)
    case FamilyNode(name) => exists i :: 0 <= i < |families| && Declares(families[i], name)
  }

  lemma PresentExact(ws: seq<Wire>, classes: seq<Declaration>, families: seq<Declaration>, n: Node)
    ensures Present(ws, classes, families, n) <==> Body(TablesOf(ws, classes, families), n).Some?
  {
    match n {
      case WireNode(id) => WireTableExact(ws, id);
      case ClassNode(name) => DeclarationTableExact(classes, name);
      case FamilyNode(name) => DeclarationTableExact(families, name);
    }
  }

  /** A model can be pruned exactly when all that is reached is in it, nothing reached or in a root text is
      dynamic, and every reached direct wire is encoded or decoded by something reached. */
  lemma PrunableExact(ws: seq<Wire>, classes: seq<Declaration>, families: seq<Declaration>, roots: set<nat>,
                      suffixes: set<string>, texts: seq<Text>)
    ensures var t, s := TablesOf(ws, classes, families), StartOf(roots, suffixes, texts);
            Prunable(t, s, ws) <==>
            && (forall n :: Reachable(t, s, n) ==> Present(ws, classes, families, n) && !CallsDynamic(t, n))
            && (forall i :: 0 <= i < |texts| ==> !texts[i].dynamic)
            && (forall i :: 0 <= i < |ws| && ws[i].sparseDirect && Reachable(t, s, WireNode(ws[i].id)) ==>
                  Operated(t, s, texts, ws[i].id))
  {
    var t, s := TablesOf(ws, classes, families), StartOf(roots, suffixes, texts);
    JoinedMentions(texts, ClassMention(""));
    forall n ensures Present(ws, classes, families, n) <==> Body(t, n).Some? { PresentExact(ws, classes, families, n); }
    forall n ensures CallsDynamic(t, n) <==> Body(t, n).Some? && Body(t, n).value.dynamic {
      CallsExact(t, n, ClassMention(""));
    }
    forall id ensures Operated(t, s, texts, id) <==> HasOperation(t, s, id) { OperatedExact(t, s, texts, id); }
  }

  /** Some root text or reached converter encodes or decodes the wire. */
  ghost predicate Operated(t: Tables, s: Start, texts: seq<Text>, id: nat)
  {
    exists m :: m in {WireMention(Encode, id), WireMention(Decode, id)} && CalledAnywhere(t, s, texts, m)
  }

  ghost predicate CalledAnywhere(t: Tables, s: Start, texts: seq<Text>, m: Mention)
  {
    || (exists i :: 0 <= i < |texts| && m in texts[i].mentions)
    || exists n :: Reachable(t, s, n) && Calls(t, n, m)
  }

  lemma OperatedExact(t: Tables, s: Start, texts: seq<Text>, id: nat)
    requires s.text == Joined(texts)
    ensures Operated(t, s, texts, id) <==> HasOperation(t, s, id)
  {
    forall m ensures CalledAnywhere(t, s, texts, m) <==> Used(t, s, m) {
      JoinedMentions(texts, m);
      forall n ensures Calls(t, n, m) <==> BodyMentions(t, n, m) { CallsExact(t, n, m); }
    }
    var e, d := WireMention(Encode, id), WireMention(Decode, id);
    assert CalledAnywhere(t, s, texts, e) <==> Used(t, s, e);
    assert CalledAnywhere(t, s, texts, d) <==> Used(t, s, d);
  }

  // ---------------------------------------------------------------- the reference set

  datatype References = References(
    wires: set<nat>, encodes: set<nat>, decodes: set<nat>, classes: set<string>, families: set<string>, dynamic: bool)

  /** `b` is `a` with everything a text mentions. */
  ghost predicate Extended(a: References, b: References, mentions: seq<Mention>, dynamic: bool)
  {
    && (forall id :: id in b.wires <==> id in a.wires || exists op :: WireMention(op, id) in mentions)
    && (forall id :: id in b.encodes <==> id in a.encodes || WireMention(Encode, id) in mentions)
    && (forall id :: id in b.decodes <==> id in a.decodes || WireMention(Decode, id) in mentions)
    && (forall name :: name in b.classes <==> name in a.classes || ClassMention(name) in mentions)
    && (forall name :: name in b.families <==> name in a.families || FamilyMention(name) in mentions)
    && b.dynamic == (a.dynamic || dynamic)
  }

  /** The set holds exactly what the roots and the bodies of `done` refer to. */
  ghost predicate Holds(r: References, t: Tables, s: Start, done: set<Node>)
  {
    && (forall id :: id in r.wires <==> Referenced(t, s, done, WireNode(id)))
    && (forall name :: name in r.classes <==> Referenced(t, s, done, ClassNode(name)))
    && (forall name :: name in r.families <==> Referenced(t, s, done, FamilyNode(name)))
    && (forall id :: id in r.encodes <==> WireMention(Encode, id) in Mentioned(t, s, done))
    && (forall id :: id in r.decodes <==> WireMention(Decode, id) in Mentioned(t, s, done))
    && (r.dynamic <==> s.text.dynamic || exists n :: n in done && Body(t, n).Some? && Body(t, n).value.dynamic)
  }

  class ReferenceSet {
    var wires: set<nat>
    var encodes: set<nat>
    var decodes: set<nat>
    var classes: set<string>
    var families: set<string>
    var dynamic: bool

    constructor ()
      ensures Contents() == References({}, {}, {}, {}, {}, false)
    {
      wires, encodes, decodes, classes, families, dynamic := {}, {}, {}, {}, {}, false;
    }

    ghost function Contents(): References
      reads this
    {
      References(wires, encodes, decodes, classes, families, dynamic)
    }

    method Collect(text: Text)
      modifies this
      ensures Extended(old(Contents()), Contents(), text.mentions, text.dynamic)
    {
      var i := 0;
      while i < |text.mentions|
        invariant 0 <= i <= |text.mentions|
        invariant Extended(old(Contents()), Contents(), text.mentions[..i], false)
      {
        assert text.mentions[..i + 1] == text.mentions[..i] + [text.mentions[i]];
        match text.mentions[i] {
          case WireMention(op, id) =>
            wires := wires + {id};
            if op.Encode? { encodes := encodes + {id}; }
            if op.Decode? { decodes := decodes + {id}; }
          case ClassMention(name) => classes := classes + {name};
          case FamilyMention(name) => families := families + {name};
        }
        i := i + 1;
      }
      assert text.mentions[..i] == text.mentions;
      if text.dynamic { dynamic := true; }
    }
  }

  // ---------------------------------------------------------------- one more processed converter

  lemma MentionedGrows(t: Tables, s: Start, done: set<Node>, n: Node)
    requires Body(t, n).Some?
    ensures Mentioned(t, s, done + {n}) == Mentioned(t, s, done) + (set m | m in Body(t, n).value.mentions)
  {
    var body := Body(t, n).value.mentions;
    assert forall m :: m in body ==> BodyMentions(t, n, m);
    assert forall m :: m in body ==> m in Mentioned(t, s, done + {n});
  }

  /** After the body of `n` has been collected the set holds the references of one more converter. */
  lemma CollectKeepsHolds(a: References, b: References, t: Tables, s: Start, done: set<Node>, n: Node)
    requires Holds(a, t, s, done) && Body(t, n).Some?
    requires Extended(a, b, Body(t, n).value.mentions, Body(t, n).value.dynamic)
    ensures Holds(b, t, s, done + {n})
  {
    MentionedGrows(t, s, done, n);
    forall id ensures id in b.wires <==> Referenced(t, s, done + {n}, WireNode(id)) {
      ReferencedGrows(t, s, done, n, WireNode(id));
    }
    forall name ensures name in b.classes <==> Referenced(t, s, done + {n}, ClassNode(name)) {
      ReferencedGrows(t, s, done, n, ClassNode(name));
    }
    forall name ensures name in b.families <==> Referenced(t, s, done + {n}, FamilyNode(name)) {
      ReferencedGrows(t, s, done, n, FamilyNode(name));
    }
  }

  lemma ReferencedGrows(t: Tables, s: Start, done: set<Node>, n: Node, x: Node)
    requires Body(t, n).Some?
    ensures Referenced(t, s, done + {n}, x) <==>
              Referenced(t, s, done, x) || exists m :: m in Body(t, n).value.mentions && Target(m) == x
  {
    MentionedGrows(t, s, done, n);
    var body := Body(t, n).value.mentions;
    if exists m :: m in body && Target(m) == x {
      var m :| m in body && Target(m) == x;
      assert m in Mentioned(t, s, done + {n});
    }
    if Referenced(t, s, done, x) && exists m :: m in Mentioned(t, s, done) && Target(m) == x {
      var m :| m in Mentioned(t, s, done) && Target(m) == x;
      assert m in Mentioned(t, s, done + {n});
    }
  }

  // ---------------------------------------------------------------- the worklist

  ghost function Nodes(wires: set<nat>, classes: set<string>, families: set<string>): set<Node>
  {
    (set id | id in wires :: WireNode(id)) +
    (set name | name in classes :: ClassNode(name)) +
    (set name | name in families :: FamilyNode(name))
  }

  lemma NodesGrow(wires: set<nat>, classes: set<string>, families: set<string>, id: nat, name: string)
    ensures Nodes(wires + {id}, classes, families) == Nodes(wires, classes, families) + {WireNode(id)}
    ensures Nodes(wires, classes + {name}, families) == Nodes(wires, classes, families) + {ClassNode(name)}
    ensures Nodes(wires, classes, families + {name}) == Nodes(wires, classes, families) + {FamilyNode(name)}
  {
  }

  lemma NodesDefined(t: Tables, s: Start, refs: References, wires: set<nat>, classes: set<string>,
                     families: set<string>)
    requires Sound(t, s, refs, Nodes(wires, classes, families))
    ensures wires <= t.wires.Keys && classes <= t.classes.Keys && families <= t.families.Keys
  {
    forall id | id in wires ensures id in t.wires { assert Body(t, WireNode(id)).Some?; }
    forall name | name in classes ensures name in t.classes { assert Body(t, ClassNode(name)).Some?; }
    forall name | name in families ensures name in t.families { assert Body(t, FamilyNode(name)).Some?; }
  }

  /** Everything processed so far is defined and reachable, and its references have been recorded. */
  ghost predicate Sound(t: Tables, s: Start, refs: References, done: set<Node>)
  {
    Holds(refs, t, s, done) && forall n :: n in done ==> Reachable(t, s, n) && Body(t, n).Some?
  }

  ghost predicate AbsentReference(t: Tables, s: Start)
  {
    exists n :: Reachable(t, s, n) && Body(t, n).None?
  }

  method Process(t: Tables, ghost s: Start, refs: ReferenceSet, ghost done: set<Node>, n: Node)
    requires Sound(t, s, refs.Contents(), done) && Referenced(t, s, done, n) && Body(t, n).Some?
    modifies refs
    ensures Sound(t, s, refs.Contents(), done + {n})
    ensures old(refs.wires) <= refs.wires && old(refs.classes) <= refs.classes && old(refs.families) <= refs.families
  {
    ReachableStep(t, s, done, n);
    ghost var before := refs.Contents();
    refs.Collect(Body(t, n).value);
    CollectKeepsHolds(before, refs.Contents(), t, s, done, n);
  }

  /** One pass over the referenced wires; references found on the way may or may not be met in the same pass. */
  method WirePass(t: Tables, ghost s: Start, refs: ReferenceSet, wires: set<nat>, ghost classes: set<string>,
                  ghost families: set<string>)
    returns (ok: bool, wires': set<nat>)
    requires Sound(t, s, refs.Contents(), Nodes(wires, classes, families))
    modifies refs
    ensures !ok ==> AbsentReference(t, s)
    ensures ok ==> Sound(t, s, refs.Contents(), Nodes(wires', classes, families)) && wires <= wires' &&
                   old(refs.wires) <= wires'
    ensures ok && wires' == wires ==> refs.Contents() == old(refs.Contents())
  {
    wires' := wires;
    var pending := refs.wires;
    while pending != {}
      invariant wires <= wires'
      invariant Sound(t, s, refs.Contents(), Nodes(wires', classes, families))
      invariant pending <= refs.wires && old(refs.wires) <= wires' + pending
      invariant wires' == wires ==> refs.Contents() == old(refs.Contents())
      decreases t.wires.Keys - wires', pending
    {
      var id :| id in pending;
      pending := pending - {id};
      if id in wires' { continue; }
      ghost var done := Nodes(wires', classes, families);
      if id !in t.wires {
        ReachableStep(t, s, done, WireNode(id));
        return false, wires';
      }
      Process(t, s, refs, done, WireNode(id));
      assert pending <= refs.wires;
      NodesGrow(wires', classes, families, id, "");
      wires' := wires' + {id};
      assert {} <= refs.wires - wires';
      var late :| late <= refs.wires - wires';
      pending := pending + late;
    }
    return true, wires';
  }

  method ClassPass(t: Tables, ghost s: Start, refs: ReferenceSet, ghost wires: set<nat>, classes: set<string>,
                   ghost families: set<string>)
    returns (ok: bool, classes': set<string>)
    requires Sound(t, s, refs.Contents(), Nodes(wires, classes, families))
    modifies refs
    ensures !ok ==> AbsentReference(t, s)
    ensures ok ==> Sound(t, s, refs.Contents(), Nodes(wires, classes', families)) && classes <= classes' &&
                   old(refs.classes) <= classes'
    ensures ok && classes' == classes ==> refs.Contents() == old(refs.Contents())
  {
    classes' := classes;
    var pending := refs.classes;
    while pending != {}
      invariant classes <= classes'
      invariant Sound(t, s, refs.Contents(), Nodes(wires, classes', families))
      invariant pending <= refs.classes && old(refs.classes) <= classes' + pending
      invariant classes' == classes ==> refs.Contents() == old(refs.Contents())
      decreases t.classes.Keys - classes', pending
    {
      var name :| name in pending;
      pending := pending - {name};
      if name in classes' { continue; }
      ghost var done := Nodes(wires, classes', families);
      if name !in t.classes {
        ReachableStep(t, s, done, ClassNode(name));
        return false, classes';
      }
      Process(t, s, refs, done, ClassNode(name));
      assert pending <= refs.classes;
      NodesGrow(wires, classes', families, 0, name);
      classes' := classes' + {name};
      assert {} <= refs.classes - classes';
      var late :| late <= refs.classes - classes';
      pending := pending + late;
    }
    return true, classes';
  }

  method FamilyPass(t: Tables, ghost s: Start, refs: ReferenceSet, ghost wires: set<nat>, ghost classes: set<string>,
                    families: set<string>)
    returns (ok: bool, families': set<string>)
    requires Sound(t, s, refs.Contents(), Nodes(wires, classes, families))
    modifies refs
    ensures !ok ==> AbsentReference(t, s)
    ensures ok ==> Sound(t, s, refs.Contents(), Nodes(wires, classes, families')) && families <= families' &&
                   old(refs.families) <= families'
    ensures ok && families' == families ==> refs.Contents() == old(refs.Contents())
  {
    families' := families;
    var pending := refs.families;
    while pending != {}
      invariant families <= families'
      invariant Sound(t, s, refs.Contents(), Nodes(wires, classes, families'))
      invariant pending <= refs.families && old(refs.families) <= families' + pending
      invariant families' == families ==> refs.Contents() == old(refs.Contents())
      decreases t.families.Keys - families', pending
    {
      var name :| name in pending;
      pending := pending - {name};
      if name in families' { continue; }
      ghost var done := Nodes(wires, classes, families');
      if name !in t.families {
        ReachableStep(t, s, done, FamilyNode(name));
        return false, families';
      }
      Process(t, s, refs, done, FamilyNode(name));
      assert pending <= refs.families;
      NodesGrow(wires, classes, families', 0, name);
      families' := families' + {name};
      assert {} <= refs.families - families';
      var late :| late <= refs.families - families';
      pending := pending + late;
    }
    return true, families';
  }

  /** Passes over wires, classes and families until a whole round finds nothing new. */
  method Close(t: Tables, ghost s: Start, refs: ReferenceSet)
    returns (ok: bool, wires: set<nat>, classes: set<string>, families: set<string>)
    requires Holds(refs.Contents(), t, s, {})
    modifies refs
    ensures ok <==> !AbsentReference(t, s)
    ensures ok ==> Sound(t, s, refs.Contents(), Nodes(wires, classes, families))
    ensures ok ==> forall n :: n in Nodes(wires, classes, families) <==> Reachable(t, s, n)
  {
    wires, classes, families := {}, {}, {};
    assert Nodes(wires, classes, families) == {};
    var progress := true;
    while progress
      invariant Sound(t, s, refs.Contents(), Nodes(wires, classes, families))
      invariant !progress ==> refs.wires <= wires && refs.classes <= classes && refs.families <= families
      decreases progress, t.wires.Keys - wires, t.classes.Keys - classes, t.families.Keys - families
    {
      var wires', classes', families';
      ok, wires' := WirePass(t, s, refs, wires, classes, families);
      if !ok { return; }
      ok, classes' := ClassPass(t, s, refs, wires', classes, families);
      if !ok { return; }
      ok, families' := FamilyPass(t, s, refs, wires', classes', families);
      if !ok { return; }
      progress := wires' != wires || classes' != classes || families' != families;
      NodesDefined(t, s, refs.Contents(), wires', classes', families');
      wires, classes, families := wires', classes', families';
    }
    ghost var done := Nodes(wires, classes, families);
    assert forall x :: Referenced(t, s, done, x) ==> x in done;
    ClosureIsReachable(t, s, done);
    ok := true;
  }

  // ---------------------------------------------------------------- the codec model

  class CodecModel {
    var wires: seq<Wire>
    var classes: seq<Declaration>
    var families: seq<Declaration>
    var dynamics: seq<Declaration>
  }

  /** A later wire with the same identifier replaces an earlier one. */
  function WireTable(ws: seq<Wire>): map<nat, Wire>
  {
    if ws == [] then map[] else WireTable(ws[..|ws| - 1])[ws[|ws| - 1].id := ws[|ws| - 1]]
  }

  function DeclarationTable(ds: seq<Declaration>): map<string, Declaration>
  {
    if ds == [] then map[]
    else
      var table, d := DeclarationTable(ds[..|ds| - 1]), ds[|ds| - 1];
      if d.preflight || d.name.None? then table else table[d.name.value := d]
  }

  method IndexWires(ws: seq<Wire>) returns (table: map<nat, Wire>)
    ensures table == WireTable(ws)
  {
    table := map[];
    for i := 0 to |ws|
      invariant table == WireTable(ws[..i])
    {
      assert ws[..i + 1][..i] == ws[..i];
      table := table[ws[i].id := ws[i]];
    }
    assert ws[..|ws|] == ws;
  }

  method IndexDeclarations(ds: seq<Declaration>) returns (table: map<string, Declaration>)
    ensures table == DeclarationTable(ds)
  {
    table := map[];
    for i := 0 to |ds|
      invariant table == DeclarationTable(ds[..i])
    {
      assert ds[..i + 1][..i] == ds[..i];
      if !ds[i].preflight && ds[i].name.Some? {
        table := table[ds[i].name.value := ds[i]];
      }
    }
    assert ds[..|ds|] == ds;
  }

  function EncoderName(suffix: string): string
  {
    "layerEncodeFamily" + suffix
  }

  function StartOf(roots: set<nat>, suffixes: set<string>, texts: seq<Text>): Start
  {
    Start(roots, set x | x in suffixes :: EncoderName(x), Joined(texts))
  }

  method CollectRoots(ghost t: Tables, roots: set<nat>, suffixes: set<string>, texts: seq<Text>)
    returns (refs: ReferenceSet)
    ensures fresh(refs)
    ensures Holds(refs.Contents(), t, StartOf(roots, suffixes, texts), {})
  {
    refs := new ReferenceSet();
    refs.wires := roots;
    refs.families := set x | x in suffixes :: EncoderName(x);
    for i := 0 to |texts|
      invariant Holds(refs.Contents(), t, StartOf(roots, suffixes, texts[..i]), {})
    {
      assert texts[..i + 1][..i] == texts[..i];
      ghost var before := refs.Contents();
      refs.Collect(texts[i]);
      RootTextKeepsHolds(before, refs.Contents(), t, StartOf(roots, suffixes, texts[..i]), texts[i]);
    }
    assert texts[..|texts|] == texts;
  }

  lemma RootTextKeepsHolds(a: References, b: References, t: Tables, s: Start, text: Text)
    requires Holds(a, t, s, {})
    requires Extended(a, b, text.mentions, text.dynamic)
    ensures Holds(b, t, s.(text := Text(s.text.mentions + text.mentions, s.text.dynamic || text.dynamic)), {})
  {
    var s' := s.(text := Text(s.text.mentions + text.mentions, s.text.dynamic || text.dynamic));
    assert Mentioned(t, s', {}) == Mentioned(t, s, {}) + (set m | m in text.mentions);
    forall x
      ensures Referenced(t, s', {}, x) <==> Referenced(t, s, {}, x) || exists m :: m in text.mentions && Target(m) == x
    {
      if exists m :: m in text.mentions && Target(m) == x {
        var m :| m in text.mentions && Target(m) == x;
        assert m in Mentioned(t, s', {});
      }
      if exists m :: m in Mentioned(t, s, {}) && Target(m) == x {
        var m :| m in Mentioned(t, s, {}) && Target(m) == x;
        assert m in Mentioned(t, s', {});
      }
    }
    forall id ensures id in b.wires <==> Referenced(t, s', {}, WireNode(id)) {
      assert forall op :: WireMention(op, id) in text.mentions ==> Target(WireMention(op, id)) == WireNode(id);
    }
    forall name ensures name in b.classes <==> Referenced(t, s', {}, ClassNode(name)) {
      assert Target(ClassMention(name)) == ClassNode(name);
    }
    forall name ensures name in b.families <==> Referenced(t, s', {}, FamilyNode(name)) {
      assert Target(FamilyMention(name)) == FamilyNode(name);
    }
  }

  ghost predicate Direct(t: Tables, s: Start, w: Wire)
  {
    w.sparseDirect && Reachable(t, s, WireNode(w.id)) ==> HasOperation(t, s, w.id)
  }

  /** Keeps the processed wires in order and records which operations of the direct ones are used. */
  method KeepWires(ghost t: Tables, ghost s: Start, ws: seq<Wire>, done: set<nat>, encodes: set<nat>, decodes: set<nat>)
    returns (ok: bool, kept: seq<Wire>)
    requires forall id :: id in done <==> Reachable(t, s, WireNode(id))
    requires forall id :: id in encodes <==> Used(t, s, WireMention(Encode, id))
    requires forall id :: id in decodes <==> Used(t, s, WireMention(Decode, id))
    ensures ok <==> forall i :: 0 <= i < |ws| ==> Direct(t, s, ws[i])
    ensures ok ==> kept == KeptWires(t, s, ws)
  {
    kept := [];
    for i := 0 to |ws|
      invariant forall j :: 0 <= j < i ==> Direct(t, s, ws[j])
      invariant kept == KeptWires(t, s, ws[..i])
    {
      assert ws[..i + 1][..i] == ws[..i];
      var w := ws[i];
      if w.id in done {
        if w.sparseDirect {
          w := w.(sparseEncode := w.id in encodes, sparseDecode := w.id in decodes);
          if !w.sparseEncode && !w.sparseDecode {
            assert !Direct(t, s, ws[i]);
            return false, kept;
          }
        }
        kept := kept + [w];
      }
    }
    assert ws[..|ws|] == ws;
    return true, kept;
  }

  /** The declarations of these names, in this order. */
  function Declarations(table: map<string, Declaration>, order: seq<string>): seq<Declaration>
    requires forall name :: name in order ==> name in table
  {
    seq(|order|, i requires 0 <= i < |order| => table[order[i]])
  }

  /** The kept declarations are those of the kept names in the order of the names. */
  ghost predicate KeptInOrder(kept: seq<Declaration>, table: map<string, Declaration>, names: set<string>)
  {
    names <= table.Keys && exists order :: Lists(StringLess, order, names) && kept == Declarations(table, order)
  }

  /** Nothing is left to the order in which the kept names were found. */
  lemma KeptOrderUnique(a: seq<Declaration>, b: seq<Declaration>, table: map<string, Declaration>, names: set<string>)
    requires KeptInOrder(a, table, names) && KeptInOrder(b, table, names)
    ensures a == b
  {
    var x :| Lists(StringLess, x, names) && a == Declarations(table, x);
    var y :| Lists(StringLess, y, names) && b == Declarations(table, y);
    NamesStrict();
    ListingUnique(StringLess, x, y, names);
  }

  method KeepDeclarations(table: map<string, Declaration>, names: set<string>) returns (kept: seq<Declaration>)
    requires names <= table.Keys
    ensures KeptInOrder(kept, table, names)
  {
    NamesStrict();
    var order := Sort(StringLess, names);
    kept := [];
    for i := 0 to |order|
      invariant kept == Declarations(table, order)[..i]
    {
      assert order[i] in names;
      kept := kept + [table[order[i]]];
    }
    assert kept == Declarations(table, order);
  }

  function TablesOf(ws: seq<Wire>, classes: seq<Declaration>, families: seq<Declaration>): Tables
  {
    Tables(WireTable(ws), DeclarationTable(classes), DeclarationTable(families))
  }

  lemma PrunableParts(t: Tables, s: Start, ws: seq<Wire>)
    ensures Prunable(t, s, ws) <==>
            !AbsentReference(t, s) && !ReachesDynamic(t, s) && (forall i :: 0 <= i < |ws| ==> Direct(t, s, ws[i]))
  {
  }

  /** What a finished closure says about the recorded references. */
  lemma ClosedReferences(t: Tables, s: Start, r: References, done: set<Node>)
    requires Sound(t, s, r, done)
    requires forall n :: n in done <==> Reachable(t, s, n)
    ensures forall id :: id in r.encodes <==> Used(t, s, WireMention(Encode, id))
    ensures forall id :: id in r.decodes <==> Used(t, s, WireMention(Decode, id))
    ensures r.dynamic <==> ReachesDynamic(t, s)
  {
    forall x | Referenced(t, s, done, x) ensures x in done {
      ReachableStep(t, s, done, x);
    }
    ClosureIsReachable(t, s, done);
  }

  /** The closure of the roots: the wires to keep and the names of the class and family functions to keep. */
  method Select(t: Tables, ws: seq<Wire>, roots: set<nat>, suffixes: set<string>, texts: seq<Text>)
    returns (ok: bool, kept: seq<Wire>, classes: set<string>, families: set<string>)
    ensures ok <==> Prunable(t, StartOf(roots, suffixes, texts), ws)
    ensures ok ==> Selected(t, StartOf(roots, suffixes, texts), ws, kept, classes, families)
  {
    ghost var s := StartOf(roots, suffixes, texts);
    PrunableParts(t, s, ws);
    var refs := CollectRoots(t, roots, suffixes, texts);
    var wires;
    kept := [];
    ok, wires, classes, families := Close(t, s, refs);
    if !ok { return; }
    ghost var done := Nodes(wires, classes, families);
    ClosedReferences(t, s, refs.Contents(), done);
    if refs.dynamic { return false, kept, classes, families; }
    DoneByKind(t, s, wires, classes, families);
    ok, kept := KeepWires(t, s, ws, wires, refs.encodes, refs.decodes);
    NodesDefined(t, s, refs.Contents(), wires, classes, families);
  }

  lemma DoneByKind(t: Tables, s: Start, wires: set<nat>, classes: set<string>, families: set<string>)
    requires forall n :: n in Nodes(wires, classes, families) <==> Reachable(t, s, n)
    ensures forall id :: id in wires <==> Reachable(t, s, WireNode(id))
    ensures forall name :: name in classes <==> Reachable(t, s, ClassNode(name))
    ensures forall name :: name in families <==> Reachable(t, s, FamilyNode(name))
  {
    forall id ensures id in wires <==> WireNode(id) in Nodes(wires, classes, families) {}
    forall name ensures name in classes <==> ClassNode(name) in Nodes(wires, classes, families) {}
    forall name ensures name in families <==> FamilyNode(name) in Nodes(wires, classes, families) {}
  }

  /** Exactly the reachable converters are kept, each of them defined. */
  ghost predicate Selected(t: Tables, s: Start, ws: seq<Wire>, kept: seq<Wire>, classes: set<string>,
                           families: set<string>)
  {
    && kept == KeptWires(t, s, ws)
    && (forall name :: name in classes <==> Reachable(t, s, ClassNode(name)))
    && (forall name :: name in families <==> Reachable(t, s, FamilyNode(name)))
    && classes <= t.classes.Keys && families <= t.families.Keys
  }

  /**
    Prunes the model to the converters reachable from the roots, or fails and leaves it
    alone; which of the two happens depends only on the reference graph.
   */
  method Prune(model: CodecModel, roots: set<nat>, suffixes: set<string>, texts: seq<Text>)
    returns (ok: bool, ghost classes: set<string>, ghost families: set<string>)
    modifies model
    ensures ok <==> old(Prunable(TablesOf(model.wires, model.classes, model.families), StartOf(roots, suffixes, texts),
                                 model.wires))
    ensures ok ==>
      var t := old(TablesOf(model.wires, model.classes, model.families));
      && Selected(t, StartOf(roots, suffixes, texts), old(model.wires), model.wires, classes, families)
      && KeptInOrder(model.classes, t.classes, classes)
      && KeptInOrder(model.families, t.families, families)
      && model.dynamics == []
    ensures !ok ==> unchanged(model)
  {
    var wireTable := IndexWires(model.wires);
    var classTable := IndexDeclarations(model.classes);
    var familyTable := IndexDeclarations(model.families);
    var kept, keptClasses, keptFamilies;
    ok, kept, keptClasses, keptFamilies := Select(Tables(wireTable, classTable, familyTable), model.wires, roots,
                                                  suffixes, texts);
    classes, families := keptClasses, keptFamilies;
    if !ok { return; }
    var classDeclarations := KeepDeclarations(classTable, keptClasses);
    var familyDeclarations := KeepDeclarations(familyTable, keptFamilies);
    model.wires, model.classes, model.families, model.dynamics := kept, classDeclarations, familyDeclarations, [];
  }
}

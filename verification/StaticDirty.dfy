/**
  Which families of a layer can contain, at any depth, a family whose bytes changed:
  reverse reachability over the (cyclic) dependency graph of two schemas.
 */
module StaticDirty {
  import opened Schema

  /** One canonical schema, one target layer, and every family of the schema set. */
  datatype Universe = Universe(families: set<Key>, canonical: SchemaModel, target: SchemaModel)

  datatype Dirty = Dirty(body: bool, result: bool, own: bool, nested: bool)

  ghost predicate ValidUniverse(u: Universe)
  {
    && ValidSchema(u.canonical) && ValidSchema(u.target)
    && u.canonical.byKey.Keys <= u.families && u.target.byKey.Keys <= u.families
  }

  predicate BodyChanged(u: Universe, k: Key)
  {
    match (Lookup(u.canonical, k), Lookup(u.target, k))
    case (None, None) => false
    case (Some(c), Some(t)) => c.wireID != t.wireID || !SameBody(c, t)
    case _ => true
  }

  predicate ResultChanged(u: Universe, k: Key)
  {
    match (Lookup(u.canonical, k), Lookup(u.target, k))
    case (Some(c), Some(t)) => k.category.CategoryFunction? && c.result != t.result
    case _ => false
  }

  // ---------------------------------------------------------------- dependencies

  function TypeDependencies(u: Universe, t: TypeRef): set<Key>
  {
    match t.kind
    case TypeVector => if t.arg.Some? then TypeDependencies(u, t.arg.value) else {}
    case TypeNamed =>
      var exact := {Key(CategoryType, t.qname)} * u.families;
      if t.bare || t.percent then exact
      else
        var found := Constructors(u.canonical, t.qname) + Constructors(u.target, t.qname);
        if found != {} then found else exact
    case _ => {}
  }

  ghost predicate DefinitionDependsOn(u: Universe, d: Definition, dep: Key)
  {
    exists i :: 0 <= i < |d.fields| && d.fields[i].kind.FieldValue? && dep in TypeDependencies(u, d.fields[i].ty)
  }

  ghost predicate DefinitionDynamic(d: Definition)
  {
    exists i :: 0 <= i < |d.fields| && d.fields[i].kind.FieldValue? && TypeDynamic(d.fields[i].ty)
  }

  /** Field dependencies of either variant; results are not body dependencies. */
  ghost predicate DependsOn(u: Universe, k: Key, dep: Key)
  {
    || (k in u.canonical.byKey && DefinitionDependsOn(u, u.canonical.byKey[k], dep))
    || (k in u.target.byKey && DefinitionDependsOn(u, u.target.byKey[k], dep))
  }

  ghost predicate IsDynamic(u: Universe, k: Key)
  {
    || (k in u.canonical.byKey && DefinitionDynamic(u.canonical.byKey[k]))
    || (k in u.target.byKey && DefinitionDynamic(u.target.byKey[k]))
  }

  // ---------------------------------------------------------------- specification

  ghost predicate SomeBodyChanged(u: Universe)
  {
    exists k :: k in u.families && BodyChanged(u, k)
  }

  /**
    `s` contains every dynamic parent (once anything changed) and every family with another dirty
    or nested dependency.
   */
  ghost predicate NestedClosed(u: Universe, s: set<Key>)
  {
    && (SomeBodyChanged(u) ==> forall k :: k in u.families && IsDynamic(u, k) ==> k in s)
    && forall k, d :: k in u.families && DependsOn(u, k, d) && d != k && (BodyChanged(u, d) || d in s) ==> k in s
  }

  ghost predicate LeastNested(u: Universe, s: set<Key>)
  {
    && s <= u.families
    && NestedClosed(u, s)
    && forall s' :: NestedClosed(u, s') ==> s <= s'
  }

  ghost function NestedKeys(states: map<Key, Dirty>): set<Key>
  {
    set k | k in states && states[k].nested
  }

  /** The complete meaning of one analysis result. */
  ghost predicate Analysis(u: Universe, states: map<Key, Dirty>)
  {
    && states.Keys == u.families
    && (forall k :: k in u.families ==>
          && states[k].body == BodyChanged(u, k)
          && states[k].result == ResultChanged(u, k)
          && states[k].own == (BodyChanged(u, k) || ResultChanged(u, k)))
    && LeastNested(u, NestedKeys(states))
  }

  /** Two analyses of the same universe agree, whatever order the maps were visited in. */
  lemma AnalysisUnique(u: Universe, a: map<Key, Dirty>, b: map<Key, Dirty>)
    requires Analysis(u, a) && Analysis(u, b)
    ensures a == b
  {
    assert NestedKeys(a) <= NestedKeys(b) <= NestedKeys(a);
    forall k | k in u.families
      ensures a[k] == b[k]
    {
      assert k in NestedKeys(a) <==> k in NestedKeys(b);
    }
  }

  lemma {:induction false} TypeDependenciesKnown(u: Universe, t: TypeRef)
    requires ValidUniverse(u)
    ensures TypeDependencies(u, t) <= u.families
    decreases t
  {
    if t.kind.TypeVector? && t.arg.Some? {
      TypeDependenciesKnown(u, t.arg.value);
    }
  }

  // ---------------------------------------------------------------- the worklist

  method CollectType(u: Universe, t: TypeRef, into: set<Key>) returns (dynamic: bool, out: set<Key>)
    ensures out == into + TypeDependencies(u, t)
    ensures dynamic == TypeDynamic(t)
    decreases t
  {
    dynamic, out := false, into;
    match t.kind {
      case TypeVector =>
        if t.arg.Some? {
          dynamic, out := CollectType(u, t.arg.value, into);
        }
      case TypeNamed =>
        var exact := Key(CategoryType, t.qname);
        if t.bare || t.percent {
          if exact in u.families { out := out + {exact}; }
          return;
        }
        var found := Constructors(u.canonical, t.qname) + Constructors(u.target, t.qname);
        out := out + found;
        if found == {} && exact in u.families { out := out + {exact}; }
      case TypeGenericRef => dynamic := true;
      case TypePrimitive => dynamic := t.qname == "Object";
    }
  }

  method CollectDefinition(u: Universe, d: Definition, into: set<Key>) returns (dynamic: bool, out: set<Key>)
    ensures dynamic == DefinitionDynamic(d)
    ensures forall dep :: dep in out <==> dep in into || DefinitionDependsOn(u, d, dep)
  {
    dynamic, out := false, into;
    for i := 0 to |d.fields|
      invariant dynamic == exists j :: 0 <= j < i && d.fields[j].kind.FieldValue? && TypeDynamic(d.fields[j].ty)
      invariant forall dep :: dep in out <==>
                  (dep in into ||
                   exists j :: 0 <= j < i && d.fields[j].kind.FieldValue? && dep in TypeDependencies(u, d.fields[j].ty))
    {
      if d.fields[i].kind.FieldValue? {
        var fieldDynamic;
        fieldDynamic, out := CollectType(u, d.fields[i].ty, out);
        dynamic := fieldDynamic || dynamic;
      }
    }
  }

  method CollectFamily(u: Universe, k: Key) returns (dynamic: bool, out: set<Key>)
    ensures dynamic == IsDynamic(u, k)
    ensures forall dep :: dep in out <==> DependsOn(u, k, dep)
  {
    dynamic, out := false, {};
    if k in u.canonical.byKey {
      dynamic, out := CollectDefinition(u, u.canonical.byKey[k], out);
    }
    if k in u.target.byKey {
      var targetDynamic;
      targetDynamic, out := CollectDefinition(u, u.target.byKey[k], out);
      dynamic := targetDynamic || dynamic;
    }
  }

  /** `reverse[d]` lists the parents among `done` that depend on `d`, self edges left out. */
  ghost predicate ReverseOf(u: Universe, done: set<Key>, reverse: map<Key, set<Key>>)
  {
    && (forall k, d :: k in done && DependsOn(u, k, d) && d != k ==> Edge(reverse, d, k))
    && (forall d, k :: Edge(reverse, d, k) ==> k in done && DependsOn(u, k, d) && d != k)
  }

  predicate Edge(reverse: map<Key, set<Key>>, d: Key, k: Key)
  {
    d in reverse && k in reverse[d]
  }

  method AddReverseEdges(u: Universe, ghost done: set<Key>, k: Key, deps: set<Key>, reverse: map<Key, set<Key>>)
    returns (out: map<Key, set<Key>>)
    requires ReverseOf(u, done, reverse) && k !in done
    requires forall dep :: dep in deps <==> DependsOn(u, k, dep)
    ensures ReverseOf(u, done + {k}, out)
  {
    out := reverse;
    var todo := deps;
    EdgesStart(u, done, k, out);
    assert deps - todo == {};
    while todo != {}
      invariant todo <= deps && EdgesSoFar(u, done, k, deps - todo, out)
      decreases |todo|
    {
      var d :| d in todo;
      ghost var before, seen := out, deps - todo;
      assert deps - (todo - {d}) == seen + {d};
      todo := todo - {d};
      if d != k {
        out := out[d := (if d in out then out[d] else {}) + {k}];
      }
      EdgesStep(u, done, k, seen, before, d, out);
    }
    assert deps - todo == deps;
    EdgesEnd(u, done, k, deps, out);
  }

  /** `out` holds the edges of `done` and those of `k` to the dependencies seen so far. */
  ghost predicate EdgesSoFar(u: Universe, done: set<Key>, k: Key, seen: set<Key>, out: map<Key, set<Key>>)
  {
    && (forall k', d :: k' in done && DependsOn(u, k', d) && d != k' ==> Edge(out, d, k'))
    && (forall d :: d in seen && d != k ==> Edge(out, d, k))
    && (forall d, k' :: Edge(out, d, k') ==> k' in done + {k} && DependsOn(u, k', d) && d != k')
  }

  lemma EdgesStart(u: Universe, done: set<Key>, k: Key, out: map<Key, set<Key>>)
    requires ReverseOf(u, done, out)
    ensures EdgesSoFar(u, done, k, {}, out)
  {
  }

  lemma EdgesStep(u: Universe, done: set<Key>, k: Key, seen: set<Key>, out: map<Key, set<Key>>, d: Key, next: map<Key,
                  set<Key>>)
    requires EdgesSoFar(u, done, k, seen, out) && DependsOn(u, k, d)
    requires next == if d != k then out[d := (if d in out then out[d] else {}) + {k}] else out
    ensures EdgesSoFar(u, done, k, seen + {d}, next)
  {
    forall d', k' | Edge(next, d', k') ensures k' in done + {k} && DependsOn(u, k', d') && d' != k' {
      assert (d' == d && k' == k) || Edge(out, d', k');
    }
    forall k', d' | k' in done && DependsOn(u, k', d') && d' != k' ensures Edge(next, d', k') {
      assert Edge(out, d', k');
    }
    forall d' | d' in seen + {d} && d' != k ensures Edge(next, d', k) {
      assert d' == d || Edge(out, d', k);
    }
  }

  lemma EdgesEnd(u: Universe, done: set<Key>, k: Key, deps: set<Key>, out: map<Key, set<Key>>)
    requires EdgesSoFar(u, done, k, deps, out) && forall dep :: dep in deps <==> DependsOn(u, k, dep)
    ensures ReverseOf(u, done + {k}, out)
  {
    forall k', d | k' in done + {k} && DependsOn(u, k', d) && d != k' ensures Edge(out, d, k') {
      if k' == k { assert d in deps; }
    }
  }

  // ---------------------------------------------------------------- marking

  /** The marking step of both loops: every unmarked parent becomes nested and joins the queue. */
  method MarkParents(parents: set<Key>, nested: set<Key>, queue: seq<Key>)
    returns (nested': set<Key>, queue': seq<Key>)
    ensures nested' == nested + parents
    ensures queue <= queue'
    ensures forall k :: k in queue' <==> k in queue || k in parents - nested
    ensures parents <= nested ==> queue' == queue
  {
    nested', queue' := nested, queue;
    var todo := parents;
    while todo != {}
      invariant todo <= parents
      invariant nested' == nested + (parents - todo)
      invariant queue <= queue'
      invariant forall k :: k in queue' <==> k in queue || k in (parents - todo) - nested
      invariant parents <= nested ==> queue' == queue
      decreases |todo|
    {
      var parent :| parent in todo;
      todo := todo - {parent};
      if parent !in nested' {
        nested' := nested' + {parent};
        queue' := queue' + [parent];
      }
    }
  }

  /** `s` contains `base` and everything with an edge from a seed or from `s` itself. */
  ghost predicate EdgeClosed(reverse: map<Key, set<Key>>, seeds: set<Key>, base: set<Key>, s: set<Key>)
  {
    base <= s && forall d :: d in reverse && (d in seeds || d in s) ==> reverse[d] <= s
  }

  ghost predicate InEveryClosed(reverse: map<Key, set<Key>>, seeds: set<Key>, base: set<Key>, t: set<Key>)
  {
    forall s :: EdgeClosed(reverse, seeds, base, s) ==> t <= s
  }

  lemma ParentsInEveryClosed(reverse: map<Key, set<Key>>, seeds: set<Key>, base: set<Key>, t: set<Key>, d: Key)
    requires InEveryClosed(reverse, seeds, base, t)
    requires d in reverse && (d in seeds || d in t)
    ensures InEveryClosed(reverse, seeds, base, t + reverse[d])
  {
  }

  /** The growing queue: starts at the seeds and the base, ends at the least closed set. */
  method Propagate(ghost all: set<Key>, reverse: map<Key, set<Key>>, ghost seeds: set<Key>, base: set<Key>,
                   queue0: seq<Key>)
    returns (nested: set<Key>)
    requires base <= all && forall d :: d in reverse ==> reverse[d] <= all
    requires forall k :: k in queue0 <==> k in seeds || k in base
    ensures nested <= all
    ensures EdgeClosed(reverse, seeds, base, nested)
    ensures InEveryClosed(reverse, seeds, base, nested)
  {
    nested := base;
    var queue := queue0;
    var head := 0;
    while head < |queue|
      invariant 0 <= head <= |queue|
      invariant base <= nested <= all
      invariant forall k :: k in queue <==> k in seeds || k in nested
      invariant forall i :: 0 <= i < head && queue[i] in reverse ==> reverse[queue[i]] <= nested
      invariant InEveryClosed(reverse, seeds, base, nested)
      decreases |all - nested|, |queue| - head
    {
      var dependency := queue[head];
      var parents := if dependency in reverse then reverse[dependency] else {};
      ghost var before := nested;
      if dependency in reverse {
        ParentsInEveryClosed(reverse, seeds, base, nested, dependency);
      }
      nested, queue := MarkParents(parents, nested, queue);
      head := head + 1;
      if !(parents <= before) {
        SubsetShrinks(all, before, nested);
      } else {
        assert nested == before;
      }
    }
  }

  lemma SubsetShrinks(all: set<Key>, a: set<Key>, b: set<Key>)
    requires a < b <= all
    ensures |all - b| < |all - a|
  {
    var x :| x in b && x !in a;
    assert all - a == (all - b) + (b - a);
  }

  // ---------------------------------------------------------------- the analysis

  /** What the first loop of the analysis has established for the families in `done`. */
  ghost predicate Collected(u: Universe, done: set<Key>, dynamicParents: set<Key>, queue: seq<Key>)
  {
    && (forall k :: k in dynamicParents <==> k in done && IsDynamic(u, k))
    && (forall k :: k in queue <==> k in done && BodyChanged(u, k))
  }

  method CollectAll(u: Universe) returns (reverse: map<Key, set<Key>>, dynamicParents: set<Key>, queue: seq<Key>)
    ensures Collected(u, u.families, dynamicParents, queue)
    ensures ReverseOf(u, u.families, reverse)
  {
    reverse, dynamicParents, queue := map[], {}, [];
    var todo := u.families;
    ghost var done := {};
    while todo != {}
      invariant todo !! done && todo + done == u.families
      invariant Collected(u, done, dynamicParents, queue)
      invariant ReverseOf(u, done, reverse)
      decreases |todo|
    {
      var k :| k in todo;
      todo := todo - {k};
      var dynamic, deps := CollectFamily(u, k);
      reverse := AddReverseEdges(u, done, k, deps, reverse);
      if BodyChanged(u, k) { queue := queue + [k]; }
      if dynamic { dynamicParents := dynamicParents + {k}; }
      done := done + {k};
    }
    assert done == u.families;
  }

  /** The whole analysis: collect, mark the dynamic parents, propagate, and record one state per family. */
  method Analyze(u: Universe) returns (states: map<Key, Dirty>)
    requires ValidUniverse(u)
    ensures Analysis(u, states)
  {
    var reverse, dynamicParents, queue := CollectAll(u);
    ghost var seeds := set k | k in queue;
    var base := {};
    if |queue| != 0 {
      assert BodyChanged(u, queue[0]) && queue[0] in u.families;
      base, queue := MarkParents(dynamicParents, base, queue);
    }
    forall d, k | d in reverse && k in reverse[d] ensures k in u.families { assert Edge(reverse, d, k); }
    var nested := Propagate(u.families, reverse, seeds, base, queue);
    LeastFromEdges(u, reverse, seeds, base, nested);
    states := map k | k in u.families ::
      Dirty(BodyChanged(u, k), ResultChanged(u, k), BodyChanged(u, k) || ResultChanged(u, k), k in nested);
    assert NestedKeys(states) == nested;
  }

  /** Closure over the collected edges is the declarative closure over the two schemas. */
  lemma LeastFromEdges(u: Universe, reverse: map<Key, set<Key>>, seeds: set<Key>, base: set<Key>, s: set<Key>)
    requires ValidUniverse(u) && ReverseOf(u, u.families, reverse)
    requires forall k :: k in seeds <==> k in u.families && BodyChanged(u, k)
    requires forall k :: k in base <==> k in u.families && IsDynamic(u, k) && SomeBodyChanged(u)
    requires EdgeClosed(reverse, seeds, base, s) && s <= u.families
    requires InEveryClosed(reverse, seeds, base, s)
    ensures LeastNested(u, s)
  {
    ClosedIsEdgeClosed(u, reverse, seeds, base, s);
    forall s' | NestedClosed(u, s')
      ensures s <= s'
    {
      ClosedIsEdgeClosed(u, reverse, seeds, base, s');
    }
  }

  lemma ClosedIsEdgeClosed(u: Universe, reverse: map<Key, set<Key>>, seeds: set<Key>, base: set<Key>, s: set<Key>)
    requires ValidUniverse(u) && ReverseOf(u, u.families, reverse)
    requires forall k :: k in seeds <==> k in u.families && BodyChanged(u, k)
    requires forall k :: k in base <==> k in u.families && IsDynamic(u, k) && SomeBodyChanged(u)
    ensures NestedClosed(u, s) <==> EdgeClosed(reverse, seeds, base, s)
  {
    if EdgeClosed(reverse, seeds, base, s) {
      forall k, d | k in u.families && DependsOn(u, k, d) && d != k && (BodyChanged(u, d) || d in s)
        ensures k in s
      {
        DependencyKnown(u, k, d);
        assert Edge(reverse, d, k);
      }
    }
    if NestedClosed(u, s) {
      forall d, k | d in reverse && (d in seeds || d in s) && k in reverse[d]
        ensures k in s
      {
        assert Edge(reverse, d, k);
      }
    }
  }

  lemma DependencyKnown(u: Universe, k: Key, d: Key)
    requires ValidUniverse(u) && DependsOn(u, k, d)
    ensures d in u.families
  {
    var def := if k in u.canonical.byKey && DefinitionDependsOn(u, u.canonical.byKey[k], d)
               then u.canonical.byKey[k] else u.target.byKey[k];
    var i :| 0 <= i < |def.fields| && def.fields[i].kind.FieldValue? && d in TypeDependencies(u, def.fields[i].ty);
    TypeDependenciesKnown(u, def.fields[i].ty);
  }
}

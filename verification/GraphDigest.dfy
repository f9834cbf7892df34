/**
  Transitive digests of definitions: the reachable part of a (cyclic) schema graph is
  written as one length-prefixed stream, sorted by key, and hashed.
 */
module GraphDigest {
  import opened Bin
  import opened Ordering
  import opened Schema
  import opened Streams

  /** A schema with the shape digests stored in its definitions. */
  datatype Graph = Graph(schema: SchemaModel, wireShape: map<Key, seq<Byte>>, bodyShape: map<Key, seq<Byte>>)

  ghost predicate ValidGraph(g: Graph)
  {
    ValidSchema(g.schema) && g.wireShape.Keys == g.schema.byKey.Keys == g.bodyShape.Keys
  }

  /** What the stream says about one definition. */
  datatype Record = Record(key: Key, wireID: nat, wireShape: seq<Byte>, bodyShape: seq<Byte>, dependencies: seq<Key>)

  // ---------------------------------------------------------------- key order

  predicate KeyLess(a: Key, b: Key)
  {
    || (a.category.CategoryType? && b.category.CategoryFunction?)
    || (a.category == b.category && StringLess(a.qname, b.qname))
  }

  lemma KeysStrict()
    ensures Strict(KeyLess)
  {
    NamesStrict();
    forall a, b | a != b ensures KeyLess(a, b) || KeyLess(b, a) {
      assert a.category != b.category || a.qname != b.qname;
    }
    forall a, b, c | KeyLess(a, b) && KeyLess(b, c) ensures KeyLess(a, c) {
      assert StringLess(a.qname, b.qname) && StringLess(b.qname, c.qname) ==> StringLess(a.qname, c.qname);
    }
  }

  /** `sortSemanticKeys` applied to the keys of a map visited in any order. */
  method SortKeys(keys: set<Key>) returns (s: seq<Key>)
    ensures Lists(KeyLess, s, keys)
  {
    KeysStrict();
    s := Sort(KeyLess, keys);
  }

  // ---------------------------------------------------------------- dependencies

  function TypeDependencies(s: SchemaModel, t: TypeRef): set<Key>
  {
    match t.kind
    case TypeVector => if t.arg.Some? then TypeDependencies(s, t.arg.value) else {}
    case TypeNamed =>
      var exact := {Key(CategoryType, t.qname)} * s.byKey.Keys;
      if t.bare || t.percent || Constructors(s, t.qname) == {} then exact else Constructors(s, t.qname)
    case _ => {}
  }

  ghost predicate Dynamic(d: Definition)
  {
    exists i :: 0 <= i < |d.fields| && d.fields[i].kind.FieldValue? && TypeDynamic(d.fields[i].ty)
  }

  /** A dynamic definition can contain anything; otherwise the edges are those of its value fields. */
  ghost predicate DependsOn(s: SchemaModel, k: Key, dep: Key)
  {
    k in s.byKey && dep in s.byKey &&
    (Dynamic(s.byKey[k]) || exists i :: FieldDependsOn(s, s.byKey[k], i, dep))
  }

  ghost predicate FieldDependsOn(s: SchemaModel, d: Definition, i: int, dep: Key)
  {
    0 <= i < |d.fields| && d.fields[i].kind.FieldValue? && dep in TypeDependencies(s, d.fields[i].ty)
  }

  lemma {:induction false} TypeDependenciesPresent(s: SchemaModel, t: TypeRef)
    ensures TypeDependencies(s, t) <= s.byKey.Keys
    decreases t
  {
    if t.kind.TypeVector? && t.arg.Some? {
      TypeDependenciesPresent(s, t.arg.value);
    }
  }

  /** Adds the dependencies of a type to `before` and reports whether the type is dynamic. */
  method CollectType(s: SchemaModel, t: TypeRef, before: set<Key>) returns (after: set<Key>, dynamic: bool)
    ensures after == before + TypeDependencies(s, t)
    ensures dynamic == TypeDynamic(t)
    decreases t
  {
    after, dynamic := before, false;
    match t.kind {
      case TypeVector =>
        if t.arg.Some? { after, dynamic := CollectType(s, t.arg.value, before); }
      case TypeNamed =>
        var exact := Key(CategoryType, t.qname);
        var constructors := Constructors(s, t.qname);
        if t.bare || t.percent || constructors == {} {
          if exact in s.byKey { after := after + {exact}; }
        } else {
          after := after + constructors;
        }
      case TypeGenericRef => dynamic := true;
      case TypePrimitive => dynamic := t.qname == "Object";
    }
  }

  method Dependencies(s: SchemaModel, d: Definition) returns (deps: set<Key>)
    requires d.key in s.byKey && s.byKey[d.key] == d
    ensures forall k :: k in deps <==> DependsOn(s, d.key, k)
  {
    deps := {};
    var dynamic := false;
    for i := 0 to |d.fields|
      invariant forall k :: k in deps <==> exists j :: 0 <= j < i && FieldDependsOn(s, d, j, k)
      invariant dynamic <==> exists j :: 0 <= j < i && d.fields[j].kind.FieldValue? && TypeDynamic(d.fields[j].ty)
    {
      ghost var before := deps;
      if d.fields[i].kind.FieldValue? {
        var found;
        deps, found := CollectType(s, d.fields[i].ty, deps);
        dynamic := found || dynamic;
      }
      assert forall k :: k in deps <==> k in before || FieldDependsOn(s, d, i, k);
    }
    FieldDependenciesPresent(s, d);
    if dynamic { deps := deps + s.byKey.Keys; }
  }

  lemma FieldDependenciesPresent(s: SchemaModel, d: Definition)
    ensures forall i, k :: FieldDependsOn(s, d, i, k) ==> k in s.byKey
  {
    forall i, k | FieldDependsOn(s, d, i, k) ensures k in s.byKey {
      TypeDependenciesPresent(s, d.fields[i].ty);
    }
  }

  // ---------------------------------------------------------------- reachability

  /** `k` is reached from a root through at most `n` edges. */
  ghost predicate ReachedIn(s: SchemaModel, roots: seq<Key>, k: Key, n: nat)
    decreases n
  {
    k in roots || (n > 0 && exists k' :: ReachedIn(s, roots, k', n - 1) && DependsOn(s, k', k))
  }

  ghost predicate Reached(s: SchemaModel, roots: seq<Key>, k: Key)
  {
    exists n: nat :: ReachedIn(s, roots, k, n)
  }

  lemma ReachedStep(s: SchemaModel, roots: seq<Key>, k: Key, dep: Key)
    requires Reached(s, roots, k) && DependsOn(s, k, dep)
    ensures Reached(s, roots, dep)
  {
    var n: nat :| ReachedIn(s, roots, k, n);
    assert ReachedIn(s, roots, dep, n + 1);
  }

  lemma {:induction false} ClosedContains(s: SchemaModel, roots: seq<Key>, keys: set<Key>, k: Key, n: nat)
    requires forall r :: r in roots ==> r in keys
    requires forall x, y :: x in keys && DependsOn(s, x, y) ==> y in keys
    requires ReachedIn(s, roots, k, n)
    ensures k in keys
    decreases n
  {
    if k !in roots {
      var k' :| ReachedIn(s, roots, k', n - 1) && DependsOn(s, k', k);
      ClosedContains(s, roots, keys, k', n - 1);
    }
  }

  /** The search visits exactly the definitions reachable from its roots; it fails only on an absent root. */
  method Search(s: SchemaModel, roots: seq<Key>) returns (ok: bool, seen: set<Key>)
    requires forall k :: k in s.byKey ==> s.byKey[k].key == k
    ensures ok <==> forall r :: r in roots ==> r in s.byKey
    ensures ok ==> seen <= s.byKey.Keys && forall k :: k in seen <==> Reached(s, roots, k)
  {
    seen := {};
    var queue := roots;
    var head := 0;
    forall k | k in queue ensures Reached(s, roots, k) {
      assert ReachedIn(s, roots, k, 0);
    }
    while head < |queue|
      invariant 0 <= head <= |queue| && seen <= s.byKey.Keys
      invariant forall k :: k in roots ==> k in queue
      invariant forall k :: k in queue ==> Reached(s, roots, k)
      invariant forall k :: k in queue && k !in roots ==> k in s.byKey
      invariant forall k :: k in seen <==> k in queue[..head]
      invariant forall x, y :: x in seen && DependsOn(s, x, y) ==> y in queue
      decreases s.byKey.Keys - seen, |queue| - head
    {
      var key := queue[head];
      assert queue[..head + 1] == queue[..head] + [key];
      head := head + 1;
      if key in seen { continue; }
      if key !in s.byKey { return false, seen; }
      var deps := Dependencies(s, s.byKey[key]);
      var ordered := SortKeys(deps);
      forall k | k in ordered ensures Reached(s, roots, k) {
        ReachedStep(s, roots, key, k);
      }
      seen := seen + {key};
      assert (queue + ordered)[..head] == queue[..head];
      queue := queue + ordered;
    }
    assert queue[..head] == queue;
    forall k | Reached(s, roots, k) ensures k in seen {
      var n: nat :| ReachedIn(s, roots, k, n);
      ClosedContains(s, roots, seen, k, n);
    }
    ok := true;
  }

  // ---------------------------------------------------------------- the stream

  const DOMAIN := "gotd.tlprofile.transitive-graph.v1"
  function KeyText(k: Key): string
  {
    (if k.category.CategoryFunction? then "function:" else "type:") + k.qname
  }

  function KeyBytes(k: Key): seq<Byte>
  {
    Blob(Text(KeyText(k)))
  }

  function RecordBytes(r: Record): seq<Byte>
  {
    KeyBytes(r.key) + LE(8, r.wireID) + Blob(r.wireShape) + Blob(r.bodyShape) +
    LE(8, |r.dependencies|) + List(KeyBytes, r.dependencies)
  }

  function Stream(rs: seq<Record>): seq<Byte>
  {
    Blob(Text(DOMAIN)) + (LE(8, |rs|) + List(RecordBytes, rs))
  }

  /** Names are byte strings and every length fits the 64-bit prefix, as it does for every Go value. */
  ghost predicate FitsKey(k: Key)
  {
    ByteString(k.qname) && |KeyText(k)| < WORD
  }

  ghost predicate FitsRecord(r: Record)
  {
    && FitsKey(r.key) && r.wireID < WORD && |r.wireShape| < WORD && |r.bodyShape| < WORD && |r.dependencies| < WORD
    && forall i :: 0 <= i < |r.dependencies| ==> FitsKey(r.dependencies[i])
  }

  ghost predicate Fits(rs: seq<Record>)
  {
    |rs| < WORD && forall i :: 0 <= i < |rs| ==> FitsRecord(rs[i])
  }

  // ---------------------------------------------------------------- unique parsing

  lemma KeyInjective(a: Key, b: Key)
    requires FitsKey(a) && FitsKey(b) && Text(KeyText(a)) == Text(KeyText(b))
    ensures a == b
  {
    TextInjective(KeyText(a), KeyText(b));
    assert KeyText(a)[0] == KeyText(b)[0];
    var n := if a.category.CategoryFunction? then 9 else 5;
    assert a.qname == KeyText(a)[n..] && b.qname == KeyText(b)[n..];
  }

  lemma KeySplits(a: Key, b: Key)
    requires FitsKey(a) && FitsKey(b)
    ensures Splits(KeyBytes, a, b)
  {
    forall x, y | KeyBytes(a) + x == KeyBytes(b) + y ensures a == b && x == y {
      BlobCancel(Text(KeyText(a)), Text(KeyText(b)), x, y);
      KeyInjective(a, b);
    }
  }

  lemma RecordSplits(a: Record, b: Record)
    requires FitsRecord(a) && FitsRecord(b)
    ensures Splits(RecordBytes, a, b)
  {
    forall x, y | RecordBytes(a) + x == RecordBytes(b) + y ensures a == b && x == y {
      RecordCancel(a, b, x, y);
    }
  }

  lemma RecordCancel(a: Record, b: Record, x: seq<Byte>, y: seq<Byte>)
    requires FitsRecord(a) && FitsRecord(b) && RecordBytes(a) + x == RecordBytes(b) + y
    ensures a == b && x == y
  {
    RecordRest(a, x);
    RecordRest(b, y);
    var a4, b4 := List(KeyBytes, a.dependencies) + x, List(KeyBytes, b.dependencies) + y;
    var a3, b3 := LE(8, |a.dependencies|) + a4, LE(8, |b.dependencies|) + b4;
    var a2, b2 := Blob(a.bodyShape) + a3, Blob(b.bodyShape) + b3;
    var a1, b1 := Blob(a.wireShape) + a2, Blob(b.wireShape) + b2;
    KeySplits(a.key, b.key);
    assert KeyBytes(a.key) + (LE(8, a.wireID) + a1) == KeyBytes(b.key) + (LE(8, b.wireID) + b1);
    WordCancel(a.wireID, b.wireID, a1, b1);
    BlobCancel(a.wireShape, b.wireShape, a2, b2);
    BlobCancel(a.bodyShape, b.bodyShape, a3, b3);
    WordCancel(|a.dependencies|, |b.dependencies|, a4, b4);
    DependenciesCancel(a, b, x, y);
  }

  lemma RecordRest(r: Record, x: seq<Byte>)
    ensures RecordBytes(r) + x ==
            KeyBytes(r.key) +
            (LE(8, r.wireID) + (Blob(r.wireShape) +
                                (Blob(r.bodyShape) + (LE(8, |r.dependencies|) + (List(KeyBytes, r.dependencies) + x)))))
  {
  }

  lemma DependenciesCancel(a: Record, b: Record, x: seq<Byte>, y: seq<Byte>)
    requires FitsRecord(a) && FitsRecord(b) && |a.dependencies| == |b.dependencies|
    requires List(KeyBytes, a.dependencies) + x == List(KeyBytes, b.dependencies) + y
    ensures a.dependencies == b.dependencies && x == y
  {
    forall i | 0 <= i < |a.dependencies| ensures Splits(KeyBytes, a.dependencies[i], b.dependencies[i]) {
      KeySplits(a.dependencies[i], b.dependencies[i]);
    }
    ListCancel(KeyBytes, a.dependencies, b.dependencies, x, y);
  }

  lemma RecordsCancel(a: seq<Record>, b: seq<Record>)
    requires Fits(a) && Fits(b) && |a| == |b| && List(RecordBytes, a) == List(RecordBytes, b)
    ensures a == b
  {
    forall i | 0 <= i < |a| ensures Splits(RecordBytes, a[i], b[i]) {
      RecordSplits(a[i], b[i]);
    }
    ListCancel(RecordBytes, a, b, [], []);
  }

  /** The stream parses in one way only. */
  lemma StreamInjective(a: seq<Record>, b: seq<Record>)
    requires Fits(a) && Fits(b)
    ensures Stream(a) == Stream(b) <==> a == b
  {
    if Stream(a) == Stream(b) {
      var x, y := List(RecordBytes, a), List(RecordBytes, b);
      BlobCancel(Text(DOMAIN), Text(DOMAIN), LE(8, |a|) + x, LE(8, |b|) + y);
      WordCancel(|a|, |b|, x, y);
      RecordsCancel(a, b);
    }
  }

  // ---------------------------------------------------------------- streams and subgraphs

  ghost function DependencySet(s: SchemaModel, k: Key): set<Key>
  {
    set dep | dep in s.byKey && DependsOn(s, k, dep)
  }

  /** `r` states the identifier, shapes and edges of a definition of the graph. */
  ghost predicate DescribesKey(g: Graph, r: Record)
    requires ValidGraph(g)
  {
    && r.key in g.schema.byKey
    && r.wireID == g.schema.byKey[r.key].wireID
    && r.wireShape == g.wireShape[r.key] && r.bodyShape == g.bodyShape[r.key]
    && Lists(KeyLess, r.dependencies, DependencySet(g.schema, r.key))
  }

  ghost function KeysOf(rs: seq<Record>): (ks: seq<Key>)
    ensures |ks| == |rs| && forall i :: 0 <= i < |rs| ==> ks[i] == rs[i].key
  {
    seq(|rs|, i requires 0 <= i < |rs| => rs[i].key)
  }

  /** One record per definition reachable from the roots, in key order. */
  ghost predicate Describes(g: Graph, roots: seq<Key>, rs: seq<Record>)
    requires ValidGraph(g)
  {
    && Ascending(KeyLess, KeysOf(rs))
    && (forall k :: k in KeysOf(rs) <==> Reached(g.schema, roots, k))
    && forall i :: 0 <= i < |rs| ==> DescribesKey(g, rs[i])
  }

  /** The reachable parts agree: the same keys with the same identifiers, shapes and edges. */
  ghost predicate SameSubgraph(g: Graph, roots: seq<Key>, g': Graph, roots': seq<Key>)
    requires ValidGraph(g) && ValidGraph(g')
  {
    && (forall k :: Reached(g.schema, roots, k) <==> Reached(g'.schema, roots', k))
    && (forall k :: Reached(g.schema, roots, k) ==> SameNode(g, g', k))
  }

  ghost predicate SameNode(g: Graph, g': Graph, k: Key)
    requires ValidGraph(g) && ValidGraph(g')
  {
    && k in g.schema.byKey && k in g'.schema.byKey
    && g.schema.byKey[k].wireID == g'.schema.byKey[k].wireID
    && g.wireShape[k] == g'.wireShape[k] && g.bodyShape[k] == g'.bodyShape[k]
    && forall dep :: DependsOn(g.schema, k, dep) <==> DependsOn(g'.schema, k, dep)
  }

  lemma SubgraphToRecords(g: Graph, roots: seq<Key>, a: seq<Record>, g': Graph, roots': seq<Key>, b: seq<Record>)
    requires ValidGraph(g) && ValidGraph(g') && Describes(g, roots, a) && Describes(g', roots', b)
    requires SameSubgraph(g, roots, g', roots')
    ensures a == b
  {
    var keys := set k | k in KeysOf(a);
    KeysStrict();
    ListingUnique(KeyLess, KeysOf(a), KeysOf(b), keys);
    forall i | 0 <= i < |a| ensures a[i] == b[i] {
      var k := KeysOf(a)[i];
      assert k in KeysOf(a) && KeysOf(b)[i] == k;
      assert SameNode(g, g', k);
      assert DescribesKey(g, a[i]) && DescribesKey(g', b[i]);
      assert DependencySet(g.schema, k) == DependencySet(g'.schema, k);
      ListingUnique(KeyLess, a[i].dependencies, b[i].dependencies, DependencySet(g.schema, k));
    }
  }

  lemma RecordsToSubgraph(g: Graph, roots: seq<Key>, g': Graph, roots': seq<Key>, a: seq<Record>)
    requires ValidGraph(g) && ValidGraph(g') && Describes(g, roots, a) && Describes(g', roots', a)
    ensures SameSubgraph(g, roots, g', roots')
  {
    forall k | Reached(g.schema, roots, k) ensures SameNode(g, g', k) {
      assert k in KeysOf(a);
      var i :| 0 <= i < |a| && KeysOf(a)[i] == k;
      assert DescribesKey(g, a[i]) && DescribesKey(g', a[i]);
      forall dep ensures DependsOn(g.schema, k, dep) <==> DependsOn(g'.schema, k, dep) {
        assert dep in DependencySet(g.schema, k) <==> dep in a[i].dependencies;
        assert dep in DependencySet(g'.schema, k) <==> dep in a[i].dependencies;
      }
    }
  }

  /** Records stand in one order: types before methods, and names ascending within either. */
  lemma RecordsOrdered(g: Graph, roots: seq<Key>, rs: seq<Record>, i: nat, j: nat)
    requires ValidGraph(g) && Describes(g, roots, rs) && i < j < |rs|
    ensures rs[i].key.category.CategoryFunction? ==> rs[j].key.category.CategoryFunction?
    ensures rs[i].key.category == rs[j].key.category ==> StringLess(rs[i].key.qname, rs[j].key.qname)
  {
    assert KeyLess(KeysOf(rs)[i], KeysOf(rs)[j]);
  }

  /** Two digests are taken of the same bytes exactly when the reachable subgraphs agree. */
  lemma StreamsEqualIffSubgraphsEqual(g: Graph, roots: seq<Key>, a: seq<Record>, g': Graph, roots': seq<Key>,
                                      b: seq<Record>)
    requires ValidGraph(g) && ValidGraph(g') && Describes(g, roots, a) && Describes(g', roots', b)
    requires Fits(a) && Fits(b)
    ensures Stream(a) == Stream(b) <==> SameSubgraph(g, roots, g', roots')
  {
    StreamInjective(a, b);
    if a == b {
      RecordsToSubgraph(g, roots, g', roots', a);
    }
    if SameSubgraph(g, roots, g', roots') {
      SubgraphToRecords(g, roots, a, g', roots', b);
    }
  }

  // ---------------------------------------------------------------- the digest

  class Hasher {
    var written: seq<Byte>

    constructor (domain: string)
      ensures written == Blob(Text(domain))
    {
      written := LE(8, |domain|) + Text(domain);
    }

    method Uint64(v: nat)
      modifies this
      ensures written == old(written) + LE(8, v)
    {
      written := written + LE(8, v);
    }

    method Bytes(v: seq<Byte>)
      modifies this
      ensures written == old(written) + Blob(v)
    {
      Uint64(|v|);
      written := written + v;
    }

    method Sum(hash: seq<Byte> -> seq<Byte>) returns (digest: seq<Byte>)
      ensures digest == hash(written)
    {
      return hash(written);
    }
  }

  method WriteKeys(h: Hasher, keys: seq<Key>)
    modifies h
    ensures h.written == old(h.written) + List(KeyBytes, keys)
  {
    for i := 0 to |keys|
      invariant h.written == old(h.written) + List(KeyBytes, keys[..i])
    {
      OneMoreItem(KeyBytes, old(h.written), keys[..i], keys[i]);
      assert keys[..i + 1] == keys[..i] + [keys[i]];
      h.Bytes(Text(KeyText(keys[i])));
    }
    assert keys[..|keys|] == keys;
  }

  method WriteRecord(h: Hasher, g: Graph, key: Key) returns (ghost r: Record)
    requires ValidGraph(g) && key in g.schema.byKey
    modifies h
    ensures r.key == key && DescribesKey(g, r)
    ensures h.written == old(h.written) + RecordBytes(r)
  {
    var d := g.schema.byKey[key];
    var deps := Dependencies(g.schema, d);
    var ordered := SortKeys(deps);
    r := Record(key, d.wireID, g.wireShape[key], g.bodyShape[key], ordered);
    assert deps == DependencySet(g.schema, key);
    WriteFields(h, key, d.wireID, g.wireShape[key], g.bodyShape[key], ordered);
  }

  method WriteFields(h: Hasher, key: Key, wireID: nat, wireShape: seq<Byte>, bodyShape: seq<Byte>, ordered: seq<Key>)
    modifies h
    ensures h.written == old(h.written) + RecordBytes(Record(key, wireID, wireShape, bodyShape, ordered))
  {
    h.Bytes(Text(KeyText(key)));
    h.Uint64(wireID);
    h.Bytes(wireShape);
    h.Bytes(bodyShape);
    h.Uint64(|ordered|);
    WriteKeys(h, ordered);
    Concatenated(old(h.written), KeyBytes(key), LE(8, wireID), Blob(wireShape), Blob(bodyShape), LE(8, |ordered|),
                 List(KeyBytes, ordered));
  }

  /** One record per key, in the same order. */
  ghost predicate RecordsFor(g: Graph, keys: seq<Key>, rs: seq<Record>)
    requires ValidGraph(g)
  {
    |rs| == |keys| && forall i :: 0 <= i < |rs| ==> rs[i].key == keys[i] && DescribesKey(g, rs[i])
  }

  lemma RecordsGrow(g: Graph, keys: seq<Key>, i: nat, rs: seq<Record>, next: Record)
    requires ValidGraph(g) && i < |keys| && RecordsFor(g, keys[..i], rs) && next.key == keys[i] && DescribesKey(g, next)
    ensures RecordsFor(g, keys[..i + 1], rs + [next])
  {
  }

  lemma OneMoreItem<T>(f: T -> seq<Byte>, before: seq<Byte>, xs: seq<T>, x: T)
    ensures before + List(f, xs) + f(x) == before + List(f, xs + [x])
  {
    ListAppend(f, xs, x);
    Regroup(before, List(f, xs), f(x));
  }

  method WriteRecords(h: Hasher, g: Graph, keys: seq<Key>) returns (ghost rs: seq<Record>)
    requires ValidGraph(g) && forall i :: 0 <= i < |keys| ==> keys[i] in g.schema.byKey
    modifies h
    ensures RecordsFor(g, keys, rs)
    ensures h.written == old(h.written) + List(RecordBytes, rs)
  {
    rs := [];
    for i := 0 to |keys|
      invariant RecordsFor(g, keys[..i], rs)
      invariant h.written == old(h.written) + List(RecordBytes, rs)
    {
      ghost var next := WriteRecord(h, g, keys[i]);
      OneMoreItem(RecordBytes, old(h.written), rs, next);
      RecordsGrow(g, keys, i, rs, next);
      rs := rs + [next];
    }
    assert keys[..|keys|] == keys;
  }

  /** The digest of the subgraph reachable from `roots`; it fails exactly when a root is absent. */
  method Digest(g: Graph, roots: seq<Key>, hash: seq<Byte> -> seq<Byte>)
    returns (r: Option<seq<Byte>>, ghost rs: seq<Record>)
    requires ValidGraph(g)
    ensures r.Some? <==> forall k :: k in roots ==> k in g.schema.byKey
    ensures r.Some? ==> Describes(g, roots, rs) && r.value == hash(Stream(rs))
  {
    rs := [];
    var ok, seen := Search(g.schema, roots);
    if !ok { return None, rs; }
    var keys := SortKeys(seen);
    forall i | 0 <= i < |keys| ensures keys[i] in g.schema.byKey { assert keys[i] in keys; }
    var digest;
    digest, rs := HashKeys(g, keys, hash);
    assert KeysOf(rs) == keys;
    return Some(digest), rs;
  }

  method HashKeys(g: Graph, keys: seq<Key>, hash: seq<Byte> -> seq<Byte>)
    returns (digest: seq<Byte>, ghost rs: seq<Record>)
    requires ValidGraph(g) && forall i :: 0 <= i < |keys| ==> keys[i] in g.schema.byKey
    ensures RecordsFor(g, keys, rs)
    ensures digest == hash(Stream(rs))
  {
    var h := new Hasher(DOMAIN);
    h.Uint64(|keys|);
    rs := WriteRecords(h, g, keys);
    Regroup(Blob(Text(DOMAIN)), LE(8, |rs|), List(RecordBytes, rs));
    digest := h.Sum(hash);
  }
}

/**
  Ascending listings of finite sets. Go visits maps in no particular order, so generated output
  and hashed streams sort their names or keys first; a set has only one such listing.
 */
module Ordering {
  /** `less` is a strict total order. */
  ghost predicate Strict<T(!new)>(less: (T, T) -> bool)
  {
    && (forall a, b :: less(a, b) ==> !less(b, a))
    && (forall a, b :: a != b ==> less(a, b) || less(b, a))
    && (forall a, b, c :: less(a, b) && less(b, c) ==> less(a, c))
  }

  ghost predicate Ascending<T>(less: (T, T) -> bool, s: seq<T>)
  {
    forall i, j :: 0 <= i < j < |s| ==> less(s[i], s[j])
  }

  /** `s` lists the set in ascending order. */
  ghost predicate Lists<T(!new)>(less: (T, T) -> bool, s: seq<T>, xs: set<T>)
  {
    Ascending(less, s) && forall x :: x in s <==> x in xs
  }

  /** There is only one way to list a set in ascending order, so map iteration order is irrelevant. */
  lemma {:induction false} ListingUnique<T(!new)>(less: (T, T) -> bool, a: seq<T>, b: seq<T>, xs: set<T>)
    requires Strict(less) && Lists(less, a, xs) && Lists(less, b, xs)
    ensures a == b
    decreases |a|
  {
    if a == [] || b == [] {
      NoneListed(less, a, xs);
      NoneListed(less, b, xs);
    } else {
      var x := a[|a| - 1];
      LastIsGreatest(less, a, b, xs);
      DropLast(less, a, xs);
      DropLast(less, b, xs);
      ListingUnique(less, a[..|a| - 1], b[..|b| - 1], xs - {x});
      assert a == a[..|a| - 1] + [x] && b == b[..|b| - 1] + [x];
    }
  }

  lemma NoneListed<T(!new)>(less: (T, T) -> bool, a: seq<T>, xs: set<T>)
    requires Lists(less, a, xs)
    ensures a == [] <==> xs == {}
  {
    if a != [] {
      assert a[0] in xs;
    }
  }

  lemma LastIsGreatest<T(!new)>(less: (T, T) -> bool, a: seq<T>, b: seq<T>, xs: set<T>)
    requires Strict(less) && Lists(less, a, xs) && Lists(less, b, xs) && a != [] && b != []
    ensures a[|a| - 1] == b[|b| - 1]
  {
    var x, y := a[|a| - 1], b[|b| - 1];
    assert x in b && y in a;
  }

  lemma DropLast<T(!new)>(less: (T, T) -> bool, a: seq<T>, xs: set<T>)
    requires Strict(less) && Lists(less, a, xs) && a != []
    ensures Lists(less, a[..|a| - 1], xs - {a[|a| - 1]})
  {
    var last := a[|a| - 1];
    assert forall i :: 0 <= i < |a| - 1 ==> less(a[i], last);
    assert a == a[..|a| - 1] + [last];
  }

  /** Lists the members of a set that are visited in any order. */
  method Sort<T(==, !new)>(less: (T, T) -> bool, xs: set<T>) returns (s: seq<T>)
    requires Strict(less)
    ensures Lists(less, s, xs)
  {
    s := [];
    var rest := xs;
    while rest != {}
      invariant rest <= xs
      invariant Lists(less, s, xs - rest)
    {
      var x :| x in rest;
      rest := rest - {x};
      s := Insert(less, s, xs - rest - {x}, x);
      assert (xs - rest - {x}) + {x} == xs - rest;
    }
    assert xs - rest == xs;
  }

  method Insert<T(!new)>(less: (T, T) -> bool, s: seq<T>, ghost xs: set<T>, x: T) returns (r: seq<T>)
    requires Strict(less) && Lists(less, s, xs) && x !in xs
    ensures Lists(less, r, xs + {x})
  {
    var i := 0;
    while i < |s| && less(s[i], x)
      invariant 0 <= i <= |s|
      invariant forall j :: 0 <= j < i ==> less(s[j], x)
    {
      i := i + 1;
    }
    r := s[..i] + [x] + s[i..];
    forall j | i <= j < |s| ensures less(x, s[j]) {
      assert s[i] in s;
      assert i == j || less(s[i], s[j]);
    }
    assert forall y :: y in r <==> y in s || y == x by {
      assert s == s[..i] + s[i..];
    }
  }

  // ---------------------------------------------------------------- names

  /** The byte order of names. */
  predicate StringLess(a: string, b: string)
  {
    b != [] && (a == [] || a[0] < b[0] || (a[0] == b[0] && StringLess(a[1..], b[1..])))
  }

  lemma {:induction false} StringOrder(a: string, b: string)
    ensures !StringLess(a, a)
    ensures !(StringLess(a, b) && StringLess(b, a))
    ensures a != b ==> StringLess(a, b) || StringLess(b, a)
  {
    if a != [] && b != [] {
      StringOrder(a[1..], b[1..]);
      if a[0] == b[0] && a[1..] == b[1..] {
        assert a == [a[0]] + a[1..] && b == [b[0]] + b[1..];
      }
    } else if a != [] {
      StringOrder(a[1..], []);
    }
  }

  lemma {:induction false} StringTransitive(a: string, b: string, c: string)
    requires StringLess(a, b) && StringLess(b, c)
    ensures StringLess(a, c)
  {
    if a != [] && a[0] == b[0] == c[0] {
      StringTransitive(a[1..], b[1..], c[1..]);
    }
  }

  lemma NamesStrict()
    ensures Strict(StringLess)
  {
    forall a, b ensures StringLess(a, b) ==> !StringLess(b, a) { StringOrder(a, b); }
    forall a, b | a != b ensures StringLess(a, b) || StringLess(b, a) { StringOrder(a, b); }
    forall a, b, c | StringLess(a, b) && StringLess(b, c) ensures StringLess(a, c) { StringTransitive(a, b, c); }
  }
}

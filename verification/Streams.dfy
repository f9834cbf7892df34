/**
  Length-prefixed streams fed to a hash: which bytes are written and why they can be
  parsed back in one way only.
 */
module Streams {
  import opened Bin

  const WORD := 0x1_0000_0000_0000_0000

  /** A Go string is a sequence of bytes; here its characters are those bytes. */
  ghost predicate ByteString(s: string)
  {
    forall i :: 0 <= i < |s| ==> s[i] as int < 256
  }

  function Text(s: string): (b: seq<Byte>)
    ensures |b| == |s|
  {
    seq(|s|, i requires 0 <= i < |s| => s[i] as int % 256)
  }

  function Blob(b: seq<Byte>): seq<Byte>
  {
    LE(8, |b|) + b
  }

  function List<T>(enc: T -> seq<Byte>, items: seq<T>): seq<Byte>
  {
    if items == [] then [] else List(enc, items[..|items| - 1]) + enc(items[|items| - 1])
  }

  lemma WordCancel(a: nat, b: nat, x: seq<Byte>, y: seq<Byte>)
    requires a < WORD && b < WORD && LE(8, a) + x == LE(8, b) + y
    ensures a == b && x == y
  {
    Pow256Values();
    WordRoundTrip(8, a, x);
    WordRoundTrip(8, b, y);
  }

  lemma BlobCancel(a: seq<Byte>, b: seq<Byte>, x: seq<Byte>, y: seq<Byte>)
    requires |a| < WORD && |b| < WORD && Blob(a) + x == Blob(b) + y
    ensures a == b && x == y
  {
    assert LE(8, |a|) + (a + x) == Blob(a) + x;
    assert LE(8, |b|) + (b + y) == Blob(b) + y;
    WordCancel(|a|, |b|, a + x, b + y);
    assert a == (a + x)[..|a|] && b == (b + y)[..|b|];
    assert x == (a + x)[|a|..] && y == (b + y)[|b|..];
  }

  lemma TextInjective(a: string, b: string)
    requires ByteString(a) && ByteString(b) && Text(a) == Text(b)
    ensures a == b
  {
    assert |a| == |b|;
    forall i | 0 <= i < |a| ensures a[i] == b[i] {
      assert Text(a)[i] == Text(b)[i];
    }
  }

  /** The encodings of `u` and `v` cannot be confused, whatever follows them. */
  ghost predicate Splits<T(!new)>(enc: T -> seq<Byte>, u: T, v: T)
  {
    forall x, y :: enc(u) + x == enc(v) + y ==> u == v && x == y
  }

  lemma {:induction false} ListCancel<T(!new)>(enc: T -> seq<Byte>, a: seq<T>, b: seq<T>, x: seq<Byte>, y: seq<Byte>)
    requires |a| == |b| && List(enc, a) + x == List(enc, b) + y
    requires forall i :: 0 <= i < |a| ==> Splits(enc, a[i], b[i])
    ensures a == b && x == y
  {
    if a == [] {
      assert [] + x == x && [] + y == y;
    } else {
      var n := |a| - 1;
      assert List(enc, a) + x == List(enc, a[..n]) + (enc(a[n]) + x);
      assert List(enc, b) + y == List(enc, b[..n]) + (enc(b[n]) + y);
      ListCancel(enc, a[..n], b[..n], enc(a[n]) + x, enc(b[n]) + y);
      assert Splits(enc, a[n], b[n]);
      assert a == a[..n] + [a[n]] && b == b[..n] + [b[n]];
    }
  }

  lemma ListAppend<T>(enc: T -> seq<Byte>, items: seq<T>, item: T)
    ensures List(enc, items + [item]) == List(enc, items) + enc(item)
  {
    assert (items + [item])[..|items|] == items;
  }

  lemma Concatenated(w: seq<Byte>, a: seq<Byte>, b: seq<Byte>, c: seq<Byte>, d: seq<Byte>, e: seq<Byte>, f: seq<Byte>)
    ensures w + a + b + c + d + e + f == w + (a + b + c + d + e + f)
  {
    assert a + b + c + d + e + f == a + (b + c + d + e + f);
    assert b + c + d + e + f == b + (c + d + e + f);
    Regroup(w + a, b, c);
    assert w + a + b + c + d + e + f == w + a + (b + c + d + e + f);
  }

}

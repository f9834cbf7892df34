/**
  Zero-run compression of file identifiers: every run of zero bytes becomes a zero and a
  one-byte count.
 */
module Rle {
  import opened Bin

  /** The count pending before the next non-zero byte; it is a byte and wraps. */
  function Flushed(count: Byte): seq<Byte>
  {
    if count > 0 then [0, count] else []
  }

  function EncodeFrom(s: seq<Byte>, count: Byte): seq<Byte>
  {
    if s == [] then Flushed(count)
    else if s[0] == 0 then EncodeFrom(s[1..], (count + 1) % 256)
    else Flushed(count) + [s[0]] + EncodeFrom(s[1..], 0)
  }

  function Pending(last: Option<Byte>): seq<Byte>
  {
    if last.Some? then [last.value] else []
  }

  function DecodeFrom(s: seq<Byte>, last: Option<Byte>): seq<Byte>
  {
    if s == [] then Pending(last)
    else if last == Some(0) then Zeros(s[0]) + DecodeFrom(s[1..], None)
    else Pending(last) + DecodeFrom(s[1..], Some(s[0]))
  }

  function Encode(s: seq<Byte>): seq<Byte>
  {
    EncodeFrom(s, 0)
  }

  function Decode(s: seq<Byte>): seq<Byte>
  {
    DecodeFrom(s, None)
  }

  // ---------------------------------------------------------------- the loops

  lemma EncodeStep(r: seq<Byte>, flushed: seq<Byte>, b: Byte, rest: seq<Byte>)
    ensures r + (flushed + [b] + rest) == (r + flushed + [b]) + rest
    ensures flushed == [] ==> r + (flushed + [b] + rest) == (r + [b]) + rest
  {
    Regroup(r + flushed, [b], rest);
    Regroup(r, flushed, [b] + rest);
    Regroup(flushed, [b], rest);
    assert r + [] == r;
  }

  method RleEncode(s: seq<Byte>) returns (r: seq<Byte>)
    ensures r == Encode(s)
  {
    r := [];
    var count: Byte := 0;
    for i := 0 to |s|
      invariant Encode(s) == r + EncodeFrom(s[i..], count)
    {
      assert s[i..][1..] == s[i + 1..];
      if s[i] == 0 {
        count := (count + 1) % 256;
        continue;
      }
      ghost var rest := EncodeFrom(s[i + 1..], 0);
      EncodeStep(r, Flushed(count), s[i], rest);
      if count > 0 {
        r := r + [0, count];
        count := 0;
      }
      r := r + [s[i]];
    }
    if count > 0 {
      r := r + [0, count];
    }
  }

  method RleDecode(s: seq<Byte>) returns (r: seq<Byte>)
    ensures r == Decode(s)
  {
    r := [];
    var last: Option<Byte> := None;
    for i := 0 to |s|
      invariant Decode(s) == r + DecodeFrom(s[i..], last)
    {
      assert s[i..][1..] == s[i + 1..];
      if last == Some(0) {
        Regroup(r, Zeros(s[i]), DecodeFrom(s[i + 1..], None));
        r := r + Zeros(s[i]);
        last := None;
      } else {
        Regroup(r, Pending(last), DecodeFrom(s[i + 1..], Some(s[i])));
        r := r + Pending(last);
        last := Some(s[i]);
      }
    }
    r := r + Pending(last);
  }

  // ---------------------------------------------------------------- what survives

  /** Each maximal run of zeros reduced modulo 256; `count` zeros are pending. */
  function Collapsed(s: seq<Byte>, count: Byte): seq<Byte>
  {
    if s == [] then Zeros(count)
    else if s[0] == 0 then Collapsed(s[1..], (count + 1) % 256)
    else Zeros(count) + [s[0]] + Collapsed(s[1..], 0)
  }

  /** Decoding what was encoded gives the input with its zero runs reduced modulo 256. */
  lemma {:induction false} DecodeEncode(s: seq<Byte>, count: Byte, last: Option<Byte>)
    requires last != Some(0)
    ensures DecodeFrom(EncodeFrom(s, count), last) == Pending(last) + Collapsed(s, count)
    decreases |s|
  {
    if s == [] {
      DecodeFlushed(count, [], last);
      assert Flushed(count) + [] == Flushed(count);
    } else if s[0] == 0 {
      DecodeEncode(s[1..], (count + 1) % 256, last);
    } else {
      var rest := EncodeFrom(s[1..], 0);
      Regroup(Flushed(count), [s[0]], rest);
      DecodeFlushed(count, [s[0]] + rest, last);
      DecodeEncode(s[1..], 0, Some(s[0]));
      DecodeLiteral(s[0], rest, if count > 0 then None else last);
      var tail := Collapsed(s[1..], 0);
      Regroup(Zeros(count), [s[0]], tail);
      Regroup(Pending(last), Zeros(count), [s[0]] + tail);
      assert Zeros(0) + ([s[0]] + tail) == [s[0]] + tail;
      assert [] + ([s[0]] + tail) == [s[0]] + tail;
    }
  }

  lemma DecodeLiteral(b: Byte, rest: seq<Byte>, last: Option<Byte>)
    requires last != Some(0)
    ensures DecodeFrom([b] + rest, last) == Pending(last) + DecodeFrom(rest, Some(b))
  {
    assert ([b] + rest)[1..] == rest;
  }

  lemma DecodeFlushed(count: Byte, rest: seq<Byte>, last: Option<Byte>)
    requires last != Some(0)
    ensures DecodeFrom(Flushed(count) + rest, last) ==
            if count > 0 then Pending(last) + Zeros(count) + DecodeFrom(rest, None) else DecodeFrom(rest, last)
  {
    if count > 0 {
      assert Flushed(count) + rest == [0] + ([count] + rest);
      assert ([0] + ([count] + rest))[1..] == [count] + rest;
      assert ([count] + rest)[1..] == rest;
      assert DecodeFrom([count] + rest, Some(0)) == Zeros(count) + DecodeFrom(rest, None);
      Regroup(Pending(last), Zeros(count), DecodeFrom(rest, None));
    } else {
      assert [] + rest == rest;
    }
  }

  /** No run of 256 zeros, when `count` zeros come first. */
  predicate ShortRuns(s: seq<Byte>, count: nat)
  {
    if s == [] then true
    else if s[0] == 0 then count + 1 < 256 && ShortRuns(s[1..], count + 1)
    else ShortRuns(s[1..], 0)
  }

  lemma {:induction false} CollapsedLength(s: seq<Byte>, count: Byte)
    ensures |Collapsed(s, count)| <= count + |s|
    ensures !ShortRuns(s, count) ==> |Collapsed(s, count)| + 256 <= count + |s|
  {
    if s != [] {
      if s[0] == 0 {
        CollapsedLength(s[1..], (count + 1) % 256);
      } else {
        CollapsedLength(s[1..], 0);
      }
    }
  }

  lemma {:induction false} CollapsedExact(s: seq<Byte>, count: Byte)
    ensures Collapsed(s, count) == Zeros(count) + s <==> ShortRuns(s, count)
  {
    CollapsedLength(s, count);
    if s != [] && ShortRuns(s, count) {
      if s[0] == 0 {
        CollapsedExact(s[1..], count + 1);
        assert Zeros(count + 1) + s[1..] == Zeros(count) + s;
      } else {
        CollapsedExact(s[1..], 0);
        assert Zeros(0) + s[1..] == s[1..];
        Regroup(Zeros(count), [s[0]], s[1..]);
        assert [s[0]] + s[1..] == s;
      }
    }
  }

  /** 256 zeros in a row. */
  ghost predicate LongRun(s: seq<Byte>)
  {
    exists i :: ZeroRun(s, i)
  }

  ghost predicate ZeroRun(s: seq<Byte>, i: int)
  {
    0 <= i <= |s| - 256 && forall j :: i <= j < i + 256 ==> s[j] == 0
  }

  lemma {:induction false} ShortRunsMeaning(s: seq<Byte>, count: nat)
    requires count < 256
    ensures ShortRuns(s, count) <==> !LongRun(Zeros(count) + s)
    decreases |s|
  {
    var t := Zeros(count) + s;
    if s == [] {
    } else if s[0] == 0 {
      var t' := Zeros(count + 1) + s[1..];
      assert t == t';
      if count + 1 == 256 {
        assert ZeroRun(t, 0);
      } else {
        ShortRunsMeaning(s[1..], count + 1);
      }
    } else {
      ShortRunsMeaning(s[1..], 0);
      var u := Zeros(0) + s[1..];
      assert u == s[1..];
      assert t == Zeros(count) + [s[0]] + u;
      RunsAfter(Zeros(count), s[0], u);
    }
  }

  /** A short prefix and a non-zero byte do not change whether there is a long run. */
  lemma RunsAfter(a: seq<Byte>, b: Byte, u: seq<Byte>)
    requires |a| < 256 && b != 0
    ensures LongRun(a + [b] + u) <==> LongRun(u)
  {
    var t := a + [b] + u;
    if LongRun(t) {
      var i :| ZeroRun(t, i);
      assert t[|a|] == b;
      assert i > |a|;
      forall j | i - |a| - 1 <= j < i - |a| - 1 + 256 ensures u[j] == 0 {
        assert u[j] == t[j + |a| + 1];
      }
      assert ZeroRun(u, i - |a| - 1);
    }
    if LongRun(u) {
      var i :| ZeroRun(u, i);
      forall j | i + |a| + 1 <= j < i + |a| + 1 + 256 ensures t[j] == 0 {
        assert t[j] == u[j - |a| - 1];
      }
      assert ZeroRun(t, i + |a| + 1);
    }
  }

  /** A long run loses at least 256 bytes. */
  lemma LongRunShrinks(s: seq<Byte>)
    requires LongRun(s)
    ensures |Decode(Encode(s))| + 256 <= |s|
  {
    DecodeEncode(s, 0, None);
    CollapsedLength(s, 0);
    ShortRunsMeaning(s, 0);
    assert Zeros(0) + s == s;
  }

  /** Fewer than 256 bytes before a non-zero one always survive. */
  lemma {:induction false} PrefixCollapses(a: seq<Byte>, b: Byte, rest: seq<Byte>, count: Byte)
    requires |a| + count < 256 && b != 0
    ensures Collapsed(a + [b] + rest, count) == Zeros(count) + a + [b] + Collapsed(rest, 0)
    decreases |a|
  {
    var s, tail := a + [b] + rest, Collapsed(rest, 0);
    if a == [] {
      assert s[0] == b && s[1..] == rest;
      assert Zeros(count) + [] == Zeros(count);
    } else {
      assert s[0] == a[0] && s[1..] == a[1..] + [b] + rest;
      if a[0] == 0 {
        PrefixCollapses(a[1..], b, rest, count + 1);
        assert Zeros(count + 1) + a[1..] == Zeros(count) + a;
      } else {
        PrefixCollapses(a[1..], b, rest, 0);
        var more := a[1..] + [b] + tail;
        assert Zeros(0) + a[1..] + [b] + tail == more;
        assert Zeros(count) + [a[0]] + more == Zeros(count) + a + [b] + tail;
      }
    }
  }

  lemma PrefixSurvives(a: seq<Byte>, b: Byte, rest: seq<Byte>)
    requires |a| < 256 && b != 0
    ensures a + [b] <= Decode(Encode(a + [b] + rest))
  {
    DecodeEncode(a + [b] + rest, 0, None);
    PrefixCollapses(a, b, rest, 0);
    assert Zeros(0) + a == a;
  }

  /** Two final bytes other than zero stay final, whatever happens to the runs before them. */
  lemma {:induction false} EndCollapses(s: seq<Byte>, a: Byte, b: Byte, count: Byte) returns (head: seq<Byte>)
    requires a != 0 && b != 0
    ensures Collapsed(s + [a, b], count) == head + [a, b]
    decreases |s|
  {
    var t := s + [a, b];
    if s == [] {
      assert t[1..] == [b];
      assert Collapsed([b], 0) == Zeros(0) + [b] + Zeros(0) == [b];
      head := Zeros(count);
    } else {
      assert t[1..] == s[1..] + [a, b];
      if s[0] == 0 {
        head := EndCollapses(s[1..], a, b, (count + 1) % 256);
      } else {
        var rest := EndCollapses(s[1..], a, b, 0);
        head := Zeros(count) + [s[0]] + rest;
      }
    }
  }

  lemma EndSurvives(s: seq<Byte>, a: Byte, b: Byte) returns (head: seq<Byte>)
    requires a != 0 && b != 0
    ensures Decode(Encode(s + [a, b])) == head + [a, b]
  {
    DecodeEncode(s + [a, b], 0, None);
    head := EndCollapses(s, a, b, 0);
    assert Pending(None) + Collapsed(s + [a, b], 0) == Collapsed(s + [a, b], 0);
  }

  /** Decoding inverts encoding exactly on the inputs without 256 zeros in a row. */
  lemma RoundTrip(s: seq<Byte>)
    ensures Decode(Encode(s)) == s <==> !LongRun(s)
  {
    DecodeEncode(s, 0, None);
    CollapsedExact(s, 0);
    ShortRunsMeaning(s, 0);
    assert Zeros(0) + s == s;
    assert Pending(None) + Collapsed(s, 0) == Collapsed(s, 0);
  }

  /** A run of exactly 256 zeros vanishes: the one-byte counter wraps to zero. */
  lemma LongRunIsLost()
    ensures Decode(Encode(Zeros(256))) != Zeros(256)
  {
    assert ZeroRun(Zeros(256), 0);
    RoundTrip(Zeros(256));
  }
}

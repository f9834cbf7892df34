/**
  What the key exchange and the message cipher need from cryptography: hashes and AES-IGE
  known only by their laws, and modular exponentiation, exclusive or and byte reversal
  proved concretely.
 */
module Crypto {
  import opened Bin

  // ---------------------------------------------------------------- abstract primitives

  /** Hash functions and AES-IGE of one implementation. */
  datatype Primitives = Primitives(
    sha1: seq<Byte> -> seq<Byte>,
    sha256: seq<Byte> -> seq<Byte>,
    igeEncrypt: (seq<Byte>, seq<Byte>, seq<Byte>) -> seq<Byte>,
    igeDecrypt: (seq<Byte>, seq<Byte>, seq<Byte>) -> seq<Byte>)

  /** Arguments AES-256 IGE is defined for: key and IV of 32 bytes, whole blocks of data. */
  predicate Blocks(key: seq<Byte>, iv: seq<Byte>, data: seq<Byte>)
  {
    |key| == 32 && |iv| == 32 && |data| % 16 == 0
  }

  ghost predicate IgeInverse(c: Primitives, key: seq<Byte>, iv: seq<Byte>, data: seq<Byte>)
  {
    && |c.igeEncrypt(key, iv, data)| == |data| == |c.igeDecrypt(key, iv, data)|
    && c.igeDecrypt(key, iv, c.igeEncrypt(key, iv, data)) == data
    && c.igeEncrypt(key, iv, c.igeDecrypt(key, iv, data)) == data
  }

  /** Digest sizes, and decryption inverts encryption on whole blocks. */
  ghost predicate Lawful(c: Primitives)
  {
    && (forall x :: |c.sha1(x)| == 20)
    && (forall x :: |c.sha256(x)| == 32)
    && (forall key, iv, data {:trigger IgeInverse(c, key, iv, data)} :: Blocks(key, iv, data) ==>
          IgeInverse(c, key, iv, data))
  }

  // ---------------------------------------------------------------- random input

  /** Reading `n` bytes of a stream: all of them, or none when it is too short. */
  function Draw(s: seq<Byte>, n: nat): Option<seq<Byte>>
  {
    if n <= |s| then Some(s[..n]) else None
  }

  /** The stream after such a read. */
  function Drop(s: seq<Byte>, n: nat): seq<Byte>
  {
    if n <= |s| then s[n..] else []
  }

  /** A random source as the bytes it will still deliver; reading past the end is an error. */
  class RandomSource {
    var data: seq<Byte>

    constructor (bytes: seq<Byte>)
      ensures data == bytes
    {
      data := bytes;
    }

    method ReadFull(n: nat) returns (r: Option<seq<Byte>>)
      modifies this
      ensures r == Draw(old(data), n) && data == Drop(old(data), n)
    {
      if |data| < n {
        data := [];
        return None;
      }
      r := Some(data[..n]);
      data := data[n..];
    }
  }

  // ---------------------------------------------------------------- exclusive or

  function XorBits(n: nat, a: nat, b: nat): nat
  {
    if n == 0 then 0 else (a % 2 + b % 2) % 2 + 2 * XorBits(n - 1, a / 2, b / 2)
  }

  lemma {:induction false} XorBitsInverse(n: nat, a: nat, b: nat)
    requires a < Pow2(n)
    ensures XorBits(n, a, b) < Pow2(n)
    ensures XorBits(n, XorBits(n, a, b), b) == a
  {
    if n > 0 {
      XorBitsInverse(n - 1, a / 2, b / 2);
      var low, high := (a % 2 + b % 2) % 2, XorBits(n - 1, a / 2, b / 2);
      var x := low + 2 * high;
      LowAndHigh(low, high);
      assert XorBits(n, a, b) == x && x % 2 == low && x / 2 == high;
      assert (low + b % 2) % 2 == a % 2;
    }
  }

  /** Bit by bit the result differs from zero exactly where the operands differ. */
  lemma {:induction false} XorBitwise(n: nat, a: nat, b: nat, i: nat)
    requires i < n
    ensures XorBits(n, a, b) / Pow2(i) % 2 == 1 <==> a / Pow2(i) % 2 != b / Pow2(i) % 2
  {
    var low, high := (a % 2 + b % 2) % 2, XorBits(n - 1, a / 2, b / 2);
    LowAndHigh(low, high);
    if i > 0 {
      XorBitwise(n - 1, a / 2, b / 2, i - 1);
      HalfThenShift(XorBits(n, a, b), i);
      HalfThenShift(a, i);
      HalfThenShift(b, i);
    }
  }

  lemma HalfThenShift(x: nat, i: nat)
    requires i > 0
    ensures x / Pow2(i) == x / 2 / Pow2(i - 1)
  {
    var p := Pow2(i - 1);
    var q, r := x / 2 / p, x / 2 % p;
    assert x == 2 * (x / 2) + x % 2 && x / 2 == p * q + r;
    assert x == Pow2(i) * q + (2 * r + x % 2) by { assert 2 * (p * q) == (2 * p) * q; }
    QuotientUnique(x, Pow2(i), q, 2 * r + x % 2);
  }

  lemma QuotientUnique(x: nat, m: nat, q: nat, r: nat)
    requires m > 0 && x == m * q + r && r < m
    ensures x / m == q
  {
    var q', r' := x / m, x % m;
    assert x == m * q' + r';
    assert m * (q - q') == r' - r by { assert m * (q - q') == m * q - m * q'; }
    if q - q' >= 1 { MulMonotone(m, 1, q - q'); }
    if q' - q >= 1 { MulMonotone(m, 1, q' - q); }
  }

  lemma LowAndHigh(low: nat, high: nat)
    requires low < 2
    ensures (low + 2 * high) % 2 == low && (low + 2 * high) / 2 == high
  {
  }

  lemma Pow2Of8()
    ensures Pow2(8) == 256
  {
    assert Pow2(4) == 16;
    assert Pow2(8) == 16 * Pow2(4);
  }

  function XorByte(a: Byte, b: Byte): Byte
  {
    XorBitsInverse(8, a, b); Pow2Of8();
    XorBits(8, a, b)
  }

  /** `xor.Bytes`: as many bytes as the shorter operand has. */
  function Xor(a: seq<Byte>, b: seq<Byte>): (r: seq<Byte>)
    ensures |r| == if |a| < |b| then |a| else |b|
  {
    var n := if |a| < |b| then |a| else |b|;
    seq(n, i requires 0 <= i < n => XorByte(a[i], b[i]))
  }

  /** Every bit of the result is set exactly where the bits of the operands differ. */
  lemma XorBytewise(a: seq<Byte>, b: seq<Byte>, i: nat, j: nat)
    requires i < |a| && i < |b| && j < 8
    ensures Xor(a, b)[i] / Pow2(j) % 2 == 1 <==> a[i] / Pow2(j) % 2 != b[i] / Pow2(j) % 2
  {
    XorBitwise(8, a[i], b[i], j);
  }

  lemma XorInverse(a: seq<Byte>, b: seq<Byte>)
    requires |a| <= |b|
    ensures Xor(Xor(a, b), b) == a
  {
    Pow2Of8();
    forall i | 0 <= i < |a| ensures Xor(Xor(a, b), b)[i] == a[i] {
      XorBitsInverse(8, a[i], b[i]);
    }
  }

  // ---------------------------------------------------------------- byte reversal

  function Reversed(s: seq<Byte>): (r: seq<Byte>)
    ensures |r| == |s|
  {
    seq(|s|, i requires 0 <= i < |s| => s[|s| - 1 - i])
  }

  lemma ReversedInverse(s: seq<Byte>)
    ensures Reversed(Reversed(s)) == s
  {
  }

  /** `reverseBytes` on the slice a[lo..hi]; the rest of the array is left alone. */
  method ReverseBytes(a: array<Byte>, lo: nat, hi: nat)
    requires lo <= hi <= a.Length
    modifies a
    ensures a[lo..hi] == Reversed(old(a[lo..hi]))
    ensures a[..lo] == old(a[..lo]) && a[hi..] == old(a[hi..])
  {
    if lo == hi { return; }
    var i, j := lo, hi - 1;
    while i < j
      invariant lo <= i <= j + 1 <= hi && i + j == lo + hi - 1
      invariant forall k :: 0 <= k < a.Length ==>
        a[k] == if lo <= k < i || j < k < hi then old(a[lo + hi - 1 - k]) else old(a[k])
    {
      a[i], a[j] := a[j], a[i];
      i, j := i + 1, j - 1;
    }
    ghost var was, now := old(a[lo..hi]), a[lo..hi];
    forall k | 0 <= k < hi - lo ensures now[k] == was[hi - lo - 1 - k] {
      assert now[k] == a[lo + k] && was[hi - lo - 1 - k] == old(a[hi - 1 - k]);
    }
    ReversedPart(was, now);
  }

  lemma ReversedPart(was: seq<Byte>, now: seq<Byte>)
    requires |was| == |now| && forall k :: 0 <= k < |was| ==> now[k] == was[|was| - 1 - k]
    ensures now == Reversed(was)
  {
  }

  // ---------------------------------------------------------------- modular exponentiation

  function Pow(b: nat, e: nat): nat
  {
    if e == 0 then 1 else b * Pow(b, e - 1)
  }

  function ModExp(b: nat, e: nat, m: nat): (r: nat)
    requires m > 0
    ensures r < m
  {
    Pow(b, e) % m
  }

  lemma {:induction false} PowSum(b: nat, d: nat, e: nat)
    ensures Pow(b, 0) == 1 && Pow(b, 1) == b && Pow(b, d + e) == Pow(b, d) * Pow(b, e)
  {
    assert Pow(b, 1) == b * Pow(b, 0);
    if d > 0 {
      PowSum(b, d - 1, e);
      assert b * (Pow(b, d - 1) * Pow(b, e)) == (b * Pow(b, d - 1)) * Pow(b, e);
    }
  }

  lemma {:induction false} PowPow(b: nat, d: nat, e: nat)
    ensures Pow(Pow(b, d), e) == Pow(b, d * e)
  {
    if e == 0 {
      assert d * 0 == 0;
    } else {
      PowPow(b, d, e - 1);
      PowSum(b, d, d * (e - 1));
      assert d * e == d + d * (e - 1);
    }
  }

  lemma ModProduct(x: int, y: int, m: nat)
    requires m > 0
    ensures ((x % m) * y) % m == (x * y) % m
  {
    var q, r := x / m, x % m;
    assert x == m * q + r;
    assert x * y == m * (q * y) + r * y by {
      assert (m * q + r) * y == (m * q) * y + r * y;
      assert (m * q) * y == m * (q * y);
    }
    var s := (r * y) / m;
    assert r * y == m * s + (r * y) % m;
    assert m * (q * y) + m * s == m * (q * y + s);
    ModUnique(x * y, m, q * y + s, (r * y) % m);
  }

  lemma {:induction false} PowMod(b: nat, e: nat, m: nat)
    requires m > 0
    ensures Pow(b % m, e) % m == Pow(b, e) % m
  {
    if e > 0 {
      var p, p' := Pow(b, e - 1), Pow(b % m, e - 1);
      PowMod(b, e - 1, m);
      calc {
        ((b % m) * p') % m;
        { ModProduct(b, p', m); }
        (b * p') % m;
        { assert b * p' == p' * b; ModProduct(p', b, m); }
        ((p' % m) * b) % m;
        ((p % m) * b) % m;
        { ModProduct(p, b, m); assert p * b == b * p; }
        (b * p) % m;
      }
    }
  }

  /** Raising a public value to the other exponent gives the power with both. */
  lemma SecretIsPower(g: nat, a: nat, b: nat, p: nat)
    requires p > 0
    ensures ModExp(ModExp(g, a, p), b, p) == Pow(g, a * b) % p
  {
    PowMod(Pow(g, a), b, p);
    PowPow(g, a, b);
  }

  /** Diffie-Hellman: both sides raise the other's public value to their own secret and agree. */
  lemma SharedSecret(g: nat, a: nat, b: nat, p: nat)
    requires p > 0
    ensures ModExp(ModExp(g, a, p), b, p) == ModExp(ModExp(g, b, p), a, p)
  {
    SecretIsPower(g, a, b, p);
    SecretIsPower(g, b, a, p);
    assert a * b == b * a;
  }
}

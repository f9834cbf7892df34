/**
  Proof of work of the key exchange: splitting pq into two factors with a randomised
  rho-style search over x := x^2 + v (mod pq).
 */
module Factorize {
  import opened Bin

  // ---------------------------------------------------------------- divisibility

  ghost predicate Divides(d: int, n: int)
  {
    exists k: int :: d * k == n
  }

  ghost predicate Prime(n: int)
  {
    n > 1 && forall d: int :: d > 1 && Divides(d, n) ==> d == n
  }

  /** Greatest common divisor, as computed by Euclid's algorithm; the other number when one is zero. */
  function Gcd(a: nat, b: nat): nat
    decreases b
  {
    if b == 0 then a else Gcd(b, a % b)
  }

  lemma DividesSum(d: int, m: int, n: int, k: int)
    requires Divides(d, m) && Divides(d, n)
    ensures Divides(d, m + k * n)
  {
    var i: int :| d * i == m;
    var j: int :| d * j == n;
    calc {
      d * (i + k * j);
      d * i + d * (k * j);
      { assert d * (k * j) == k * (d * j); }
      m + k * n;
    }
  }

  lemma {:induction false} GcdDivides(a: nat, b: nat)
    ensures Divides(Gcd(a, b), a) && Divides(Gcd(a, b), b)
    decreases b
  {
    if b == 0 {
      assert a * 1 == a && a * 0 == 0;
    } else {
      GcdDivides(b, a % b);
      DividesSum(Gcd(a, b), a % b, b, a / b);
      assert a % b + (a / b) * b == a;
    }
  }

  /** Bezout coefficients. */
  lemma {:induction false} GcdCombination(a: nat, b: nat) returns (u: int, v: int)
    ensures u * a + v * b == Gcd(a, b)
    decreases b
  {
    if b == 0 {
      return 1, 0;
    }
    var s, t := GcdCombination(b, a % b);
    u, v := t, s - t * (a / b);
    CombinationStep(a, b, a / b, a % b, s, t);
  }

  lemma CombinationStep(a: int, b: int, q: int, r: int, s: int, t: int)
    requires a == q * b + r
    ensures t * a + (s - t * q) * b == s * b + t * r
  {
    assert t * a == t * (q * b) + t * r;
    assert (s - t * q) * b == s * b - (t * q) * b;
    assert (t * q) * b == t * (q * b);
  }

  lemma CoprimeToPrime(r: nat, p: nat)
    requires Prime(r) && !Divides(r, p)
    ensures Gcd(p, r) == 1
  {
    GcdDivides(p, r);
    var g := Gcd(p, r);
    var k: int :| g * k == r;
    assert g != 0;
  }

  /** A prime that divides a product divides a factor. */
  lemma EuclidLemma(r: nat, p: nat, q: nat)
    requires Prime(r) && Divides(r, p * q) && !Divides(r, p)
    ensures Divides(r, q)
  {
    CoprimeToPrime(r, p);
    var u, v := GcdCombination(p, r);
    var k: int :| r * k == p * q;
    FactoredMultiple(r, p, q, u, v, k);
    assert r * (u * k + v * q) == q;
  }

  lemma FactoredMultiple(r: int, p: int, q: int, u: int, v: int, k: int)
    requires u * p + v * r == 1 && r * k == p * q
    ensures r * (u * k + v * q) == q
  {
    assert r * (u * k + v * q) == r * (u * k) + r * (v * q);
    assert r * (u * k) == u * (r * k);
    assert u * (p * q) == (u * p) * q;
    assert r * (v * q) == (v * r) * q;
    assert (u * p) * q + (v * r) * q == (u * p + v * r) * q;
  }

  lemma ProperCofactor(r: nat, s: nat, p: nat, q: nat)
    requires Prime(r) && Prime(s) && p > 1 && q > 1 && p * q == r * s && Divides(r, p)
    ensures p == r && q == s
  {
    var k: int :| r * k == p;
    if k <= 0 { MulMonotone(r, k, 0); }
    assert r * (k * q) == r * s by { assert (r * k) * q == r * (k * q); }
    CancelFactor(r, k * q, s);
    assert Divides(k, s);
    assert k == 1 by {
      if k > 1 { SelfFactor(s, k, q); }
    }
  }

  lemma SelfFactor(s: nat, k: nat, q: nat)
    requires Prime(s) && k * q == s && k > 1
    ensures q == 1
  {
    assert Divides(k, s);
    CancelFactor(s, q, 1);
  }

  lemma CancelFactor(r: nat, a: int, b: int)
    requires r > 0 && r * a == r * b
    ensures a == b
  {
    if a < b {
      assert r * (b - a) == 0;
      MulMonotone(r, 1, b - a);
    } else if a > b {
      assert r * (a - b) == 0;
      MulMonotone(r, 1, a - b);
    }
  }

  /** A product of two primes splits in only one way into factors above one. */
  lemma PrimeFactorsUnique(r: nat, s: nat, p: nat, q: nat)
    requires Prime(r) && Prime(s) && r <= s && 1 < p <= q && p * q == r * s
    ensures p == r && q == s
  {
    assert Divides(r, r * s);
    if Divides(r, p) {
      ProperCofactor(r, s, p, q);
    } else {
      EuclidLemma(r, p, q);
      assert q * p == r * s;
      ProperCofactor(r, s, q, p);
    }
  }

  // ---------------------------------------------------------------- bits and shifts

  function And(a: nat, b: nat): nat
  {
    if a == 0 || b == 0 then 0 else (a % 2) * (b % 2) + 2 * And(a / 2, b / 2)
  }

  lemma LowBit(b: nat)
    ensures And(b, 1) == b % 2
  {
    if b > 0 {
      assert And(b / 2, 0) == 0;
    }
  }

  /** `1 << n` in a 64-bit signed integer. */
  function ShiftedOne(n: nat): int
  {
    if n < 63 then Pow2(n) else if n == 63 then 0 - Pow2(63) else 0
  }

  /** It is the power of two in 64-bit two's complement. */
  lemma ShiftedOneWraps(n: nat)
    ensures ShiftedOne(n) == Signed(8, Pow2(n) % Pow256(8))
  {
    Pow256Values();
    Pow2Of63();
    if n < 63 {
      Pow2Grows(n, 62);
    } else if n > 63 {
      Pow2Multiple(n);
    }
  }

  lemma Pow2Of63()
    ensures Pow2(62) == 0x4000_0000_0000_0000 && Pow2(63) == 0x8000_0000_0000_0000
  {
    assert Pow2(8) == 256;
    assert Pow2(16) == 256 * Pow2(8);
    assert Pow2(24) == 256 * Pow2(16);
    assert Pow2(32) == 256 * Pow2(24);
    assert Pow2(40) == 256 * Pow2(32);
    assert Pow2(48) == 256 * Pow2(40);
    assert Pow2(56) == 256 * Pow2(48);
    assert Pow2(60) == 16 * Pow2(56);
    assert Pow2(62) == 4 * Pow2(60);
  }

  lemma {:induction false} Pow2Grows(n: nat, m: nat)
    requires n <= m
    ensures Pow2(n) <= Pow2(m)
  {
    if n < m { Pow2Grows(n, m - 1); }
  }

  lemma {:induction false} Pow2Multiple(n: nat)
    requires n >= 64
    ensures Pow2(n) % 0x1_0000_0000_0000_0000 == 0
  {
    if n == 64 {
      Pow2Of63();
    } else {
      Pow2Multiple(n - 1);
      var q := Pow2(n - 1) / 0x1_0000_0000_0000_0000;
      ModUnique(Pow2(n), 0x1_0000_0000_0000_0000, 2 * q, 0);
    }
  }

  // ---------------------------------------------------------------- the search

  /** `a * b` split into the low bit of `b` and its other half. */
  lemma HalfStep(a: int, b: int, half: int, low: int)
    requires b == 2 * half + low
    ensures a * b == (a + a) * half + a * low
  {
    assert a * (2 * half + low) == a * (2 * half) + a * low;
  }

  lemma ReduceStep(a: int, half: int, k: int, what: int)
    ensures (a + what) * half + k * what == a * half + (k + half) * what
  {
    assert (a + what) * half == a * half + what * half;
    assert (k + half) * what == k * what + half * what;
  }

  lemma CarryStep(k: int, what: int)
    ensures (k + 1) * what == k * what + what
  {
  }

  /** Shift-and-add multiplication: squares `x` and adds `v`, keeping both accumulators below `what`. */
  method SquarePlus(x: nat, v: nat, what: nat) returns (c: nat)
    requires x < what && v < what
    ensures c == (x * x + v) % what
  {
    var a, b := x, x;
    c := v;
    ghost var k := 0;
    ghost var target := x * x + v;
    while b > 0
      invariant 0 <= a < what && 0 <= c < what
      invariant c + a * b + k * what == target
    {
      var half := b / 2;
      LowBit(b);
      HalfStep(a, b, half, b % 2);
      if And(b, 1) > 0 {
        c := c + a;
        if c >= what {
          c := c - what;
          CarryStep(k, what);
          k := k + 1;
        }
      }
      assert c + (a + a) * half + k * what == target;
      a := a + a;
      if a >= what {
        ReduceStep(a - what, half, k, what);
        a := a - what;
        k := k + half;
      }
      b := half;
    }
    assert a * b == 0;
    ModUnique(target, what, k, c);
  }

  predicate Proper(g: int, what: int)
  {
    1 < g < what
  }

  function Difference(x: nat, y: nat, what: nat): nat
    requires x < what && y < what
  {
    if x < y then what + x - y else x - y
  }

  /** The divisor found by a walk: the first common divisor with `what` that is not one, or the last one looked at. */
  ghost function WalkFrom(x: nat, y: nat, j: nat, v: nat, lim: int, what: nat, g: nat): nat
    requires x < what && y < what && v < what && j >= 1
    decreases lim - j
  {
    if j >= lim then g
    else
      var x' := (x * x + v) % what;
      var g' := Gcd(Difference(x', y, what), what);
      if g' != 1 then g' else WalkFrom(x', if And(j, j - 1) == 0 then x' else y, j + 1, v, lim, what, g')
  }

  /** The divisor after the first `i` walks. */
  ghost function Tried(pq: nat, random: seq<nat>, i: nat): nat
    requires pq >= 2 && 2 * i <= |random|
  {
    if i == 0 then 0
    else
      var v := (And(random[2 * i - 2], 15) + 17) % pq;
      var x := random[2 * i - 1] % (pq - 1) + 1;
      WalkFrom(x, x, 1, v, ShiftedOne(i + 17), pq, Tried(pq, random, i - 1))
  }

  /** What splitting can end with: the factors in order, an error of the random source, or a division by zero. */
  datatype Factored = Split(p: nat, q: nat) | OutOfNumbers | DividesByZero

  function Ordered(p: nat, q: nat): Factored
  {
    if p > q then Split(q, p) else Split(p, q)
  }

  /** The outcome once `i` walks have met no proper divisor. */
  ghost function SplitFrom(pq: nat, random: seq<nat>, i: nat): Factored
    requires pq >= 2 && 2 * i <= |random|
    decreases |random| - 2 * i
  {
    var g := Tried(pq, random, i);
    if Proper(g, pq) then Ordered(g, pq / g)
    else if |random| < 2 * i + 2 then OutOfNumbers
    else SplitFrom(pq, random, i + 1)
  }

  /** Below two the first or second random number is reduced modulo zero. */
  ghost function SplitOf(pq: nat, random: seq<nat>): Factored
  {
    if pq >= 2 then SplitFrom(pq, random, 0)
    else if |random| > pq then DividesByZero
    else OutOfNumbers
  }

  lemma {:induction false} SplitFromExact(pq: nat, random: seq<nat>, i: nat)
    requires pq >= 2 && 2 * i <= |random|
    ensures var r := SplitFrom(pq, random, i);
            && !r.DividesByZero? && (r.Split? ==> 1 < r.p <= r.q < pq && r.p * r.q == pq)
    decreases |random| - 2 * i
  {
    var g := Tried(pq, random, i);
    TriedDivides(pq, random, i);
    if Proper(g, pq) {
      OrderedSplits(pq, g);
    } else if |random| >= 2 * i + 2 {
      SplitFromExact(pq, random, i + 1);
    }
  }

  lemma OrderedSplits(pq: nat, g: nat)
    requires Proper(g, pq) && Divides(g, pq)
    ensures var r := Ordered(g, pq / g); r.Split? && 1 < r.p <= r.q < pq && r.p * r.q == pq
  {
    Cofactor(g, pq);
    Commute(g, pq / g);
  }

  lemma Commute(a: int, b: int)
    ensures a * b == b * a
  {
  }

  lemma {:induction false} TriedDivides(pq: nat, random: seq<nat>, i: nat)
    requires pq >= 2 && 2 * i <= |random|
    ensures Tried(pq, random, i) == 0 || Divides(Tried(pq, random, i), pq)
  {
    if i > 0 {
      TriedDivides(pq, random, i - 1);
      var v := (And(random[2 * i - 2], 15) + 17) % pq;
      var x := random[2 * i - 1] % (pq - 1) + 1;
      WalkDivides(x, x, 1, v, ShiftedOne(i + 17), pq, Tried(pq, random, i - 1));
    }
  }

  lemma {:induction false} WalkDivides(x: nat, y: nat, j: nat, v: nat, lim: int, what: nat, g: nat)
    requires x < what && y < what && v < what && j >= 1
    ensures WalkFrom(x, y, j, v, lim, what, g) == g || Divides(WalkFrom(x, y, j, v, lim, what, g), what)
    decreases lim - j
  {
    if j < lim {
      var x' := (x * x + v) % what;
      var z := Difference(x', y, what);
      GcdDivides(z, what);
      if Gcd(z, what) == 1 {
        WalkDivides(x', if And(j, j - 1) == 0 then x' else y, j + 1, v, lim, what, Gcd(z, what));
      }
    }
  }

  /** Splitting gives proper factors in order and divides by zero exactly for numbers below two. */
  lemma SplitOfExact(pq: nat, random: seq<nat>)
    ensures var r := SplitOf(pq, random);
            && (r.DividesByZero? <==> pq < 2 && |random| > pq)
            && (r.Split? ==> 1 < r.p <= r.q < pq && r.p * r.q == pq)
  {
    if pq >= 2 { SplitFromExact(pq, random, 0); }
  }

  /** One walk of at most `lim` steps from `start`. */
  method Walk(start: nat, v: nat, lim: int, what: nat, before: nat) returns (g: nat)
    requires 0 < start < what && v < what
    requires before == 0 || Divides(before, what)
    ensures g == WalkFrom(start, start, 1, v, lim, what, before)
    ensures g == before || Divides(g, what)
  {
    var x, y := start, start;
    var j := 1;
    var flag := true;
    g := before;
    while j < lim && flag
      invariant 0 <= x < what && 0 <= y < what && j >= 1
      invariant g == before || Divides(g, what)
      invariant WalkFrom(start, start, 1, v, lim, what, before) ==
                if flag then WalkFrom(x, y, j, v, lim, what, g) else g
    {
      x := SquarePlus(x, v, what);
      var z := Difference(x, y, what);
      g := Gcd(z, what);
      GcdDivides(z, what);
      if And(j, j - 1) == 0 { y := x; }
      j := j + 1;
      if g != 1 { flag := false; }
    }
  }

  /**
    Splits `pq` with the 64-bit random numbers it is given; it fails exactly when no walk
    they allow meets a proper divisor. Whatever they are, a result is a proper
    factorisation, and for a product of two primes it is those primes in order. For pq below
    two it divides by zero as soon as it has drawn the number it reduces.
   */
  method DecomposePQ(pq: nat, random: seq<nat>) returns (r: Factored)
    ensures r == SplitOf(pq, random)
    ensures r.DividesByZero? <==> pq < 2 && |random| > pq
    ensures pq >= 2 ==> (r.Split? <==> exists i :: 0 <= i <= |random| / 2 && Proper(Tried(pq, random, i), pq))
    ensures r.Split? ==> 1 < r.p <= r.q < pq && r.p * r.q == pq
    ensures r.Split? ==> forall s, t :: Prime(s) && Prime(t) && s <= t && s * t == pq ==> (r.p, r.q) == (s, t)
    ensures Prime(pq) ==> r.OutOfNumbers?
  {
    if |random| == 0 && pq < 2 { return OutOfNumbers; }
    if pq == 0 { return DividesByZero; }
    if pq == 1 { return if |random| < 2 then OutOfNumbers else DividesByZero; }
    var g: nat := 0;
    var i: nat := 0;
    while !Proper(g, pq)
      invariant g == 0 || Divides(g, pq)
      invariant 2 * i <= |random| && g == Tried(pq, random, i)
      invariant forall j :: 0 <= j < i ==> !Proper(Tried(pq, random, j), pq)
      invariant SplitOf(pq, random) == SplitFrom(pq, random, i)
      decreases |random| - 2 * i
    {
      if |random| < 2 * i + 2 { return OutOfNumbers; }
      var v := (And(random[2 * i], 15) + 17) % pq;
      var x := random[2 * i + 1] % (pq - 1) + 1;
      g := Walk(x, v, ShiftedOne(i + 18), pq, g);
      i := i + 1;
    }
    var p, q := g, pq / g;
    if p > q { p, q := q, p; }
    OrderedSplit(pq, g);
    return Split(p, q);
  }

  /** A proper divisor and its cofactor in order are the only splitting. */
  lemma OrderedSplit(pq: nat, g: nat)
    requires Proper(g, pq) && Divides(g, pq)
    ensures var r := Ordered(g, pq / g);
            && 1 < r.p <= r.q < pq && r.p * r.q == pq && !Prime(pq)
            && forall s, t :: Prime(s) && Prime(t) && s <= t && s * t == pq ==> (r.p, r.q) == (s, t)
  {
    Cofactor(g, pq);
    var r := Ordered(g, pq / g);
    assert r.p * r.q == g * (pq / g);
    FactorsDecide(pq, r.p, r.q);
  }

  /** An ordered proper factorisation leaves no other for a product of two primes, and none for a prime. */
  lemma FactorsDecide(pq: nat, p: nat, q: nat)
    requires 1 < p <= q < pq && p * q == pq
    ensures forall s, t :: Prime(s) && Prime(t) && s <= t && s * t == pq ==> (p, q) == (s, t)
    ensures !Prime(pq)
  {
    forall s, t | Prime(s) && Prime(t) && s <= t && s * t == pq ensures (p, q) == (s, t) {
      PrimeFactorsUnique(s, t, p, q);
    }
    assert Divides(p, pq);
  }

  lemma Cofactor(g: nat, pq: nat)
    requires 1 < g < pq && Divides(g, pq)
    ensures g * (pq / g) == pq && 1 < pq / g < pq
  {
    var k: int :| g * k == pq;
    ModUnique(pq, g, k, 0);
    CancelFactor(g, pq / g, k);
    if k <= 1 { MulMonotone(g, k, 1); }
    if k >= pq { MulMonotone(g, pq, k); MulMonotone(pq, 2, g); }
  }
}

/**
  Unsigned big-endian numbers: `big.Int.Bytes`, `SetBytes` and fixed-width `FillBytes`.
 */
module BigEndian {
  import opened Bin

  function FromBE(s: seq<Byte>): (v: nat)
    ensures v < Pow256(|s|)
  {
    if s == [] then 0 else FromBE(s[..|s| - 1]) * 256 + s[|s| - 1]
  }

  /** The number in exactly `n` bytes; higher digits are lost when it does not fit. */
  function BE(n: nat, v: nat): (s: seq<Byte>)
    ensures |s| == n
  {
    if n == 0 then [] else BE(n - 1, v / 256) + [v % 256]
  }

  /** Number of significant bytes. */
  function ByteLen(v: nat): (n: nat)
    ensures v < Pow256(n)
    ensures n > 0 ==> Pow256(n - 1) <= v
  {
    if v == 0 then 0 else 1 + ByteLen(v / 256)
  }

  /** `big.Int.Bytes`: no leading zeros, empty for zero. */
  function Bytes(v: nat): seq<Byte>
  {
    BE(ByteLen(v), v)
  }

  /** `FillBytes`: the number right-aligned in `n` bytes, or nothing when it is too large. */
  function FillBytes(n: nat, v: nat): Option<seq<Byte>>
  {
    if v < Pow256(n) then Some(BE(n, v)) else None
  }

  /** A number that fits its width is read back unchanged. */
  lemma {:induction false} BEInverse(n: nat, v: nat)
    requires v < Pow256(n)
    ensures FromBE(BE(n, v)) == v
  {
    if n > 0 {
      BEInverse(n - 1, v / 256);
      assert BE(n, v)[..n - 1] == BE(n - 1, v / 256);
    }
  }

  /** Every string of bytes is the fixed-width form of exactly one number. */
  lemma {:induction false} FromBEInverse(s: seq<Byte>)
    ensures BE(|s|, FromBE(s)) == s
  {
    if s != [] {
      var n := |s| - 1;
      FromBEInverse(s[..n]);
      var h := FromBE(s[..n]);
      assert FromBE(s) / 256 == h && FromBE(s) % 256 == s[n];
      assert s == s[..n] + [s[n]];
    }
  }

  lemma BytesInverse(v: nat)
    ensures FromBE(Bytes(v)) == v
  {
    BEInverse(ByteLen(v), v);
  }

  lemma {:induction false} Pow256Monotone(m: nat, n: nat)
    requires m <= n
    ensures Pow256(m) <= Pow256(n)
  {
    if m < n {
      Pow256Monotone(m, n - 1);
    }
  }

  /** Width `n` is enough exactly when there are no more than `n` significant bytes. */
  lemma FitsWidth(n: nat, v: nat)
    ensures v < Pow256(n) <==> ByteLen(v) <= n
  {
    if ByteLen(v) <= n {
      Pow256Monotone(ByteLen(v), n);
    } else {
      Pow256Monotone(n, ByteLen(v) - 1);
    }
  }
}

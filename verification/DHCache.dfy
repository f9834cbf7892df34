/**
  The bounded cache of validated Diffie-Hellman parameters: a ring of 16 entries behind a
  read-write lock with a double check. The class is the cache as one caller sees it; the
  state machine runs any number of concurrent callers, one lock or memory access at a time.
 */
module DHCache {
  import opened Bin
  import opened BigEndian

  const CAPACITY := 16
  const KEY_BYTES := 256

  datatype Key = Key(g: int, p: seq<Byte>)

  // ---------------------------------------------------------------- the uncached check

  /** `p` has exactly 2048 significant bits. */
  predicate FullWidth(p: int)
  {
    p > 0 && p < Pow256(KEY_BYTES) && p >= 128 * Pow256(KEY_BYTES - 1)
  }

  predicate Residue(p: nat, divider: nat, expected: set<nat>)
    requires divider > 0
  {
    p % divider in expected
  }

  predicate CheckGP(g: int, p: nat)
  {
    match g
    case 2 => Residue(p, 8, {7})
    case 3 => Residue(p, 3, {2})
    case 4 => true
    case 5 => Residue(p, 5, {1, 4})
    case 6 => Residue(p, 24, {19, 23})
    case 7 => Residue(p, 7, {3, 5, 6})
    case _ => false
  }

  /** The whole check with nothing remembered; primality testing is a parameter. */
  predicate Accepts(prime: nat -> bool, g: int, p: int)
  {
    FullWidth(p) && Validates(prime, g, p)
  }

  /** The part of the check behind the cache. */
  predicate Validates(prime: nat -> bool, g: int, p: nat)
  {
    CheckGP(g, p) && prime(p) && prime(if p == 0 then 0 else (p - 1) / 2)
  }

  lemma Pow2Byte(m: nat)
    ensures Pow2(m + 8) == 256 * Pow2(m)
  {
    assert Pow2(m + 2) == 4 * Pow2(m);
    assert Pow2(m + 4) == 4 * Pow2(m + 2);
    assert Pow2(m + 6) == 4 * Pow2(m + 4);
    assert Pow2(m + 8) == 4 * Pow2(m + 6);
  }

  lemma {:induction false} Pow256IsPow2(n: nat)
    ensures Pow256(n) == Pow2(8 * n)
  {
    if n > 0 {
      Pow256IsPow2(n - 1);
      Pow2Byte(8 * (n - 1));
    }
  }

  lemma WidthInBits(n: nat)
    requires n > 0
    ensures Pow256(n) == Pow2(8 * n) && 128 * Pow256(n - 1) == Pow2(8 * n - 1)
  {
    Pow256IsPow2(n);
    Pow256IsPow2(n - 1);
    Pow2Byte(8 * (n - 1));
    assert Pow2(8 * n) == 2 * Pow2(8 * n - 1);
  }

  /** The residues listed for the generators 2, 3, 5, 6 and 7; 4 is always a square. */
  predicate Listed(g: int, p: int)
  {
    || (g == 2 && p % 8 == 7) || (g == 3 && p % 3 == 2) || g == 4 || (g == 5 && (p % 5 == 1 || p % 5 == 4))
    || (g == 6 && (p % 24 == 19 || p % 24 == 23)) || (g == 7 && (p % 7 == 3 || p % 7 == 5 || p % 7 == 6))
  }

  lemma ListedExact(g: int, p: nat)
    ensures CheckGP(g, p) <==> Listed(g, p)
  {
  }

  lemma FullWidthInBits(p: int, bytes: nat, bits: nat)
    requires bytes == KEY_BYTES && bits == 2048
    ensures FullWidth(p) <==> Pow2(bits - 1) <= p < Pow2(bits)
  {
    WidthInBits(bytes);
    assert bits == 8 * bytes;
  }

  /** The check accepts exactly safe primes of 2048 bits with a residue that is listed for the generator. */
  lemma AcceptsExact(prime: nat -> bool, g: int, p: int, bits: nat)
    requires bits == 2048
    ensures Accepts(prime, g, p) <==>
            Pow2(bits - 1) <= p < Pow2(bits) && prime(p) && prime((p - 1) / 2) && Listed(g, p)
  {
    FullWidthInBits(p, KEY_BYTES, bits);
    if p >= 0 { ListedExact(g, p); }
  }

  /** The conditions multiply as residue symbols do: 6 is listed exactly when 2 and 3 are both or neither. */
  lemma GeneratorsMultiply(p: nat)
    requires p % 4 == 3 && p % 3 != 0
    ensures CheckGP(6, p) <==> (CheckGP(2, p) <==> CheckGP(3, p))
  {
    var q, r := p / 24, p % 24;
    assert p == 24 * q + r;
    ModUnique(p, 8, 3 * q + r / 8, r % 8);
    ModUnique(p, 3, 8 * q + r / 3, r % 3);
    ModUnique(p, 4, 6 * q + r / 4, r % 4);
    assert r in {7, 11, 19, 23};
  }

  // ---------------------------------------------------------------- keys

  function KeyOf(g: int, p: int): Option<Key>
  {
    if FullWidth(p) then Some(Key(g, BE(KEY_BYTES, p))) else None
  }

  /** The pair a cached key stands for has passed the check. */
  predicate Approved(prime: nat -> bool, k: Key)
  {
    Validates(prime, k.g, FromBE(k.p))
  }

  /** A key holds the whole prime, so equal keys mean equal parameters. */
  lemma KeyExact(prime: nat -> bool, g: int, p: int)
    requires FullWidth(p)
    ensures FromBE(KeyOf(g, p).value.p) == p
    ensures Approved(prime, KeyOf(g, p).value) <==> Accepts(prime, g, p)
    ensures forall g', p' :: KeyOf(g', p') == KeyOf(g, p) ==> g' == g && p' == p
  {
    BEInverse(KEY_BYTES, p);
    forall g', p' | KeyOf(g', p') == KeyOf(g, p) ensures g' == g && p' == p {
      BEInverse(KEY_BYTES, p');
    }
  }

  // ---------------------------------------------------------------- the ring

  /** Entries, number of used slots and the slot to overwrite next. */
  datatype Ring = Ring(entries: seq<Key>, used: nat, next: nat)

  /** The ring holds the most recent min(n, 16) admitted keys; once it is full `next` is the oldest. */
  ghost predicate Recent(r: Ring, log: seq<Key>)
  {
    var n := |log|;
    && |r.entries| == 16
    && r.used == (if n < 16 then n else 16)
    && r.next == (if n < 16 then 0 else n % 16)
    && forall k :: 0 <= k < n && n - 16 <= k ==> r.entries[k % 16] == log[k]
  }

  ghost predicate Holds(r: Ring, key: Key)
    requires r.used <= |r.entries|
  {
    exists i :: 0 <= i < r.used && r.entries[i] == key
  }

  ghost predicate Distinct(r: Ring)
    requires r.used <= |r.entries|
  {
    forall i, j :: 0 <= i < j < r.used ==> r.entries[i] != r.entries[j]
  }

  ghost predicate Good(prime: nat -> bool, r: Ring, log: seq<Key>)
  {
    && Recent(r, log) && Distinct(r)
    && forall k :: 0 <= k < |log| ==> Approved(prime, log[k])
  }

  function Slot(r: Ring): nat
  {
    if r.used < CAPACITY then r.used else r.next
  }

  function Stored(r: Ring, key: Key): Ring
    requires Slot(r) < |r.entries|
  {
    r.(entries := r.entries[Slot(r) := key])
  }

  function Bumped(r: Ring): Ring
  {
    if r.used < CAPACITY then r.(used := r.used + 1) else r.(next := (r.next + 1) % CAPACITY)
  }

  lemma EntriesApproved(prime: nat -> bool, r: Ring, log: seq<Key>, i: nat)
    requires Good(prime, r, log) && i < r.used
    ensures Approved(prime, r.entries[i])
    ensures exists k :: |log| - CAPACITY <= k < |log| && 0 <= k && log[k] == r.entries[i]
  {
    var n := |log|;
    var k := if n < CAPACITY then i else n - CAPACITY + (i + CAPACITY - n % CAPACITY) % CAPACITY;
    assert 0 <= k < n && k % CAPACITY == i;
  }

  /** Two different recent positions never share a slot. */
  lemma SlotsApart(k: nat, n: nat)
    requires k < n < k + CAPACITY
    ensures k % CAPACITY != n % CAPACITY
  {
  }

  lemma NextSlot(r: Ring, log: seq<Key>)
    requires Recent(r, log)
    ensures Slot(r) == |log| % CAPACITY
  {
  }

  lemma AdmitKeepsRecent(r: Ring, log: seq<Key>, key: Key)
    requires Recent(r, log)
    ensures Slot(r) < CAPACITY && Recent(Bumped(Stored(r, key)), log + [key])
  {
    var n := |log|;
    NextSlot(r, log);
    var entries' := Stored(r, key).entries;
    forall k | 0 <= k < n + 1 && n + 1 - CAPACITY <= k
      ensures entries'[k % CAPACITY] == (log + [key])[k]
    {
      if k < n {
        SlotsApart(k, n);
        assert r.entries[k % CAPACITY] == log[k];
      }
    }
  }

  lemma AdmitKeepsDistinct(r: Ring, key: Key)
    requires |r.entries| == CAPACITY && r.used <= CAPACITY && Slot(r) < CAPACITY && Distinct(r) && !Holds(r, key)
    ensures Bumped(Stored(r, key)).used <= CAPACITY && Distinct(Bumped(Stored(r, key)))
  {
  }

  /** Storing a new approved key and moving the index keeps the ring recent, distinct and approved. */
  lemma AdmitKeepsGood(prime: nat -> bool, r: Ring, log: seq<Key>, key: Key)
    requires Good(prime, r, log) && Approved(prime, key) && !Holds(r, key)
    ensures Slot(r) < CAPACITY && Good(prime, Bumped(Stored(r, key)), log + [key])
  {
    AdmitKeepsRecent(r, log, key);
    AdmitKeepsDistinct(r, key);
  }

  // ---------------------------------------------------------------- the cache object

  class Cache {
    const entries: array<Key>
    var used: nat
    var next: nat
    ghost var log: seq<Key>

    ghost predicate Valid(prime: nat -> bool)
      reads this, entries
    {
      entries.Length == CAPACITY && Good(prime, Contents(), log)
    }

    ghost function Contents(): Ring
      reads this, entries
    {
      Ring(entries[..], used, next)
    }

    constructor (prime: nat -> bool)
      ensures Valid(prime) && log == [] && fresh(entries)
    {
      entries := new Key[CAPACITY](_ => Key(0, []));
      used, next, log := 0, 0, [];
    }

    method ContainsLocked(key: Key) returns (found: bool)
      requires used <= entries.Length
      ensures found <==> Holds(Contents(), key)
    {
      for i := 0 to used
        invariant forall j :: 0 <= j < i ==> entries[j] != key
      {
        if entries[i] == key { return true; }
      }
      return false;
    }

    /** A key is accepted when it is held already or passes the check; only then is it admitted. */
    method Validate(key: Key, prime: nat -> bool) returns (ok: bool)
      requires Valid(prime)
      modifies this, entries
      ensures Valid(prime)
      ensures ok <==> Approved(prime, key)
      ensures log == if ok && !old(Holds(Contents(), key)) then old(log) + [key] else old(log)
      ensures old(Holds(Contents(), key)) || !ok ==> Contents() == old(Contents())
    {
      var found := ContainsLocked(key);
      if found {
        var i :| 0 <= i < used && entries[i] == key;
        EntriesApproved(prime, Contents(), log, i);
        return true;
      }
      found := ContainsLocked(key);
      if found { return true; }
      if !Approved(prime, key) { return false; }
      AdmitKeepsGood(prime, Contents(), log, key);
      ghost var stored := Stored(Contents(), key);
      if used < entries.Length {
        entries[used] := key;
        used := used + 1;
      } else {
        entries[next] := key;
        next := (next + 1) % entries.Length;
      }
      assert Contents() == Bumped(stored);
      log := log + [key];
      return true;
    }

    /** The cached check accepts exactly what the uncached one does. */
    method Check(g: int, p: int, prime: nat -> bool) returns (ok: bool)
      requires Valid(prime)
      modifies this, entries
      ensures Valid(prime)
      ensures ok <==> Accepts(prime, g, p)
    {
      var key := KeyOf(g, p);
      if key.None? { return false; }
      KeyExact(prime, g, p);
      ok := Validate(key.value, prime);
    }
  }
}

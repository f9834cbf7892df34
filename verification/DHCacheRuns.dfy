/**
  Every interleaving of concurrent callers of the validated-parameter cache. Each step is one
  lock operation, one comparison of a scan, one run of the expensive check or one memory write.
 */
module DHCacheRuns {
  import opened Bin
  import opened DHCache

  /** Where a caller is; `Reading` holds the shared lock, `Rechecking` to `Moving` the exclusive one. */
  datatype Pc =
    | Start | Reading(i: nat) | Missed | Rechecking(i: nat) | Validating | Storing | Moving | Finished(ok: bool)

  datatype Caller = Caller(g: int, p: int, pc: Pc)

  /** Shared memory, lock and callers; `log` records the keys admitted so far. */
  datatype State = State(ring: Ring, callers: map<nat, Caller>, readers: set<nat>, writer: Option<nat>, log: seq<Key>)

  datatype Step =
    | Arrive(t: nat, g: int, p: int)
    | LockRead(t: nat) | ScanRead(t: nat)
    | LockWrite(t: nat) | ScanWrite(t: nat) | RunCheck(t: nat) | StoreEntry(t: nat) | MoveIndex(t: nat)

  function At(s: State, t: nat): Option<Caller>
  {
    if t in s.callers then Some(s.callers[t]) else None
  }

  predicate Enabled(s: State, step: Step)
  {
    match step
    case Arrive(t, _, _) => t !in s.callers
    case LockRead(t) => At(s, t).Some? && At(s, t).value.pc.Start? && s.writer.None?
    case ScanRead(t) => At(s, t).Some? && At(s, t).value.pc.Reading?
    case LockWrite(t) => At(s, t).Some? && At(s, t).value.pc.Missed? && s.writer.None? && s.readers == {}
    case ScanWrite(t) => At(s, t).Some? && At(s, t).value.pc.Rechecking?
    case RunCheck(t) => At(s, t).Some? && At(s, t).value.pc.Validating?
    case StoreEntry(t) => At(s, t).Some? && At(s, t).value.pc.Storing?
    case MoveIndex(t) => At(s, t).Some? && At(s, t).value.pc.Moving?
  }

  function Moved(s: State, t: nat, pc: Pc): State
    requires t in s.callers
  {
    s.(callers := s.callers[t := s.callers[t].(pc := pc)])
  }

  /** The entry a scan looks at is the caller's key. */
  predicate Match(r: Ring, c: Caller, i: nat)
  {
    i < r.used && i < |r.entries| && Some(r.entries[i]) == KeyOf(c.g, c.p)
  }

  function Apply(prime: nat -> bool, s: State, step: Step): State
    requires Enabled(s, step)
  {
    match step
    case Arrive(t, g, p) => s.(callers := s.callers[t := Caller(g, p, if FullWidth(p) then Start else Finished(false))])
    case LockRead(t) => Moved(s, t, Reading(0)).(readers := s.readers + {t})
    case ScanRead(t) =>
      var c := s.callers[t];
      if Match(s.ring, c, c.pc.i) then Moved(s, t, Finished(true)).(readers := s.readers - {t})
      else if c.pc.i < s.ring.used then Moved(s, t, Reading(c.pc.i + 1))
      else Moved(s, t, Missed).(readers := s.readers - {t})
    case LockWrite(t) => Moved(s, t, Rechecking(0)).(writer := Some(t))
    case ScanWrite(t) =>
      var c := s.callers[t];
      if Match(s.ring, c, c.pc.i) then Moved(s, t, Finished(true)).(writer := None)
      else if c.pc.i < s.ring.used then Moved(s, t, Rechecking(c.pc.i + 1))
      else Moved(s, t, Validating)
    case RunCheck(t) =>
      var c := s.callers[t];
      if c.p >= 0 && Validates(prime, c.g, c.p) then Moved(s, t, Storing)
      else Moved(s, t, Finished(false)).(writer := None)
    case StoreEntry(t) =>
      var key := KeyOf(s.callers[t].g, s.callers[t].p);
      if key.Some? && Slot(s.ring) < |s.ring.entries|
      then Moved(s, t, Moving).(ring := DHCache.Stored(s.ring, key.value)) else s
    case MoveIndex(t) =>
      var key := KeyOf(s.callers[t].g, s.callers[t].p);
      Moved(s, t, Finished(true)).(ring := Bumped(s.ring), writer := None,
                                   log := s.log + (if key.Some? then [key.value] else []))
  }

  ghost predicate Initial(s: State)
  {
    |s.ring.entries| == CAPACITY && s.ring.used == 0 && s.ring.next == 0 && s.callers == map[] && s.readers == {} &&
    s.writer.None? && s.log == []
  }

  // ---------------------------------------------------------------- the invariant

  predicate Writes(pc: Pc)
  {
    pc.Rechecking? || pc.Validating? || pc.Storing? || pc.Moving?
  }

  /** The lock variables say who is inside which section, and writers are alone. */
  ghost predicate LockOk(s: State)
  {
    && (forall t :: t in s.readers <==> t in s.callers && s.callers[t].pc.Reading?)
    && (forall t :: t in s.callers ==> (Writes(s.callers[t].pc) <==> s.writer == Some(t)))
    && (s.writer.Some? ==> s.writer.value in s.callers && s.readers == {})
  }

  ghost predicate Unseen(r: Ring, key: Key, i: nat)
  {
    i <= r.used <= |r.entries| && forall j :: 0 <= j < i ==> r.entries[j] != key
  }

  /** What one caller knows; nothing in it depends on the ring unless the caller holds a lock. */
  ghost predicate CallerOk(prime: nat -> bool, r: Ring, c: Caller)
  {
    if c.pc.Finished? then c.pc.ok <==> Accepts(prime, c.g, c.p)
    else
      && FullWidth(c.p)
      && (c.pc.Reading? || c.pc.Rechecking? ==> Unseen(r, KeyOf(c.g, c.p).value, c.pc.i))
      && (c.pc.Validating? || c.pc.Storing? ==> Unseen(r, KeyOf(c.g, c.p).value, r.used))
      && (c.pc.Storing? || c.pc.Moving? ==> Approved(prime, KeyOf(c.g, c.p).value))
  }

  /** The caller between the two writes of an admission, if there is one. */
  ghost function Admitting(s: State): Option<Caller>
  {
    if s.writer.Some? && s.writer.value in s.callers && s.callers[s.writer.value].pc.Moving?
    then Some(s.callers[s.writer.value]) else None
  }

  /** Between the two writes of an admission the ring is one index move away from a good one. */
  ghost predicate RingOk(prime: nat -> bool, s: State)
  {
    match Admitting(s)
    case Some(c) => FullWidth(c.p) && Good(prime, Bumped(s.ring), s.log + [KeyOf(c.g, c.p).value])
    case None => Good(prime, s.ring, s.log)
  }

  ghost predicate Inv(prime: nat -> bool, s: State)
  {
    && LockOk(s) && RingOk(prime, s)
    && forall t :: t in s.callers ==> CallerOk(prime, s.ring, s.callers[t])
  }

  // ---------------------------------------------------------------- preservation

  lemma LockKept(prime: nat -> bool, s: State, step: Step)
    requires LockOk(s) && Enabled(s, step)
    requires step.StoreEntry? ==> FullWidth(s.callers[step.t].p) && Slot(s.ring) < |s.ring.entries|
    ensures LockOk(Apply(prime, s, step))
  {
  }

  /** Steps that leave the ring alone keep every other caller's knowledge. */
  lemma QuietStep(prime: nat -> bool, s: State, step: Step)
    requires Inv(prime, s) && Enabled(s, step) && !step.StoreEntry? && !step.MoveIndex?
    ensures Inv(prime, Apply(prime, s, step))
  {
    LockKept(prime, s, step);
    QuietRing(prime, s, step);
    var s' := Apply(prime, s, step);
    if step.ScanRead? || step.ScanWrite? {
      ScanOk(prime, s, step);
    } else {
      OtherOk(prime, s, step);
    }
    forall t | t in s'.callers ensures CallerOk(prime, s'.ring, s'.callers[t]) {
      if t != step.t { assert s'.callers[t] == s.callers[t]; }
    }
  }

  lemma QuietRing(prime: nat -> bool, s: State, step: Step)
    requires LockOk(s) && RingOk(prime, s) && Enabled(s, step) && !step.StoreEntry? && !step.MoveIndex?
    ensures var s' := Apply(prime, s, step);
            && s'.ring == s.ring && s'.log == s.log && step.t in s'.callers && RingOk(prime, s')
            && forall t :: t in s'.callers && t != step.t ==> t in s.callers && s'.callers[t] == s.callers[t]
  {
    QuietFrame(prime, s, step);
    QuietWriter(prime, s, step);
  }

  lemma QuietFrame(prime: nat -> bool, s: State, step: Step)
    requires Enabled(s, step) && !step.StoreEntry? && !step.MoveIndex?
    ensures var s' := Apply(prime, s, step);
            && s'.ring == s.ring && s'.log == s.log && step.t in s'.callers
            && forall t :: t in s'.callers && t != step.t ==> t in s.callers && s'.callers[t] == s.callers[t]
  {
  }

  /** A quiet step neither starts nor ends the second half of an admission. */
  lemma QuietWriter(prime: nat -> bool, s: State, step: Step)
    requires LockOk(s) && Enabled(s, step) && !step.StoreEntry? && !step.MoveIndex?
    ensures Admitting(Apply(prime, s, step)) == Admitting(s)
  {
  }

  lemma ScanOk(prime: nat -> bool, s: State, step: Step)
    requires LockOk(s) && RingOk(prime, s) && Enabled(s, step) && (step.ScanRead? || step.ScanWrite?)
    requires CallerOk(prime, s.ring, s.callers[step.t])
    ensures CallerOk(prime, s.ring, Apply(prime, s, step).callers[step.t])
  {
    var c := s.callers[step.t];
    NotMoving(prime, s, step);
    if Match(s.ring, c, c.pc.i) {
      ScanHit(prime, s.ring, s.log, c);
    } else {
      ScanMiss(s.ring, c);
    }
  }

  /** Whoever scans holds a lock, so the ring is not between the two writes of an admission. */
  lemma NotMoving(prime: nat -> bool, s: State, step: Step)
    requires LockOk(s) && RingOk(prime, s) && Enabled(s, step) && (step.ScanRead? || step.ScanWrite?)
    ensures Good(prime, s.ring, s.log)
  {
  }

  /** A scan that finds the caller's key may accept it. */
  lemma ScanHit(prime: nat -> bool, r: Ring, log: seq<Key>, c: Caller)
    requires Good(prime, r, log) && (c.pc.Reading? || c.pc.Rechecking?) && FullWidth(c.p) && Match(r, c, c.pc.i)
    ensures Accepts(prime, c.g, c.p)
  {
    KeyExact(prime, c.g, c.p);
    EntriesApproved(prime, r, log, c.pc.i);
  }

  lemma ScanMiss(r: Ring, c: Caller)
    requires (c.pc.Reading? || c.pc.Rechecking?) && FullWidth(c.p) && Unseen(r, KeyOf(c.g, c.p).value, c.pc.i) &&
             !Match(r, c, c.pc.i)
    ensures Unseen(r, KeyOf(c.g, c.p).value, if c.pc.i < r.used then c.pc.i + 1 else r.used)
  {
  }

  lemma OtherOk(prime: nat -> bool, s: State, step: Step)
    requires LockOk(s) && RingOk(prime, s) && Enabled(s, step)
    requires step.Arrive? || step.LockRead? || step.LockWrite? || step.RunCheck?
    requires step.Arrive? || CallerOk(prime, s.ring, s.callers[step.t])
    ensures CallerOk(prime, s.ring, Apply(prime, s, step).callers[step.t])
  {
    if step.RunCheck? {
      KeyExact(prime, s.callers[step.t].g, s.callers[step.t].p);
    } else if !step.Arrive? {
      assert Good(prime, s.ring, s.log);
    }
  }

  lemma StoreStep(prime: nat -> bool, s: State, t: nat)
    requires Inv(prime, s) && Enabled(s, StoreEntry(t))
    ensures Inv(prime, Apply(prime, s, StoreEntry(t)))
  {
    var c := s.callers[t];
    assert CallerOk(prime, s.ring, c) && s.writer == Some(t);
    var key := KeyOf(c.g, c.p).value;
    assert Good(prime, s.ring, s.log) && !Holds(s.ring, key);
    AdmitKeepsGood(prime, s.ring, s.log, key);
    LockKept(prime, s, StoreEntry(t));
    var s' := Apply(prime, s, StoreEntry(t));
    assert s'.writer == Some(t) && s'.callers[t].pc.Moving?;
    forall u | u in s'.callers ensures CallerOk(prime, s'.ring, s'.callers[u]) {
      if u != t { OutsiderOk(prime, s, s', t, u); }
    }
  }

  /** A caller outside both sections knows nothing about the ring. */
  lemma OutsiderOk(prime: nat -> bool, s: State, s': State, t: nat, u: nat)
    requires Inv(prime, s) && s.writer == Some(t) && u != t && u in s.callers && u in s'.callers &&
             s'.callers[u] == s.callers[u]
    ensures CallerOk(prime, s'.ring, s'.callers[u])
  {
    assert !Writes(s.callers[u].pc) && u !in s.readers;
    assert CallerOk(prime, s.ring, s.callers[u]);
  }

  lemma MoveStep(prime: nat -> bool, s: State, t: nat)
    requires Inv(prime, s) && Enabled(s, MoveIndex(t))
    ensures Inv(prime, Apply(prime, s, MoveIndex(t)))
  {
    var c := s.callers[t];
    assert CallerOk(prime, s.ring, c) && s.writer == Some(t);
    KeyExact(prime, c.g, c.p);
    LockKept(prime, s, MoveIndex(t));
    var s' := Apply(prime, s, MoveIndex(t));
    forall u | u in s'.callers ensures CallerOk(prime, s'.ring, s'.callers[u]) {
      if u != t { OutsiderOk(prime, s, s', t, u); }
    }
  }

  lemma StepKeepsInv(prime: nat -> bool, s: State, step: Step)
    requires Inv(prime, s) && Enabled(s, step)
    ensures Inv(prime, Apply(prime, s, step))
  {
    if step.StoreEntry? {
      StoreStep(prime, s, step.t);
    } else if step.MoveIndex? {
      MoveStep(prime, s, step.t);
    } else {
      QuietStep(prime, s, step);
    }
  }

  // ---------------------------------------------------------------- whole runs

  ghost predicate Takes(prime: nat -> bool, s: State, step: Step, s': State)
  {
    Enabled(s, step) && s' == Apply(prime, s, step)
  }

  ghost predicate Next(prime: nat -> bool, s: State, s': State)
  {
    exists step :: Takes(prime, s, step, s')
  }

  /** `run` starts empty and every state follows from the one before by some step. */
  ghost predicate Run(prime: nat -> bool, run: seq<State>)
  {
    && |run| > 0 && Initial(run[0])
    && forall i :: 0 < i < |run| ==> Next(prime, run[i - 1], run[i])
  }

  lemma {:induction false} RunKeepsInv(prime: nat -> bool, run: seq<State>, i: nat)
    requires Run(prime, run) && i < |run|
    ensures Inv(prime, run[i])
  {
    if i > 0 {
      RunKeepsInv(prime, run, i - 1);
      assert Next(prime, run[i - 1], run[i]);
      var step :| Takes(prime, run[i - 1], step, run[i]);
      StepKeepsInv(prime, run[i - 1], step);
    }
  }

  /**
    In every interleaving: a caller that has returned was accepted exactly when the uncached
    check accepts its parameters; and whenever no admission is under way the ring holds the
    most recent min(n, 16) admitted keys, distinct and all approved.
   */
  lemma CacheIsTransparent(prime: nat -> bool, run: seq<State>, i: nat)
    requires Run(prime, run) && i < |run|
    ensures forall t :: t in run[i].callers && run[i].callers[t].pc.Finished? ==>
              (run[i].callers[t].pc.ok <==> Accepts(prime, run[i].callers[t].g, run[i].callers[t].p))
    ensures run[i].writer.None? ==> Good(prime, run[i].ring, run[i].log)
  {
    RunKeepsInv(prime, run, i);
    assert forall t :: t in run[i].callers ==> CallerOk(prime, run[i].ring, run[i].callers[t]);
  }

  /** No deadlock: while some caller has not returned, one of those present can take a step. */
  lemma NeverStuck(prime: nat -> bool, run: seq<State>, i: nat, t: nat)
    requires Run(prime, run) && i < |run| && t in run[i].callers && !run[i].callers[t].pc.Finished?
    ensures exists step: Step :: !step.Arrive? && Enabled(run[i], step)
  {
    RunKeepsInv(prime, run, i);
    var s := run[i];
    if s.writer.Some? {
      var w := s.writer.value;
      assert Enabled(s, ScanWrite(w)) || Enabled(s, RunCheck(w)) || Enabled(s, StoreEntry(w)) ||
             Enabled(s, MoveIndex(w));
    } else if s.readers != {} {
      var r :| r in s.readers;
      assert Enabled(s, ScanRead(r));
    } else {
      assert Enabled(s, LockRead(t)) || Enabled(s, LockWrite(t));
    }
  }

  // ---------------------------------------------------------------- the expensive check

  /** The expensive check only ever runs for a key that is not among the recent admissions. */
  lemma CheckIsForUnseen(prime: nat -> bool, run: seq<State>, i: nat, t: nat)
    requires Run(prime, run) && i < |run| && Enabled(run[i], RunCheck(t))
    ensures var s, c := run[i], run[i].callers[t];
            && FullWidth(c.p) && Unseen(s.ring, KeyOf(c.g, c.p).value, s.ring.used)
            && forall k :: 0 <= k < |s.log| && |s.log| - 16 <= k ==> s.log[k] != KeyOf(c.g, c.p).value
  {
    RunKeepsInv(prime, run, i);
    var s := run[i];
    assert CallerOk(prime, s.ring, s.callers[t]) && s.writer == Some(t);
    RecentIsHeld(prime, s, KeyOf(s.callers[t].g, s.callers[t].p).value);
  }

  /** What is not in the ring was not admitted recently. */
  lemma RecentIsHeld(prime: nat -> bool, s: State, key: Key)
    requires Good(prime, s.ring, s.log) && Unseen(s.ring, key, s.ring.used)
    ensures forall k :: 0 <= k < |s.log| && |s.log| - 16 <= k ==> s.log[k] != key
  {
  }

  /** The caller is about to admit the key as number `n`, or the key has been admitted as number `n`. */
  ghost predicate Admits(s: State, t: nat, key: Key, n: nat)
  {
    || (AboutToAdmit(s, t, key) && |s.log| == n)
    || (n < |s.log| && s.log[n] == key)
  }

  ghost predicate AboutToAdmit(s: State, t: nat, key: Key)
  {
    && s.writer == Some(t) && t in s.callers && (s.callers[t].pc.Storing? || s.callers[t].pc.Moving?)
    && KeyOf(s.callers[t].g, s.callers[t].p) == Some(key)
  }

  /** The log only grows, and only the writer between its two writes makes it grow. */
  lemma LogGrows(prime: nat -> bool, s: State, step: Step)
    requires LockOk(s) && Enabled(s, step)
    ensures var s' := Apply(prime, s, step);
            && s.log <= s'.log && (s'.log != s.log ==> step.MoveIndex? && s.writer == Some(step.t))
  {
  }

  lemma AdmitsKept(prime: nat -> bool, s: State, step: Step, t: nat, key: Key, n: nat)
    requires Inv(prime, s) && Enabled(s, step) && Admits(s, t, key, n)
    ensures Admits(Apply(prime, s, step), t, key, n)
  {
    LogGrows(prime, s, step);
    if AboutToAdmit(s, t, key) && |s.log| == n {
      if step.t == t {
        WriterAdmits(prime, s, step, t, key);
      } else {
        OthersWait(prime, s, step, t, key);
      }
    }
  }

  lemma WriterAdmits(prime: nat -> bool, s: State, step: Step, t: nat, key: Key)
    requires Inv(prime, s) && Enabled(s, step) && AboutToAdmit(s, t, key) && step.t == t
    ensures Admits(Apply(prime, s, step), t, key, |s.log|)
  {
    if step.StoreEntry? {
      assert CallerOk(prime, s.ring, s.callers[t]) && Good(prime, s.ring, s.log);
    }
  }

  lemma OthersWait(prime: nat -> bool, s: State, step: Step, t: nat, key: Key)
    requires LockOk(s) && Enabled(s, step) && AboutToAdmit(s, t, key) && step.t != t
    ensures AboutToAdmit(Apply(prime, s, step), t, key) && Apply(prime, s, step).log == s.log
  {
    LogGrows(prime, s, step);
  }

  lemma {:induction false} AdmitsStays(prime: nat -> bool, run: seq<State>, i: nat, j: nat, t: nat, key: Key, n: nat)
    requires Run(prime, run) && i <= j < |run| && Admits(run[i], t, key, n)
    ensures Admits(run[j], t, key, n)
    decreases j
  {
    if i < j {
      AdmitsStays(prime, run, i, j - 1, t, key, n);
      AdmitsFollows(prime, run, j, t, key, n);
    }
  }

  lemma AdmitsFollows(prime: nat -> bool, run: seq<State>, j: nat, t: nat, key: Key, n: nat)
    requires Run(prime, run) && 0 < j < |run| && Admits(run[j - 1], t, key, n)
    ensures Admits(run[j], t, key, n)
  {
    RunKeepsInv(prime, run, j - 1);
    NextKeepsAdmits(prime, run[j - 1], run[j], t, key, n);
  }

  lemma NextKeepsAdmits(prime: nat -> bool, s: State, s': State, t: nat, key: Key, n: nat)
    requires Inv(prime, s) && Next(prime, s, s') && Admits(s, t, key, n)
    ensures Admits(s', t, key, n)
  {
    var step :| Takes(prime, s, step, s');
    AdmitsKept(prime, s, step, t, key, n);
  }

  lemma CheckAdmits(prime: nat -> bool, s: State, t: nat)
    requires Inv(prime, s) && Enabled(s, RunCheck(t)) && Apply(prime, s, RunCheck(t)).callers[t].pc.Storing?
    ensures FullWidth(s.callers[t].p)
    ensures Admits(Apply(prime, s, RunCheck(t)), t, KeyOf(s.callers[t].g, s.callers[t].p).value, |s.log|)
  {
    assert CallerOk(prime, s.ring, s.callers[t]);
  }

  /**
    However many callers present one pair, the expensive check that succeeds for it is the only one
    until at least sixteen other keys have been admitted after it.
   */
  lemma OneProofPerBurst(prime: nat -> bool, run: seq<State>, i: nat, t: nat, j: nat, u: nat)
    requires Run(prime, run) && i < j < |run| && Takes(prime, run[i], RunCheck(t), run[i + 1])
    requires run[i + 1].callers[t].pc.Storing? && Enabled(run[j], RunCheck(u))
    requires KeyOf(run[j].callers[u].g, run[j].callers[u].p) == KeyOf(run[i].callers[t].g, run[i].callers[t].p)
    ensures |run[j].log| >= |run[i].log| + 1 + 16
    ensures Some(run[j].log[|run[i].log|]) == KeyOf(run[i].callers[t].g, run[i].callers[t].p)
  {
    RunKeepsInv(prime, run, i);
    RunKeepsInv(prime, run, j);
    var n := |run[i].log|;
    CheckAdmits(prime, run[i], t);
    var key := KeyOf(run[i].callers[t].g, run[i].callers[t].p).value;
    AdmitsStays(prime, run, i + 1, j, t, key, n);
    CheckIsForUnseen(prime, run, j, u);
    assert run[j].writer == Some(u) && run[j].callers[u].pc.Validating?;
  }
}

/**
  `ClientExchange.Run` as a sequential program over a connection: it draws its random values,
  factors pq, seals the inner data and answers the group, and is proved to follow the client
  steps for the values its random stream and factorisation determine.
 */
module ExchangeClientFlow {
  import opened Bin
  import opened BigEndian
  import opened Crypto
  import opened ExchangeWire
  import opened Exchange
  import opened ExchangeRuns
  import opened ExchangeFlows
  import DHCache
  import Factorize
  import HashedAnswer
  import RsaPad

  ghost predicate ValidClient(su: Setup, cc: ClientConfig)
  {
    Lawful(su.c) && forall k :: k in cc.keys ==> RsaPad.ValidPublic(k)
  }

  /** `m` is what the client does with `frame`, for values its randomness can produce. */
  ghost predicate ClientStep(su: Setup, cc: ClientConfig, s: ClientState, frame: seq<Byte>, ch: ClientChoice,
                             m: ClientMove)
    requires Lawful(su.c)
  {
    && ClientWaits(s) && ClientSized(s) && ClientChoiceOk(ch)
    && (s.CWaitPQ? ==> ResPQChoiceOk(su, cc, s.nonce, frame, ch))
    && m == ClientOn(su, cc, s, frame, ch)
  }

  function NoChoice(msgID: int): ClientChoice
  {
    ClientChoice(msgID, None, Factorize.OutOfNumbers, None, [], None, None, [], false)
  }

  /**
    Everything a client program gets besides frames: its random stream, numbers for the
    factorisation and identifiers.
   */
  datatype ClientInputs = ClientInputs(stream: seq<Byte>, factorRandom: seq<nat>, ids: nat -> int)

  ghost predicate InputsOk(x: ClientInputs)
  {
    forall k: nat :: InRange(8, x.ids(k)) && FromClient(x.ids(k))
  }

  /** What RSA_PAD makes of the inner data and the rest of the stream, if there is something to seal. */
  ghost function SealFrom(su: Setup, cc: ClientConfig, nonce: seq<Byte>, res: ResPQ, key: RsaPad.PublicKey,
                          factors: Factorize.Factored,
                          newNonce: Option<seq<Byte>>, stream: seq<Byte>): Option<(seq<Byte>, seq<Byte>)>
  {
    if factors.Split? && newNonce.Some? && key.n > 0 then
      RsaPad.SealOf(su.c,
                    InnerData(cc, res.pq, Bytes(factors.p), Bytes(factors.q), nonce, res.serverNonce, newNonce.value),
                    key, stream)
    else None
  }

  /** The choice the client makes when it answers res_pq and its source still delivers `stream`. */
  ghost function ResPQChoice(su: Setup, cc: ClientConfig, nonce: seq<Byte>, frame: seq<Byte>, factorRandom: seq<nat>,
                             msgID: int,
                             stream: seq<Byte>): ClientChoice
  {
    if ReadResPQ(frame).Bad? || SelectKey(su, cc.keys, ReadResPQ(frame).v.fingerprints).None? then NoChoice(msgID)
    else
      var res := ReadResPQ(frame).v;
      var factors, newNonce := Factorize.SplitOf(FromBE(res.pq), factorRandom), Draw(stream, 32);
      var sealed := SealFrom(su, cc, nonce, res, SelectKey(su, cc.keys, res.fingerprints).value, factors, newNonce,
                             Drop(stream, 32));
      ClientChoice(msgID, None, factors, newNonce, Drop(stream, 32),
                   if sealed.Some? then Some(sealed.value.0) else None, None, [], false)
  }

  /** The stream left after the inner data was sealed. */
  ghost function AfterSeal(su: Setup, cc: ClientConfig, nonce: seq<Byte>, frame: seq<Byte>, factorRandom: seq<nat>,
                           stream: seq<Byte>): seq<Byte>
  {
    if ReadResPQ(frame).Bad? || SelectKey(su, cc.keys, ReadResPQ(frame).v.fingerprints).None? then stream
    else
      var res := ReadResPQ(frame).v;
      var factors := Factorize.SplitOf(FromBE(res.pq), factorRandom);
      var sealed := SealFrom(su, cc, nonce, res, SelectKey(su, cc.keys, res.fingerprints).value, factors,
                             Draw(stream, 32), Drop(stream, 32));
      if sealed.Some? then sealed.value.1 else []
  }

  lemma ResPQChoiceFits(su: Setup, cc: ClientConfig, nonce: seq<Byte>, frame: seq<Byte>, factorRandom: seq<nat>,
                        msgID: int, stream: seq<Byte>)
    requires ValidClient(su, cc) && InRange(8, msgID) && FromClient(msgID)
    ensures var ch := ResPQChoice(su, cc, nonce, frame, factorRandom, msgID, stream);
            ClientChoiceOk(ch) && ResPQChoiceOk(su, cc, nonce, frame, ch)
  {
    if ReadResPQ(frame).Got? && SelectKey(su, cc.keys, ReadResPQ(frame).v.fingerprints).Some? {
      var res := ReadResPQ(frame).v;
      var key := SelectKey(su, cc.keys, res.fingerprints).value;
      var factors := Factorize.SplitOf(FromBE(res.pq), factorRandom);
      Factorize.SplitOfExact(FromBE(res.pq), factorRandom);
      if factors.Split? && |stream| >= 32 {
        RsaPad.SealOfExact(su.c, InnerData(cc, res.pq, Bytes(factors.p), Bytes(factors.q), nonce, res.serverNonce,
                                           stream[..32]),
                           key, Drop(stream, 32));
      }
    }
  }

  /** Answering res_pq: key selection, proof of work, new nonce and RSA_PAD, in that order. */
  method HandleResPQ(su: Setup, cc: ClientConfig, nonce: seq<Byte>, frame: seq<Byte>, random: RandomSource,
                     factorRandom: seq<nat>, msgID: int)
    returns (m: ClientMove)
    requires ValidClient(su, cc)
    modifies random
    ensures m == ClientOnResPQ(su, cc, nonce, frame,
                               ResPQChoice(su, cc, nonce, frame, factorRandom, msgID, old(random.data)))
    ensures m.state.CWaitDH? ==> random.data == AfterSeal(su, cc, nonce, frame, factorRandom, old(random.data))
  {
    var res := ReadResPQ(frame);
    if res.Bad? { return Stop(res.why); }
    if res.v.nonce != nonce { return Stop(NonceMismatch); }
    var key := SelectKey(su, cc.keys, res.v.fingerprints);
    if key.None? { return Stop(UnknownKey); }
    var pq := FromBE(res.v.pq);
    if pq > PQ_MAX { return Stop(BadPq); }
    var factors := Factorize.DecomposePQ(pq, factorRandom);
    if factors.DividesByZero? { return Stop(DividesByZero); }
    if factors.OutOfNumbers? { return Stop(NoFactors); }
    var newNonce := random.ReadFull(32);
    if newNonce.None? { return Stop(NoRandom); }
    var p, q := Bytes(factors.p), Bytes(factors.q);
    var inner := InnerData(cc, res.v.pq, p, q, nonce, res.v.serverNonce, newNonce.value);
    var sealed := RsaPad.Seal(su.c, inner, key.value, random);
    if sealed.None? { return Stop(NoRandom); }
    m := ClientMove(CWaitDH(nonce, res.v.serverNonce, newNonce.value),
                    [Post(msgID, REQ_DH, [VRaw(nonce), VRaw(res.v.serverNonce), VBytes(p), VBytes(q),
                                          VLong(su.fingerprint(key.value)), VBytes(sealed.value)])]);
  }

  /**
    A server that announces pq = 0 or 1 under a known key makes the client divide by zero, as soon as the
    factorisation has drawn the number it reduces; nothing else does.
   */
  lemma ZeroDivisionExact(su: Setup, cc: ClientConfig, nonce: seq<Byte>, frame: seq<Byte>, factorRandom: seq<nat>,
                          msgID: int, stream: seq<Byte>)
    ensures ClientOnResPQ(su, cc, nonce, frame, ResPQChoice(su, cc, nonce, frame, factorRandom, msgID, stream)).state ==
            CFailed(DividesByZero) <==>
            var res := ReadResPQ(frame);
            && res.Got? && res.v.nonce == nonce && SelectKey(su, cc.keys, res.v.fingerprints).Some?
            && FromBE(res.v.pq) < 2 && |factorRandom| > FromBE(res.v.pq)
  {
    var res := ReadResPQ(frame);
    if res.Got? { Factorize.SplitOfExact(FromBE(res.v.pq), factorRandom); }
  }

  /** Reads the server's group out of its encrypted answer. */
  method ReadGroup(su: Setup, nonce: seq<Byte>, serverNonce: seq<Byte>, newNonce: seq<Byte>, frame: seq<Byte>)
    returns (r: Got<Group>)
    requires Lawful(su.c)
    ensures r == ReadServerDH(su, nonce, serverNonce, newNonce, frame)
  {
    var data := ReadAnyData(frame);
    if data.Bad? { return Bad(data.why); }
    var id := PeekId(data.v);
    if id == Some(DH_FAIL.id) { return if Parse(DH_FAIL, data.v).Got? then Bad(Refused) else Bad(BadMessage); }
    if id != Some(DH_OK.id) { return Bad(BadMessage); }
    var vs := Parse(DH_OK, data.v);
    if vs.Bad? { return Bad(vs.why); }
    if vs.v[0].b != nonce || vs.v[1].b != serverNonce { return Bad(NonceMismatch); }
    var answer := DecryptAnswer(su, newNonce, serverNonce, vs.v[2].b);
    if answer.Bad? { return Bad(answer.why); }
    return InnerGroup(nonce, serverNonce, answer.v);
  }

  /** The choice of the second answer: the secret exponent, then the padding of the encrypted public value. */
  function GroupChoice(msgID: int, stream: seq<Byte>): ClientChoice
  {
    var b := Draw(stream, AUTH_KEY);
    NoChoice(msgID).(b := if b.Some? then Some(FromBE(b.value)) else None, padding := Drop(stream, AUTH_KEY))
  }

  /** The stream left after the public value was encrypted. */
  ghost function AfterGroup(su: Setup, nonce: seq<Byte>, serverNonce: seq<Byte>, newNonce: seq<Byte>, frame: seq<Byte>,
                            stream: seq<Byte>): seq<Byte>
    requires Lawful(su.c)
  {
    var group := ReadServerDH(su, nonce, serverNonce, newNonce, frame);
    if group.Bad? || group.v.g < 0 || group.v.p == 0 || |stream| < AUTH_KEY then stream
    else
      var gB := ModExp(group.v.g, FromBE(stream[..AUTH_KEY]), group.v.p);
      Drop(Drop(stream, AUTH_KEY), HashedAnswer.PadLen(|PublicMessage(nonce, serverNonce, gB)|))
  }

  /** Answering server_DH_params: group check, secret exponent, range checks and the encrypted public value. */
  method HandleServerDH(su: Setup, nonce: seq<Byte>, serverNonce: seq<Byte>, newNonce: seq<Byte>, frame: seq<Byte>,
                        random: RandomSource, msgID: int)
    returns (m: ClientMove)
    requires Lawful(su.c)
    modifies random
    ensures m == ClientOnServerDH(su, nonce, serverNonce, newNonce, frame, GroupChoice(msgID, old(random.data)))
    ensures m.state.CWaitGen? ==> random.data == AfterGroup(su, nonce, serverNonce, newNonce, frame, old(random.data))
  {
    var group := ReadGroup(su, nonce, serverNonce, newNonce, frame);
    if group.Bad? { return Stop(group.why); }
    m := AnswerGroup(su, nonce, serverNonce, newNonce, group.v, random, msgID);
  }

  method AnswerGroup(su: Setup, nonce: seq<Byte>, serverNonce: seq<Byte>, newNonce: seq<Byte>, group: Group,
                     random: RandomSource, msgID: int)
    returns (m: ClientMove)
    requires Lawful(su.c)
    modifies random
    ensures m == ClientOnGroup(su, nonce, serverNonce, newNonce, Got(group), GroupChoice(msgID, old(random.data)))
    ensures m.state.CWaitGen? ==>
      && group.g >= 0 && group.p != 0 && |old(random.data)| >= AUTH_KEY
      && var gB := ModExp(group.g, FromBE(old(random.data)[..AUTH_KEY]), group.p);
         random.data == Drop(Drop(old(random.data), AUTH_KEY),
                             HashedAnswer.PadLen(|PublicMessage(nonce, serverNonce, gB)|))
  {
    var g, p, gA := group.g, group.p, group.gA;
    if !DHCache.Accepts(su.prime, g, p) || g < 0 || p == 0 { return Stop(BadGroup); }
    var b := random.ReadFull(AUTH_KEY);
    if b.None? { return Stop(NoRandom); }
    var gB := ModExp(g, FromBE(b.value), p);
    if !CheckRange(p, g, gA, gB) { return Stop(BadRange); }
    var inner := EncMsg(CLIENT_INNER, [VRaw(nonce), VRaw(serverNonce), VLong(0), VBytes(Bytes(gB))]);
    var keys := AnswerKeys(su, newNonce, serverNonce);
    var enc := HashedAnswer.EncryptAnswer(su.c, random, inner, keys.0, keys.1);
    if enc.None? { return Stop(NoRandom); }
    m := ClientMove(CWaitGen(nonce, serverNonce, newNonce, gA, FromBE(b.value), p),
                    [Post(msgID, SET_DH, [VRaw(nonce), VRaw(serverNonce), VBytes(enc.value)])]);
  }

  /** The choice of the last step: whether a session identifier could be drawn. */
  function SessionChoice(msgID: int, stream: seq<Byte>): ClientChoice
  {
    NoChoice(msgID).(session := |stream| >= 8)
  }

  /** Checking the server's last answer: the key, its hash as the server must have computed it, then a session. */
  method HandleGen(su: Setup, s: ClientState, frame: seq<Byte>, random: RandomSource, msgID: int)
    returns (m: ClientMove)
    requires Lawful(su.c) && s.CWaitGen? && ClientSized(s)
    modifies random
    ensures m == ClientOnGen(su, s, frame, SessionChoice(msgID, old(random.data)))
  {
    var data := ReadAnyData(frame);
    if data.Bad? { return Stop(data.why); }
    var id := PeekId(data.v);
    if id == Some(GEN_RETRY.id) { return Stop(if Parse(GEN_RETRY, data.v).Got? then Refused else BadMessage); }
    if id == Some(GEN_FAIL.id) { return Stop(if Parse(GEN_FAIL, data.v).Got? then Refused else BadMessage); }
    if id != Some(GEN_OK.id) { return Stop(BadMessage); }
    var vs := Parse(GEN_OK, data.v);
    if vs.Bad? { return Stop(vs.why); }
    if vs.v[0].b != s.nonce || vs.v[1].b != s.serverNonce { return Stop(NonceMismatch); }
    var key := BE(AUTH_KEY, ModExp(s.gA, s.b, s.p));
    if HashedAnswer.NonceHash1(su.c, s.newNonce, key) != vs.v[2].b { return Stop(HashMismatch); }
    var session := random.ReadFull(8);
    if session.None? { return Stop(NoRandom); }
    m := ClientMove(CDone(key, HashedAnswer.KeyId(su.c, key), HashedAnswer.ServerSalt(s.newNonce, s.serverNonce)), []);
  }

  /** What the client chooses in a step when its random source still delivers `stream`. */
  ghost function ChoiceFrom(su: Setup, cc: ClientConfig, s: ClientState, frame: seq<Byte>, factorRandom: seq<nat>,
                            msgID: int, stream: seq<Byte>)
    : ClientChoice
  {
    match s
    case CWaitPQ(n) => ResPQChoice(su, cc, n, frame, factorRandom, msgID, stream)
    case CWaitDH(_, _, _) => GroupChoice(msgID, stream)
    case _ => SessionChoice(msgID, stream)
  }

  /** What the source still delivers when the step leaves the client waiting again. */
  ghost function StreamAfter(su: Setup, cc: ClientConfig, s: ClientState, frame: seq<Byte>, factorRandom: seq<nat>,
                             stream: seq<Byte>): seq<Byte>
    requires Lawful(su.c)
  {
    match s
    case CWaitPQ(n) => AfterSeal(su, cc, n, frame, factorRandom, stream)
    case CWaitDH(n, sn, nn) => AfterGroup(su, n, sn, nn, frame, stream)
    case _ => stream
  }

  lemma ChoiceFits(su: Setup, cc: ClientConfig, s: ClientState, frame: seq<Byte>, factorRandom: seq<nat>, msgID: int,
                   stream: seq<Byte>)
    requires ValidClient(su, cc) && InRange(8, msgID) && FromClient(msgID)
    ensures var ch := ChoiceFrom(su, cc, s, frame, factorRandom, msgID, stream);
            ClientChoiceOk(ch) && (s.CWaitPQ? ==> ResPQChoiceOk(su, cc, s.nonce, frame, ch))
  {
    if s.CWaitPQ? { ResPQChoiceFits(su, cc, s.nonce, frame, factorRandom, msgID, stream); }
  }

  /** One receive of the client, dispatched on what it is waiting for. */
  method ClientHandle(su: Setup, cc: ClientConfig, s: ClientState, frame: seq<Byte>, random: RandomSource,
                      factorRandom: seq<nat>, msgID: int)
    returns (m: ClientMove)
    requires ValidClient(su, cc) && ClientWaits(s) && ClientSized(s) && InRange(8, msgID) && FromClient(msgID)
    modifies random
    ensures ClientStep(su, cc, s, frame, ChoiceFrom(su, cc, s, frame, factorRandom, msgID, old(random.data)), m)
    ensures ClientWaits(m.state) ==> random.data == StreamAfter(su, cc, s, frame, factorRandom, old(random.data))
  {
    ghost var stream := random.data;
    ChoiceFits(su, cc, s, frame, factorRandom, msgID, stream);
    match s {
      case CWaitPQ(n) =>
        m := HandleResPQ(su, cc, n, frame, random, factorRandom, msgID);
        ResPQFacts(su, cc, n, frame, ResPQChoice(su, cc, n, frame, factorRandom, msgID, stream));
      case CWaitDH(n, sn, nn) =>
        m := HandleServerDH(su, n, sn, nn, frame, random, msgID);
        GroupFacts(su, n, sn, nn, ReadServerDH(su, n, sn, nn, frame), GroupChoice(msgID, stream));
      case CWaitGen(_, _, _, _, _, _) => m := HandleGen(su, s, frame, random, msgID);
    }
  }

  lemma ResPQFacts(su: Setup, cc: ClientConfig, n: seq<Byte>, frame: seq<Byte>, ch: ClientChoice)
    requires |n| == 16 && ClientChoiceOk(ch)
    ensures var m := ClientOnResPQ(su, cc, n, frame, ch);
            ClientSized(m.state) && (m.state.CWaitDH? || m.state.CFailed?) && |m.out| == if m.state.CWaitDH? then 1
            else 0
  {
  }

  lemma GroupFacts(su: Setup, n: seq<Byte>, sn: seq<Byte>, nn: seq<Byte>, read: Got<Group>, ch: ClientChoice)
    requires Lawful(su.c) && |n| == 16 && |sn| == 16 && |nn| == 32
    ensures var m := ClientOnGroup(su, n, sn, nn, read, ch);
            ClientSized(m.state) && (m.state.CWaitGen? || m.state.CFailed?) && |m.out| == if m.state.CWaitGen? then 1
            else 0
  {
  }

  lemma ClientStepFacts(su: Setup, cc: ClientConfig, s: ClientState, frame: seq<Byte>, ch: ClientChoice, m: ClientMove)
    requires Lawful(su.c) && ClientStep(su, cc, s, frame, ch, m)
    ensures ClientSized(m.state) && |m.out| == if ClientWaits(m.state) then 1 else 0
    ensures ClientWaits(m.state) ==> Rank(m.state) < Rank(s)
  {
    match s {
      case CWaitPQ(n) => ResPQFacts(su, cc, n, frame, ch);
      case CWaitDH(n, sn, nn) => GroupFacts(su, n, sn, nn, ReadServerDH(su, n, sn, nn, frame), ch);
      case _ =>
    }
  }

  function Rank(s: ClientState): nat
  {
    match s
    case CWaitPQ(_) => 3
    case CWaitDH(_, _, _) => 2
    case CWaitGen(_, _, _, _, _, _) => 1
    case _ => 0
  }

  /** One received frame, handled and answered with the choice `ch`. */
  datatype Turn = Turn(ch: ClientChoice, m: ClientMove)

  function Before(start: ClientState, turns: seq<Turn>, i: nat): ClientState
    requires i <= |turns|
  {
    if i == 0 then start else turns[i - 1].m.state
  }

  /** What the random source still delivers before the `i`-th turn; the first nonce was drawn before all of them. */
  ghost function StreamBefore(su: Setup, cc: ClientConfig, x: ClientInputs, start: ClientState, frames: seq<seq<Byte>>,
                              turns: seq<Turn>, i: nat): seq<Byte>
    requires Lawful(su.c) && i <= |turns| <= |frames|
  {
    if i == 0 then Drop(x.stream, 16)
    else StreamAfter(su, cc, Before(start, turns, i - 1), frames[i - 1], x.factorRandom,
                     StreamBefore(su, cc, x, start, frames, turns, i - 1))
  }

  /** The choice the inputs make in turn `i`; identifier 0 was used for the first request. */
  ghost function ChoiceAt(su: Setup, cc: ClientConfig, x: ClientInputs, start: ClientState, frames: seq<seq<Byte>>,
                          turns: seq<Turn>, i: nat): ClientChoice
    requires Lawful(su.c) && i <= |turns| <= |frames| && i < |frames|
  {
    ChoiceFrom(su, cc, Before(start, turns, i), frames[i], x.factorRandom, x.ids(i + 1),
               StreamBefore(su, cc, x, start, frames, turns, i))
  }

  ghost predicate TurnAt(su: Setup, cc: ClientConfig, x: ClientInputs, start: ClientState, frames: seq<seq<Byte>>,
                         turns: seq<Turn>, i: int)
    requires Lawful(su.c) && |turns| <= |frames|
  {
    0 <= i < |turns| ==>
      && turns[i].ch == ChoiceAt(su, cc, x, start, frames, turns, i)
      && ClientStep(su, cc, Before(start, turns, i), frames[i], turns[i].ch, turns[i].m)
  }

  /** Every turn follows the client's steps on the next frame, with the choice its inputs make. */
  ghost predicate ClientTrace(su: Setup, cc: ClientConfig, x: ClientInputs, start: ClientState, frames: seq<seq<Byte>>,
                              turns: seq<Turn>)
    requires Lawful(su.c)
  {
    |turns| <= |frames| && forall i {:trigger TurnAt(su, cc, x, start, frames, turns, i)} ::
      TurnAt(su, cc, x, start, frames, turns, i)
  }

  /** The first choice: the identifier of the first request and its nonce. */
  function StartChoice(x: ClientInputs): (ch: ClientChoice)
    ensures InRange(8, x.ids(0)) && FromClient(x.ids(0)) ==> ClientChoiceOk(ch)
  {
    NoChoice(x.ids(0)).(nonce := Draw(x.stream, 16))
  }

  function Sent(turns: seq<Turn>): seq<seq<Byte>>
  {
    if turns == [] then [] else Sent(turns[..|turns| - 1]) + turns[|turns| - 1].m.out
  }

  lemma {:induction false} TurnsGrow(su: Setup, cc: ClientConfig, x: ClientInputs, start: ClientState,
                                     frames: seq<seq<Byte>>, turns: seq<Turn>, turn: Turn)
    requires Lawful(su.c) && ClientTrace(su, cc, x, start, frames, turns) && |turns| < |frames|
    requires turn.ch == ChoiceAt(su, cc, x, start, frames, turns, |turns|)
    requires ClientStep(su, cc, Before(start, turns, |turns|), frames[|turns|], turn.ch, turn.m)
    ensures ClientTrace(su, cc, x, start, frames, turns + [turn]) && Sent(turns + [turn]) == Sent(turns) + turn.m.out
  {
    forall i ensures TurnAt(su, cc, x, start, frames, turns + [turn], i) {
      assert TurnAt(su, cc, x, start, frames, turns, i);
      EarlierTurn(start, turns, turn, i);
      if 0 <= i <= |turns| { EarlierStream(su, cc, x, start, frames, turns, turn, i); }
    }
    assert (turns + [turn])[..|turns|] == turns;
  }

  lemma {:induction false} EarlierTurn(start: ClientState, turns: seq<Turn>, turn: Turn, i: int)
    ensures 0 <= i < |turns| ==>
              Before(start, turns + [turn], i) == Before(start, turns, i) && (turns + [turn])[i] == turns[i]
    ensures Before(start, turns + [turn], |turns|) == Before(start, turns, |turns|) && (turns + [turn])[|turns|] == turn
  {
  }

  lemma {:induction false} EarlierStream(su: Setup, cc: ClientConfig, x: ClientInputs, start: ClientState,
                                         frames: seq<seq<Byte>>, turns: seq<Turn>, turn: Turn, i: nat)
    requires Lawful(su.c) && i <= |turns| < |frames|
    ensures StreamBefore(su, cc, x, start, frames, turns + [turn], i) ==
            StreamBefore(su, cc, x, start, frames, turns, i)
  {
    if i > 0 {
      EarlierStream(su, cc, x, start, frames, turns, turn, i - 1);
      EarlierTurn(start, turns, turn, i - 1);
    }
  }

  // ---------------------------------------------------------------- the program

  /** A program that took `turns`, is in state `s` and has `stream` left, on a channel that was opened with `frames`. */
  ghost predicate Following(su: Setup, cc: ClientConfig, x: ClientInputs, start: ClientState, frames: seq<seq<Byte>>,
                            sent: seq<seq<Byte>>,
                            turns: seq<Turn>, s: ClientState, stream: seq<Byte>, incoming: seq<seq<Byte>>,
                            outgoing: seq<seq<Byte>>)
    requires Lawful(su.c)
  {
    && ClientTrace(su, cc, x, start, frames, turns) && s == Before(start, turns, |turns|) && ClientSized(s)
    && (ClientWaits(s) ==> stream == StreamBefore(su, cc, x, start, frames, turns, |turns|))
    && outgoing == sent + Sent(turns) && incoming == frames[|turns|..]
  }

  lemma {:induction false} FollowOn(su: Setup, cc: ClientConfig, x: ClientInputs, start: ClientState,
                                    frames: seq<seq<Byte>>, sent: seq<seq<Byte>>,
                                    before: seq<Turn>, s: ClientState, stream: seq<Byte>, incoming: seq<seq<Byte>>,
                                    outgoing: seq<seq<Byte>>,
                                    turn: Turn, left: seq<Byte>)
    requires Lawful(su.c) && Following(su, cc, x, start, frames, sent, before, s, stream, incoming, outgoing)
    requires ClientWaits(s) && incoming != [] && ClientSized(turn.m.state)
    requires turn.ch == ChoiceFrom(su, cc, s, incoming[0], x.factorRandom, x.ids(|before| + 1), stream)
    requires ClientStep(su, cc, s, incoming[0], turn.ch, turn.m)
    requires ClientWaits(turn.m.state) ==> left == StreamAfter(su, cc, s, incoming[0], x.factorRandom, stream)
    ensures Following(su, cc, x, start, frames, sent, before + [turn], turn.m.state, left, incoming[1..],
                      outgoing + turn.m.out)
  {
    assert incoming[0] == frames[|before|];
    TurnsGrow(su, cc, x, start, frames, before, turn);
    StreamGrows(su, cc, x, start, frames, before, turn);
    FollowFacts(start, frames, sent, before, turn, incoming, outgoing);
  }

  lemma {:induction false} FollowFacts(start: ClientState, frames: seq<seq<Byte>>, sent: seq<seq<Byte>>,
                                       before: seq<Turn>, turn: Turn,
                                       incoming: seq<seq<Byte>>, outgoing: seq<seq<Byte>>)
    requires |before| < |frames| && incoming == frames[|before|..] && outgoing == sent + Sent(before)
    ensures Before(start, before + [turn], |before| + 1) == turn.m.state
    ensures incoming[1..] == frames[|before| + 1..] && outgoing + turn.m.out == sent + Sent(before + [turn])
  {
    assert (before + [turn])[..|before|] == before;
  }

  /** What the source still delivers after one more turn. */
  lemma {:induction false} StreamGrows(su: Setup, cc: ClientConfig, x: ClientInputs, start: ClientState,
                                       frames: seq<seq<Byte>>, turns: seq<Turn>, turn: Turn)
    requires Lawful(su.c) && |turns| < |frames|
    ensures StreamBefore(su, cc, x, start, frames, turns + [turn], |turns| + 1) ==
            StreamAfter(su, cc, Before(start, turns, |turns|), frames[|turns|], x.factorRandom,
                        StreamBefore(su, cc, x, start, frames, turns, |turns|))
  {
    EarlierTurn(start, turns, turn, |turns|);
    EarlierStream(su, cc, x, start, frames, turns, turn, |turns|);
  }

  /** Receives one frame, handles it and sends the answer, if there is one. */
  method ClientOne(su: Setup, cc: ClientConfig, s: ClientState, conn: Conn, random: RandomSource,
                   factorRandom: seq<nat>, msgID: int)
    returns (m: Option<ClientMove>)
    requires ValidClient(su, cc) && ClientWaits(s) && ClientSized(s) && InRange(8, msgID) && FromClient(msgID)
    modifies conn, random
    ensures m.None? ==>
      old(conn.incoming) == [] && conn.incoming == [] && conn.outgoing == old(conn.outgoing) &&
      random.data == old(random.data)
    ensures m.Some? ==>
      && old(conn.incoming) != [] && ClientSized(m.value.state) &&
         (ClientWaits(m.value.state) ==> Rank(m.value.state) < Rank(s))
      && var frame := old(conn.incoming)[0];
      && ClientStep(su, cc, s, frame, ChoiceFrom(su, cc, s, frame, factorRandom, msgID, old(random.data)), m.value)
      && (ClientWaits(m.value.state) ==> random.data == StreamAfter(su, cc, s, frame, factorRandom, old(random.data)))
      && conn.incoming == old(conn.incoming)[1..] && conn.outgoing == old(conn.outgoing) + m.value.out
  {
    ghost var stream := random.data;
    var frame := conn.Recv();
    if frame.None? { return None; }
    var move := ClientHandle(su, cc, s, frame.value, random, factorRandom, msgID);
    ClientStepFacts(su, cc, s, frame.value, ChoiceFrom(su, cc, s, frame.value, factorRandom, msgID, stream), move);
    if move.out != [] {
      conn.Send(move.out[0]);
      assert move.out == [move.out[0]];
    }
    m := Some(move);
  }

  /** `ClientExchange.Run`: the first request, then one turn per received frame until done, failed or cut off. */
  method ClientRun(su: Setup, cc: ClientConfig, conn: Conn, random: RandomSource, factorRandom: seq<nat>,
                   ids: nat -> int)
    returns (s: ClientState, ghost turns: seq<Turn>)
    requires ValidClient(su, cc) && forall k: nat :: InRange(8, ids(k)) && FromClient(ids(k))
    modifies conn, random
    ensures var x := ClientInputs(old(random.data), factorRandom, ids);
            var start := ClientStart(StartChoice(x));
            && ClientTrace(su, cc, x, start.state, old(conn.incoming), turns) &&
               s == Before(start.state, turns, |turns|)
            && conn.outgoing == old(conn.outgoing) + start.out + Sent(turns)
    ensures ClientWaits(s) ==> conn.incoming == [] && |turns| == |old(conn.incoming)|
  {
    ghost var x := ClientInputs(random.data, factorRandom, ids);
    turns := [];
    var nonce := random.ReadFull(16);
    s := CFailed(NoRandom);
    if nonce.None? { return; }
    conn.Send(Post(ids(0), REQ_PQ_MULTI, [VRaw(nonce.value)]));
    s, turns := ClientTurns(su, cc, CWaitPQ(nonce.value), conn, random, factorRandom, ids, x);
  }

  method ClientTurns(su: Setup, cc: ClientConfig, start: ClientState, conn: Conn, random: RandomSource,
                     factorRandom: seq<nat>, ids: nat -> int,
                     ghost x: ClientInputs)
    returns (s: ClientState, ghost turns: seq<Turn>)
    requires ValidClient(su, cc) && ClientSized(start) && InputsOk(x) && x.factorRandom == factorRandom && x.ids == ids
    requires random.data == Drop(x.stream, 16)
    modifies conn, random
    ensures Following(su, cc, x, start, old(conn.incoming), old(conn.outgoing), turns, s, random.data, conn.incoming,
                      conn.outgoing)
    ensures ClientWaits(s) ==> conn.incoming == []
  {
    s, turns := start, [];
    ghost var frames, sent := conn.incoming, conn.outgoing;
    var k: nat := 0;
    while ClientWaits(s)
      invariant k == |turns| &&
                Following(su, cc, x, start, frames, sent, turns, s, random.data, conn.incoming, conn.outgoing)
      decreases Rank(s)
    {
      var m;
      m, turns := ClientTurn(su, cc, start, s, conn, random, factorRandom, ids(k + 1), k, x, frames, sent, turns);
      if m.None? { return; }
      s, k := m.value, k + 1;
    }
  }

  /** One more turn of a run that has followed the client's steps so far. */
  method ClientTurn(su: Setup, cc: ClientConfig, ghost start: ClientState, s: ClientState, conn: Conn,
                    random: RandomSource, factorRandom: seq<nat>, msgID: int,
                    ghost k: nat, ghost x: ClientInputs, ghost frames: seq<seq<Byte>>, ghost sent: seq<seq<Byte>>,
                    ghost before: seq<Turn>)
    returns (s': Option<ClientState>, ghost turns: seq<Turn>)
    requires ValidClient(su, cc) && ClientWaits(s) && InputsOk(x) && x.factorRandom == factorRandom && k == |before| &&
             msgID == x.ids(k + 1)
    requires Following(su, cc, x, start, frames, sent, before, s, random.data, conn.incoming, conn.outgoing)
    modifies conn, random
    ensures s'.None? ==>
      && turns == before && conn.incoming == []
      && Following(su, cc, x, start, frames, sent, turns, s, random.data, conn.incoming, conn.outgoing)
    ensures s'.Some? ==>
      && |turns| == k + 1 && (ClientWaits(s'.value) ==> Rank(s'.value) < Rank(s))
      && Following(su, cc, x, start, frames, sent, turns, s'.value, random.data, conn.incoming, conn.outgoing)
  {
    turns := before;
    ghost var stream, incoming, outgoing := random.data, conn.incoming, conn.outgoing;
    var m := ClientOne(su, cc, s, conn, random, factorRandom, msgID);
    if m.None? { return None, turns; }
    ghost var turn := Turn(ChoiceFrom(su, cc, s, incoming[0], factorRandom, msgID, stream), m.value);
    FollowOn(su, cc, x, start, frames, sent, before, s, stream, incoming, outgoing, turn, random.data);
    turns := before + [turn];
    return Some(m.value.state), turns;
  }
}

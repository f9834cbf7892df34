/**
  `ServerExchange.Run` as a sequential program over a connection: it draws its nonce and the
  answer's padding from a random source, takes pq, the prime and its exponent from the number
  generator it was given, opens the sealed data and encrypts its answer, and is proved to follow
  the server steps for those values.
 */
module ExchangeFlows {
  import opened Bin
  import opened BigEndian
  import opened Crypto
  import opened ExchangeWire
  import opened Exchange
  import opened ExchangeRuns
  import HashedAnswer
  import RsaPad

  /** One end of the channel: frames still to be received and frames sent so far. */
  class Conn {
    var incoming: seq<seq<Byte>>
    var outgoing: seq<seq<Byte>>

    constructor (frames: seq<seq<Byte>>)
      ensures incoming == frames && outgoing == []
    {
      incoming, outgoing := frames, [];
    }

    method Recv() returns (r: Option<seq<Byte>>)
      modifies this
      ensures outgoing == old(outgoing)
      ensures r.Some? <==> old(incoming) != []
      ensures r.Some? ==> r.value == old(incoming)[0] && incoming == old(incoming)[1..]
      ensures r.None? ==> incoming == old(incoming)
    {
      if incoming == [] { return None; }
      r := Some(incoming[0]);
      incoming := incoming[1..];
    }

    method Send(frame: seq<Byte>)
      modifies this
      ensures outgoing == old(outgoing) + [frame] && incoming == old(incoming)
    {
      outgoing := outgoing + [frame];
    }
  }

  // ---------------------------------------------------------------- the server, frame by frame

  /** What the `ServerRNG` of a server returns when asked: an error is `None`. */
  datatype Numbers = Numbers(pq: Option<nat>, prime: Option<nat>, exponent: Option<nat>)

  /** Numbers fit a TL message. */
  predicate NumbersOk(n: Numbers)
  {
    && (n.pq.Some? ==> ByteLen(n.pq.value) <= LONGEST)
    && (n.prime.Some? ==> n.prime.value > 0 && ByteLen(n.prime.value) <= LONGEST)
  }

  /** Message identifiers and times of successive answers. */
  datatype Clock = Clock(ids: nat -> int, times: nat -> int)

  ghost predicate ClockOk(clock: Clock)
  {
    forall k: nat :: InRange(8, clock.ids(k)) && ServerResponse(clock.ids(k)) && InRange(4, clock.times(k))
  }

  /** Everything a server program gets besides frames: its generator's numbers, its clock and its random stream. */
  datatype Inputs = Inputs(numbers: Numbers, clock: Clock, stream: seq<Byte>)

  ghost predicate InputsOk(x: Inputs)
  {
    NumbersOk(x.numbers) && ClockOk(x.clock)
  }

  predicate Stamped(msgID: int, time: int)
  {
    InRange(8, msgID) && ServerResponse(msgID) && InRange(4, time)
  }

  /** What the server chooses in a step when its random source still delivers `stream`. */
  function ChoiceFrom(numbers: Numbers, msgID: int, time: int, stream: seq<Byte>): (ch: ServerChoice)
    ensures Stamped(msgID, time) && NumbersOk(numbers) ==> ServerChoiceOk(ch)
  {
    ServerChoice(msgID, Draw(stream, 16), numbers.pq, numbers.prime, numbers.exponent, time, stream)
  }

  /** The random bytes a step has used when it leaves the server waiting again. */
  function Used(s: ServerState, s': ServerState, time: int): nat
  {
    if s.SWaitReq? && s'.SWaitDH? then 16
    else if s.SWaitDH? && s'.SWaitClient? && s'.p > 0 then
      HashedAnswer.PadLen(|GroupMessage(s.nonce, s.serverNonce, s'.p, ModExp(GENERATOR, s'.a, s'.p), time)|)
    else 0
  }

  ghost predicate ServerStep(su: Setup, sc: ServerConfig, s: ServerState, frame: seq<Byte>, ch: ServerChoice,
                             m: ServerMove)
    requires Lawful(su.c) && sc.priv.n > 0
  {
    ServerWaits(s) && ServerSized(s) && ServerChoiceOk(ch) && m == ServerOn(su, sc, s, frame, ch)
  }

  lemma ServerStepFacts(su: Setup, sc: ServerConfig, s: ServerState, frame: seq<Byte>, ch: ServerChoice, m: ServerMove)
    requires Lawful(su.c) && sc.priv.n > 0 && ServerStep(su, sc, s, frame, ch, m)
    ensures ServerSized(m.state) && |m.out| == if m.state.SFailed? then 0 else 1
  {
  }

  /** Answering the first req_pq: its nonce, then a nonce and pq of the server's own. */
  method HandleReq(su: Setup, sc: ServerConfig, frame: seq<Byte>, random: RandomSource, numbers: Numbers, msgID: int,
                   time: int)
    returns (m: ServerMove)
    modifies random
    ensures m == ServerOnReq(su, sc, frame, ChoiceFrom(numbers, msgID, time, old(random.data)))
    ensures m.state.SWaitDH? ==> random.data == Drop(old(random.data), 16)
  {
    var data := ReadData(frame, true);
    if data.Bad? { return Abort(data.why); }
    var nonce := ReqPqNonce(data.v);
    if nonce.Bad? { return Abort(nonce.why); }
    var serverNonce := random.ReadFull(16);
    if serverNonce.None? { return Abort(NoRandom); }
    if numbers.pq.None? { return Abort(NoRandom); }
    var pq := Bytes(numbers.pq.value);
    var answer := Post(msgID, RES_PQ,
                       [VRaw(nonce.v), VRaw(serverNonce.value), VBytes(pq), VLongs([su.fingerprint(sc.pub)])]);
    m := ServerMove(SWaitDH(nonce.v, serverNonce.value, numbers.pq.value), [answer]);
  }

  /** Opening the sealed inner data. */
  method ReadSealed(su: Setup, sc: ServerConfig, data: seq<Byte>) returns (r: Got<seq<Byte>>)
    requires Lawful(su.c) && sc.priv.n > 0
    ensures PeekId(data) == Some(REQ_DH.id) ==>
              r == match Parse(REQ_DH, data) case Bad(w) => Bad(w) case Got(vs) => OpenInner(su, sc, vs[5].b)
  {
    var vs := Parse(REQ_DH, data);
    if vs.Bad? { return Bad(vs.why); }
    var plain := RsaPad.DecodePad(su.c, vs.v[5].b, sc.priv);
    if plain.None? { return Bad(BadSeal); }
    return InnerNonce(sc.dc, plain.value);
  }

  /** Answering what follows: another req_pq with the same server nonce and pq, or the sealed data with the group. */
  method HandleSecond(su: Setup, sc: ServerConfig, s: ServerState, frame: seq<Byte>, random: RandomSource,
                      numbers: Numbers, msgID: int, time: int)
    returns (m: ServerMove)
    requires Lawful(su.c) && sc.priv.n > 0 && s.SWaitDH? && ServerSized(s) && Stamped(msgID, time) && NumbersOk(numbers)
    modifies random
    ensures m == ServerOnSecond(su, sc, s, frame, ChoiceFrom(numbers, msgID, time, old(random.data)))
    ensures ServerWaits(m.state) ==> random.data == Drop(old(random.data), Used(s, m.state, time))
  {
    var data := ReadData(frame, true);
    if data.Bad? { return Abort(data.why); }
    var id := PeekId(data.v);
    if id.None? { return Abort(BadMessage); }
    if id != Some(REQ_DH.id) {
      var nonce := ReqPqNonce(data.v);
      if nonce.Bad? { return Abort(nonce.why); }
      var answer := Post(msgID, RES_PQ,
                         [VRaw(nonce.v), VRaw(s.serverNonce), VBytes(Bytes(s.pq)), VLongs([su.fingerprint(sc.pub)])]);
      return ServerMove(SWaitDH(nonce.v, s.serverNonce, s.pq), [answer]);
    }
    var newNonce := ReadSealed(su, sc, data.v);
    if newNonce.Bad? { return Abort(newNonce.why); }
    if numbers.prime.None? || numbers.exponent.None? { return Abort(NoRandom); }
    m := AnswerGroup(su, s, newNonce.v, numbers, random, msgID, time);
  }

  /** The server's half of the key: g^a mod p and the encrypted answer that carries it. */
  method AnswerGroup(su: Setup, s: ServerState, newNonce: seq<Byte>, numbers: Numbers, random: RandomSource, msgID: int,
                     time: int)
    returns (m: ServerMove)
    requires Lawful(su.c) && s.SWaitDH? && NumbersOk(numbers) && numbers.prime.Some? && numbers.exponent.Some?
    modifies random
    ensures m == SendGroup(su, s, newNonce, ChoiceFrom(numbers, msgID, time, old(random.data)))
    ensures ServerWaits(m.state) ==> random.data == Drop(old(random.data), Used(s, m.state, time))
  {
    var p, a := numbers.prime.value, numbers.exponent.value;
    var gA := ModExp(GENERATOR, a, p);
    var inner := EncMsg(SERVER_INNER,
                        [VRaw(s.nonce), VRaw(s.serverNonce), VInt(GENERATOR), VBytes(Bytes(p)), VBytes(Bytes(gA)),
                         VInt(time)]);
    var keys := AnswerKeys(su, newNonce, s.serverNonce);
    var enc := HashedAnswer.EncryptAnswer(su.c, random, inner, keys.0, keys.1);
    if enc.None? { return Abort(NoRandom); }
    m := ServerMove(SWaitClient(s.nonce, s.serverNonce, newNonce, a, p),
                    [Post(msgID, DH_OK, [VRaw(s.nonce), VRaw(s.serverNonce), VBytes(enc.value)])]);
  }

  method DecryptAnswer(su: Setup, newNonce: seq<Byte>, serverNonce: seq<Byte>, enc: seq<Byte>)
    returns (r: Got<seq<Byte>>)
    requires Lawful(su.c)
    ensures r == OpenAnswer(su, newNonce, serverNonce, enc)
  {
    var keys := AnswerKeys(su, newNonce, serverNonce);
    var data := HashedAnswer.DecryptAnswer(su.c, enc, keys.0, keys.1);
    r := if data.None? then Bad(Undecryptable) else Got(data.value);
  }

  /** Answering the client's public value: the key, its hash for the client, and the salt. */
  method HandleClientDH(su: Setup, s: ServerState, frame: seq<Byte>, msgID: int, time: int) returns (m: ServerMove)
    requires Lawful(su.c) && s.SWaitClient? && ServerSized(s)
    ensures m == ServerOnClientDH(su, s, frame, ServerChoice(msgID, None, None, None, None, time, []))
  {
    var data := ReadData(frame, true);
    if data.Bad? { return Abort(data.why); }
    var outer := Parse(SET_DH, data.v);
    if outer.Bad? { return Abort(outer.why); }
    var answer := DecryptAnswer(su, s.newNonce, s.serverNonce, outer.v[2].b);
    if answer.Bad? { return Abort(answer.why); }
    var inner := Parse(CLIENT_INNER, answer.v);
    if inner.Bad? { return Abort(inner.why); }
    var key := FillBytes(AUTH_KEY, ModExp(FromBE(inner.v[3].b), s.a, s.p));
    if key.None? { return Abort(KeyTooBig); }
    var id := HashedAnswer.KeyId(su.c, key.value);
    var hash := HashedAnswer.NonceHash1(su.c, s.newNonce, key.value);
    m := ServerMove(SDone(key.value, id, HashedAnswer.ServerSalt(s.newNonce, s.serverNonce)),
                    [Post(msgID, GEN_OK, [VRaw(s.nonce), VRaw(s.serverNonce), VRaw(hash)])]);
  }

  /** The last step ends the server and depends on no choice but the message identifier. */
  lemma LastStep(su: Setup, s: ServerState, frame: seq<Byte>, ch: ServerChoice, other: ServerChoice)
    requires Lawful(su.c) && s.SWaitClient? && ServerSized(s) && ch.msgID == other.msgID
    ensures ServerOnClientDH(su, s, frame, ch) == ServerOnClientDH(su, s, frame, other)
    ensures !ServerWaits(ServerOnClientDH(su, s, frame, ch).state)
  {
  }

  /** Handling of one frame, as the body of the server's `Run` does it in each waiting state. */
  method ServerHandle(su: Setup, sc: ServerConfig, s: ServerState, frame: seq<Byte>, random: RandomSource,
                      numbers: Numbers, msgID: int, time: int)
    returns (m: ServerMove)
    requires Lawful(su.c) && sc.priv.n > 0 && ServerWaits(s) && ServerSized(s) && Stamped(msgID, time) &&
             NumbersOk(numbers)
    modifies random
    ensures ServerStep(su, sc, s, frame, ChoiceFrom(numbers, msgID, time, old(random.data)), m)
    ensures ServerWaits(m.state) ==> random.data == Drop(old(random.data), Used(s, m.state, time))
  {
    match s {
      case SWaitReq => m := HandleReq(su, sc, frame, random, numbers, msgID, time);
      case SWaitDH(_, _, _) => m := HandleSecond(su, sc, s, frame, random, numbers, msgID, time);
      case SWaitClient(_, _, _, _, _) =>
        m := HandleClientDH(su, s, frame, msgID, time);
        LastStep(su, s, frame, ServerChoice(msgID, None, None, None, None, time, []),
                 ChoiceFrom(numbers, msgID, time, random.data));
    }
  }

  // ---------------------------------------------------------------- traces

  /** One received frame, handled and answered with the choice `ch`. */
  datatype ServerTurn = ServerTurn(ch: ServerChoice, m: ServerMove)

  /** The state before the `i`-th turn. */
  function Before(trace: seq<ServerTurn>, i: nat): ServerState
    requires i <= |trace|
  {
    if i == 0 then SWaitReq else trace[i - 1].m.state
  }

  /** What the random source still delivers before the `i`-th turn. */
  function StreamBefore(x: Inputs, trace: seq<ServerTurn>, i: nat): seq<Byte>
    requires i <= |trace|
  {
    if i == 0 then x.stream
    else Drop(StreamBefore(x, trace, i - 1), Used(Before(trace, i - 1), trace[i - 1].m.state, x.clock.times(i - 1)))
  }

  /** Every turn follows the server's steps on the next frame, with the choice its inputs make. */
  ghost predicate ServerTrace(su: Setup, sc: ServerConfig, x: Inputs, frames: seq<seq<Byte>>, trace: seq<ServerTurn>)
    requires Lawful(su.c) && sc.priv.n > 0
  {
    |trace| <= |frames| && forall i {:trigger MoveAt(su, sc, x, frames, trace, i)} ::
      MoveAt(su, sc, x, frames, trace, i)
  }

  ghost predicate MoveAt(su: Setup, sc: ServerConfig, x: Inputs, frames: seq<seq<Byte>>, trace: seq<ServerTurn>, i: int)
    requires Lawful(su.c) && sc.priv.n > 0 && |trace| <= |frames|
  {
    0 <= i < |trace| ==>
      && trace[i].ch == ChoiceFrom(x.numbers, x.clock.ids(i), x.clock.times(i), StreamBefore(x, trace, i))
      && ServerStep(su, sc, Before(trace, i), frames[i], trace[i].ch, trace[i].m)
  }

  function Sent(trace: seq<ServerTurn>): seq<seq<Byte>>
  {
    if trace == [] then [] else Sent(trace[..|trace| - 1]) + trace[|trace| - 1].m.out
  }

  lemma RepeatStep(su: Setup, sc: ServerConfig, s: ServerState, frame: seq<Byte>, ch: ServerChoice, m: ServerMove)
    requires Lawful(su.c) && sc.priv.n > 0 && ServerStep(su, sc, s, frame, ch, m) && s.SWaitDH?
    requires ReadSecond(frame).Got? && ReadSecond(frame).v.Again?
    ensures m == SendResPQ(su, sc, ReadSecond(frame).v.nonce, s.serverNonce, s.pq, ch.msgID)
  {
  }

  /**
    However often a peer repeats req_pq after the first answer, every further answer repeats
    the server nonce and pq chosen then, and echoes the nonce of the request it answers.
   */
  lemma {:induction false} RepeatsKeepNonceAndPq(su: Setup, sc: ServerConfig, x: Inputs, frames: seq<seq<Byte>>,
                                                 trace: seq<ServerTurn>, i: nat)
    requires Lawful(su.c) && sc.priv.n > 0 && ServerTrace(su, sc, x, frames, trace) && i < |trace|
    requires trace[0].m.state.SWaitDH?
    requires forall j :: 0 < j <= i ==> ReadSecond(frames[j]).Got? && ReadSecond(frames[j]).v.Again?
    ensures trace[i].m.state.SWaitDH?
    ensures trace[i].m.state.serverNonce == trace[0].m.state.serverNonce && trace[i].m.state.pq == trace[0].m.state.pq
    ensures i == 0 || trace[i].m == SendResPQ(su, sc, ReadSecond(frames[i]).v.nonce, trace[0].m.state.serverNonce,
                                              trace[0].m.state.pq, trace[i].ch.msgID)
  {
    if i > 0 {
      RepeatsKeepNonceAndPq(su, sc, x, frames, trace, i - 1);
      assert MoveAt(su, sc, x, frames, trace, i);
      RepeatStep(su, sc, trace[i - 1].m.state, frames[i], trace[i].ch, trace[i].m);
    }
  }

  // ---------------------------------------------------------------- the program

  /** `ServerExchange.Run`: reads until it is done or has failed, or until the peer stops sending. */
  method ServerRun(su: Setup, sc: ServerConfig, conn: Conn, random: RandomSource, numbers: Numbers, clock: Clock)
    returns (s: ServerState, ghost trace: seq<ServerTurn>)
    requires Lawful(su.c) && sc.priv.n > 0 && ClockOk(clock) && NumbersOk(numbers)
    modifies conn, random
    ensures ServerTrace(su, sc, Inputs(numbers, clock, old(random.data)), old(conn.incoming), trace)
    ensures s == Before(trace, |trace|)
    ensures conn.outgoing == old(conn.outgoing) + Sent(trace) && conn.incoming == old(conn.incoming)[|trace|..]
    ensures ServerWaits(s) ==> conn.incoming == []
  {
    s, trace := ServerTurns(su, sc, conn, random, numbers, clock, Inputs(numbers, clock, random.data));
  }

  /** A program that took `trace`, is in state `s` and has `stream` left, on a channel that was opened with `frames`. */
  ghost predicate Following(su: Setup, sc: ServerConfig, x: Inputs, frames: seq<seq<Byte>>, sent: seq<seq<Byte>>,
                            trace: seq<ServerTurn>,
                            s: ServerState, stream: seq<Byte>, incoming: seq<seq<Byte>>, outgoing: seq<seq<Byte>>)
    requires Lawful(su.c) && sc.priv.n > 0
  {
    && ServerTrace(su, sc, x, frames, trace) && s == Before(trace, |trace|) && ServerSized(s)
    && (ServerWaits(s) ==> stream == StreamBefore(x, trace, |trace|))
    && outgoing == sent + Sent(trace) && incoming == frames[|trace|..]
  }

  method ServerTurns(su: Setup, sc: ServerConfig, conn: Conn, random: RandomSource, numbers: Numbers, clock: Clock,
                     ghost x: Inputs)
    returns (s: ServerState, ghost trace: seq<ServerTurn>)
    requires Lawful(su.c) && sc.priv.n > 0 && InputsOk(x) && x.numbers == numbers && x.clock == clock &&
             x.stream == random.data
    modifies conn, random
    ensures Following(su, sc, x, old(conn.incoming), old(conn.outgoing), trace, s, random.data, conn.incoming,
                      conn.outgoing)
    ensures ServerWaits(s) ==> conn.incoming == []
  {
    s, trace := SWaitReq, [];
    ghost var frames, sent := conn.incoming, conn.outgoing;
    var k: nat := 0;
    while ServerWaits(s)
      invariant k == |trace| && Following(su, sc, x, frames, sent, trace, s, random.data, conn.incoming, conn.outgoing)
      decreases ServerWaits(s), |conn.incoming|
    {
      var next;
      next, trace := OneTurn(su, sc, conn, s, random, numbers, clock, k, x, frames, sent, trace);
      if next.None? { return; }
      s, k := next.value, k + 1;
    }
  }

  /** One more turn of a run that has followed the server's steps so far. */
  method OneTurn(su: Setup, sc: ServerConfig, conn: Conn, s: ServerState, random: RandomSource, numbers: Numbers,
                 clock: Clock, k: nat,
                 ghost x: Inputs, ghost frames: seq<seq<Byte>>, ghost sent: seq<seq<Byte>>,
                 ghost before: seq<ServerTurn>)
    returns (s': Option<ServerState>, ghost trace: seq<ServerTurn>)
    requires Lawful(su.c) && sc.priv.n > 0 && ServerWaits(s) && InputsOk(x) && x.numbers == numbers && x.clock == clock
    requires k == |before| && Following(su, sc, x, frames, sent, before, s, random.data, conn.incoming, conn.outgoing)
    modifies conn, random
    ensures s'.None? ==> trace == before && conn.incoming == [] && Following(su, sc, x, frames, sent, trace, s,
                                                                             random.data, [], conn.outgoing)
    ensures s'.Some? ==>
      && |trace| == k + 1 && |conn.incoming| < |old(conn.incoming)|
      && Following(su, sc, x, frames, sent, trace, s'.value, random.data, conn.incoming, conn.outgoing)
  {
    trace := before;
    ghost var stream, incoming, outgoing := random.data, conn.incoming, conn.outgoing;
    var m := ServeOne(su, sc, conn, s, random, numbers, clock.ids(k), clock.times(k));
    if m.None? { return None, trace; }
    FollowOn(su, sc, x, frames, sent, before, s, stream, incoming, outgoing, m.value, random.data);
    trace := before + [ServerTurn(ChoiceFrom(numbers, clock.ids(k), clock.times(k), stream), m.value)];
    return Some(m.value.state), trace;
  }

  lemma {:induction false} FollowOn(su: Setup, sc: ServerConfig, x: Inputs, frames: seq<seq<Byte>>,
                                    sent: seq<seq<Byte>>, before: seq<ServerTurn>,
                                    s: ServerState, stream: seq<Byte>, incoming: seq<seq<Byte>>,
                                    outgoing: seq<seq<Byte>>,
                                    m: ServerMove, left: seq<Byte>)
    requires Lawful(su.c) && sc.priv.n > 0 && Following(su, sc, x, frames, sent, before, s, stream, incoming, outgoing)
    requires ServerWaits(s) && incoming != [] && ServerSized(m.state)
    requires ServerStep(su, sc, s, incoming[0],
                        ChoiceFrom(x.numbers, x.clock.ids(|before|), x.clock.times(|before|), stream), m)
    requires ServerWaits(m.state) ==> left == Drop(stream, Used(s, m.state, x.clock.times(|before|)))
    ensures var turn := ServerTurn(ChoiceFrom(x.numbers, x.clock.ids(|before|), x.clock.times(|before|), stream), m);
            Following(su, sc, x, frames, sent, before + [turn], m.state, left, incoming[1..], outgoing + m.out)
  {
    var turn := ServerTurn(ChoiceFrom(x.numbers, x.clock.ids(|before|), x.clock.times(|before|), stream), m);
    assert incoming[0] == frames[|before|];
    TraceGrows(su, sc, x, frames, before, turn);
    StreamGrows(x, before, turn);
    FollowFacts(frames, sent, before, turn, incoming, outgoing);
  }

  lemma {:induction false} FollowFacts(frames: seq<seq<Byte>>, sent: seq<seq<Byte>>, before: seq<ServerTurn>,
                                       turn: ServerTurn,
                                       incoming: seq<seq<Byte>>, outgoing: seq<seq<Byte>>)
    requires |before| < |frames| && incoming == frames[|before|..] && outgoing == sent + Sent(before)
    ensures Before(before + [turn], |before| + 1) == turn.m.state
    ensures incoming[1..] == frames[|before| + 1..] && outgoing + turn.m.out == sent + Sent(before + [turn])
  {
    assert (before + [turn])[..|before|] == before;
  }

  /** What the source still delivers after one more turn. */
  lemma {:induction false} StreamGrows(x: Inputs, trace: seq<ServerTurn>, turn: ServerTurn)
    ensures StreamBefore(x, trace + [turn], |trace| + 1) ==
            Drop(StreamBefore(x, trace, |trace|), Used(Before(trace, |trace|), turn.m.state, x.clock.times(|trace|)))
  {
    EarlierMove(trace, turn, |trace|);
    EarlierStream(x, trace, turn, |trace|);
  }

  /** Receives one frame, handles it and sends the answer, if there is one. */
  method ServeOne(su: Setup, sc: ServerConfig, conn: Conn, s: ServerState, random: RandomSource, numbers: Numbers,
                  msgID: int, time: int)
    returns (m: Option<ServerMove>)
    requires Lawful(su.c) && sc.priv.n > 0 && ServerWaits(s) && ServerSized(s) && Stamped(msgID, time) &&
             NumbersOk(numbers)
    modifies conn, random
    ensures m.None? ==>
      old(conn.incoming) == [] && conn.incoming == [] && conn.outgoing == old(conn.outgoing) &&
      random.data == old(random.data)
    ensures m.Some? ==>
      && old(conn.incoming) != [] && ServerSized(m.value.state)
      && ServerStep(su, sc, s, old(conn.incoming)[0], ChoiceFrom(numbers, msgID, time, old(random.data)), m.value)
      && (ServerWaits(m.value.state) ==> random.data == Drop(old(random.data), Used(s, m.value.state, time)))
      && conn.incoming == old(conn.incoming)[1..] && conn.outgoing == old(conn.outgoing) + m.value.out
  {
    ghost var stream := random.data;
    var frame := conn.Recv();
    if frame.None? { return None; }
    var move := ServerHandle(su, sc, s, frame.value, random, numbers, msgID, time);
    ServerStepFacts(su, sc, s, frame.value, ChoiceFrom(numbers, msgID, time, stream), move);
    if move.out != [] {
      conn.Send(move.out[0]);
      assert move.out == [move.out[0]];
    }
    m := Some(move);
  }

  lemma {:induction false} TraceGrows(su: Setup, sc: ServerConfig, x: Inputs, frames: seq<seq<Byte>>,
                                      trace: seq<ServerTurn>, turn: ServerTurn)
    requires Lawful(su.c) && sc.priv.n > 0 && ServerTrace(su, sc, x, frames, trace) && |trace| < |frames|
    requires var k := |trace|;
             && turn.ch == ChoiceFrom(x.numbers, x.clock.ids(k), x.clock.times(k), StreamBefore(x, trace, k))
             && ServerStep(su, sc, Before(trace, k), frames[k], turn.ch, turn.m)
    ensures ServerTrace(su, sc, x, frames, trace + [turn]) && Sent(trace + [turn]) == Sent(trace) + turn.m.out
  {
    forall i ensures MoveAt(su, sc, x, frames, trace + [turn], i) {
      assert MoveAt(su, sc, x, frames, trace, i);
      EarlierMove(trace, turn, i);
      if 0 <= i <= |trace| { EarlierStream(x, trace, turn, i); }
    }
    assert (trace + [turn])[..|trace|] == trace;
  }

  lemma {:induction false} EarlierMove(trace: seq<ServerTurn>, turn: ServerTurn, i: int)
    ensures 0 <= i < |trace| ==> Before(trace + [turn], i) == Before(trace, i) && (trace + [turn])[i] == trace[i]
    ensures Before(trace + [turn], |trace|) == Before(trace, |trace|) && (trace + [turn])[|trace|] == turn
  {
  }

  lemma {:induction false} EarlierStream(x: Inputs, trace: seq<ServerTurn>, turn: ServerTurn, i: nat)
    requires i <= |trace|
    ensures StreamBefore(x, trace + [turn], i) == StreamBefore(x, trace, i)
  {
    if i > 0 {
      EarlierStream(x, trace, turn, i - 1);
      EarlierMove(trace, turn, i - 1);
    }
  }
}

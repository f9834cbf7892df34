/**
  What either side has checked when it finishes, whoever the peer is. Nothing is assumed about the
  frames that arrive: they may be forged, replayed or garbled.
 */
module ExchangeGuards {
  import opened Bin
  import opened BigEndian
  import opened Crypto
  import opened ExchangeWire
  import opened Exchange
  import opened ExchangeRuns
  import Client = ExchangeClientFlow
  import DHCache
  import HashedAnswer
  import RsaPad
  import Server = ExchangeFlows

  /** The frame is a plaintext envelope around a message of this shape with these fields. */
  predicate Holds(frame: seq<Byte>, shape: Shape, vs: seq<Val>)
  {
    OpenEnvelope(frame).Some? && DecMsg(shape, OpenEnvelope(frame).value.data) == Some(vs)
  }

  /** The data decrypts under the temporary keys of the two nonces to a message of this shape with these fields. */
  ghost predicate Hides(su: Setup, newNonce: seq<Byte>, serverNonce: seq<Byte>, data: seq<Byte>, shape: Shape,
                        vs: seq<Val>)
    requires Lawful(su.c)
  {
    var keys := HashedAnswer.TempAesKeys(su.c, FromBE(newNonce), FromBE(serverNonce));
    var plain := HashedAnswer.Decrypted(su.c, data, keys.0, keys.1);
    plain.Some? && DecMsg(shape, plain.value) == Some(vs)
  }

  // ---------------------------------------------------------------- the client

  /** The answer to req_pq: for the client's nonce, from a server whose key it has, with a pq that fits 63 bits. */
  ghost predicate PqChecked(su: Setup, cc: ClientConfig, nonce: seq<Byte>, frame: seq<Byte>, serverNonce: seq<Byte>)
  {
    exists pq: seq<Byte>, offered: seq<int>, k ::
      && Holds(frame, RES_PQ, [VRaw(nonce), VRaw(serverNonce), VBytes(pq), VLongs(offered)]) && FromAServer(frame)
      && FromBE(pq) <= 0x8000_0000_0000_0000 && k in cc.keys && su.fingerprint(k) in offered
  }

  predicate FromAServer(frame: seq<Byte>)
  {
    OpenEnvelope(frame).Some? && OpenEnvelope(frame).value.msgID > 0 && OpenEnvelope(frame).value.msgID % 4 == 1
  }

  /** The group: both nonces outside and inside, a safe prime with a listed generator, and public values in range. */
  ghost predicate GroupChecked(su: Setup, nonce: seq<Byte>, serverNonce: seq<Byte>, newNonce: seq<Byte>,
                               frame: seq<Byte>, gA: nat, b: nat, p: nat)
    requires Lawful(su.c)
  {
    exists enc: seq<Byte>, g: nat, prime: seq<Byte>, ga: seq<Byte>, time: int ::
      && Holds(frame, DH_OK, [VRaw(nonce), VRaw(serverNonce), VBytes(enc)])
      && Hides(su, newNonce, serverNonce, enc, SERVER_INNER,
               [VRaw(nonce), VRaw(serverNonce), VInt(g), VBytes(prime), VBytes(ga), VInt(time)])
      && p == FromBE(prime) && p > 0 && gA == FromBE(ga)
      && DHCache.Accepts(su.prime, g, p) && CheckRange(p, g, gA, ModExp(g, b, p))
  }

  /** The proof: both nonces and the hash that only the new nonce and the key give. */
  ghost predicate ProofChecked(su: Setup, nonce: seq<Byte>, serverNonce: seq<Byte>, newNonce: seq<Byte>,
                               frame: seq<Byte>, key: seq<Byte>)
    requires Lawful(su.c)
  {
    Holds(frame, GEN_OK, [VRaw(nonce), VRaw(serverNonce), VRaw(HashedAnswer.NonceHash1(su.c, newNonce, key))])
  }

  /** The step from one state to the next has made the checks that belong to it. */
  ghost predicate StepChecked(su: Setup, cc: ClientConfig, s: ClientState, frame: seq<Byte>, t: ClientState)
    requires Lawful(su.c)
  {
    match (s, t)
    case (CWaitPQ(nonce), CWaitDH(nonce', serverNonce, _)) =>
      nonce' == nonce && PqChecked(su, cc, nonce, frame, serverNonce)
    case (CWaitDH(nonce, serverNonce, newNonce), CWaitGen(nonce', serverNonce', newNonce', gA, b, p)) =>
      && nonce' == nonce && serverNonce' == serverNonce && newNonce' == newNonce && p > 0
      && GroupChecked(su, nonce, serverNonce, newNonce, frame, gA, b, p)
    case (CWaitGen(nonce, serverNonce, newNonce, gA, b, p), CDone(key, _, _)) =>
      p > 0 && key == BE(AUTH_KEY, ModExp(gA, b, p)) && ProofChecked(su, nonce, serverNonce, newNonce, frame, key)
    case (_, CFailed(_)) => true
    case _ => false
  }

  lemma PqRead(frame: seq<Byte>) returns (r: ResPQ)
    requires ReadResPQ(frame).Got?
    ensures ReadResPQ(frame) == Got(r) && FromAServer(frame)
    ensures Holds(frame, RES_PQ, [VRaw(r.nonce), VRaw(r.serverNonce), VBytes(r.pq), VLongs(r.fingerprints)])
  {
    r := ReadResPQ(frame).v;
    var vs := Parse(RES_PQ, ReadData(frame, false).v).v;
    assert vs == [VRaw(vs[0].b), VRaw(vs[1].b), VBytes(vs[2].b), VLongs(vs[3].vs)];
  }

  lemma FirstTurnChecks(su: Setup, cc: ClientConfig, nonce: seq<Byte>, frame: seq<Byte>, ch: ClientChoice)
    requires Lawful(su.c)
    ensures StepChecked(su, cc, CWaitPQ(nonce), frame, ClientOnResPQ(su, cc, nonce, frame, ch).state)
  {
    if ReadResPQ(frame).Got? {
      var r := PqRead(frame);
      if r.nonce == nonce && SelectKey(su, cc.keys, r.fingerprints).Some? && FromBE(r.pq) <= PQ_MAX {
        PqIsChecked(su, cc, frame, r);
      }
    }
  }

  lemma PqIsChecked(su: Setup, cc: ClientConfig, frame: seq<Byte>, r: ResPQ)
    requires Holds(frame, RES_PQ, [VRaw(r.nonce), VRaw(r.serverNonce), VBytes(r.pq), VLongs(r.fingerprints)])
    requires FromAServer(frame) && FromBE(r.pq) <= PQ_MAX && SelectKey(su, cc.keys, r.fingerprints).Some?
    ensures PqChecked(su, cc, r.nonce, frame, r.serverNonce)
  {
    var k := SelectKey(su, cc.keys, r.fingerprints).value;
    assert k in cc.keys && su.fingerprint(k) in r.fingerprints;
  }

  lemma InnerRead(nonce: seq<Byte>, serverNonce: seq<Byte>, answer: seq<Byte>)
    returns (g: int, prime: seq<Byte>, ga: seq<Byte>, time: int)
    requires InnerGroup(nonce, serverNonce, answer).Got?
    ensures DecMsg(SERVER_INNER, answer) ==
            Some([VRaw(nonce), VRaw(serverNonce), VInt(g), VBytes(prime), VBytes(ga), VInt(time)])
    ensures InnerGroup(nonce, serverNonce, answer) == Got(Group(g, FromBE(prime), FromBE(ga)))
  {
    var ws := Parse(SERVER_INNER, answer).v;
    g, prime, ga, time := ws[2].v, ws[3].b, ws[4].b, ws[5].v;
    assert ws == [VRaw(nonce), VRaw(serverNonce), VInt(g), VBytes(prime), VBytes(ga), VInt(time)];
  }

  lemma GroupRead(su: Setup, nonce: seq<Byte>, serverNonce: seq<Byte>, newNonce: seq<Byte>, frame: seq<Byte>)
    returns (enc: seq<Byte>, g: int, prime: seq<Byte>, ga: seq<Byte>, time: int)
    requires Lawful(su.c) && ReadServerDH(su, nonce, serverNonce, newNonce, frame).Got?
    ensures Holds(frame, DH_OK, [VRaw(nonce), VRaw(serverNonce), VBytes(enc)])
    ensures Hides(su, newNonce, serverNonce, enc, SERVER_INNER,
                  [VRaw(nonce), VRaw(serverNonce), VInt(g), VBytes(prime), VBytes(ga), VInt(time)])
    ensures ReadServerDH(su, nonce, serverNonce, newNonce, frame) == Got(Group(g, FromBE(prime), FromBE(ga)))
  {
    var vs := Parse(DH_OK, ReadAnyData(frame).v).v;
    enc := vs[2].b;
    assert vs == [VRaw(nonce), VRaw(serverNonce), VBytes(enc)];
    g, prime, ga, time := InnerRead(nonce, serverNonce, OpenAnswer(su, newNonce, serverNonce, enc).v);
  }

  lemma SecondTurnChecks(su: Setup, cc: ClientConfig, nonce: seq<Byte>, serverNonce: seq<Byte>, newNonce: seq<Byte>,
                         frame: seq<Byte>, ch: ClientChoice)
    requires Lawful(su.c)
    ensures StepChecked(su, cc, CWaitDH(nonce, serverNonce, newNonce), frame,
                        ClientOnServerDH(su, nonce, serverNonce, newNonce, frame, ch).state)
  {
    var group := ReadServerDH(su, nonce, serverNonce, newNonce, frame);
    var t := ClientOnGroup(su, nonce, serverNonce, newNonce, group, ch).state;
    GroupAnswered(su, nonce, serverNonce, newNonce, group, ch);
    if group.Got? && t.CWaitGen? {
      var enc, g, prime, ga, time := GroupRead(su, nonce, serverNonce, newNonce, frame);
    }
  }

  lemma GroupAnswered(su: Setup, nonce: seq<Byte>, serverNonce: seq<Byte>, newNonce: seq<Byte>, group: Got<Group>,
                      ch: ClientChoice)
    requires Lawful(su.c)
    ensures var t := ClientOnGroup(su, nonce, serverNonce, newNonce, group, ch).state;
            || t.CFailed?
            || (&& group.Got? && group.v.g >= 0 && group.v.p > 0 && DHCache.Accepts(su.prime, group.v.g, group.v.p)
                && t.CWaitGen? && t == CWaitGen(nonce, serverNonce, newNonce, group.v.gA, t.b, group.v.p)
                && CheckRange(group.v.p, group.v.g, group.v.gA, ModExp(group.v.g, t.b, group.v.p)))
  {
  }

  lemma ProofRead(nonce: seq<Byte>, serverNonce: seq<Byte>, frame: seq<Byte>)
    requires ReadGen(nonce, serverNonce, frame).Got?
    ensures Holds(frame, GEN_OK, [VRaw(nonce), VRaw(serverNonce), VRaw(ReadGen(nonce, serverNonce, frame).v)])
  {
    var vs := Parse(GEN_OK, ReadAnyData(frame).v).v;
    assert vs == [VRaw(nonce), VRaw(serverNonce), VRaw(vs[2].b)];
  }

  lemma ThirdTurnChecks(su: Setup, cc: ClientConfig, s: ClientState, frame: seq<Byte>, ch: ClientChoice)
    requires Lawful(su.c) && s.CWaitGen? && |s.newNonce| == 32 && |s.serverNonce| == 16 && s.p > 0
    ensures StepChecked(su, cc, s, frame, ClientOnGen(su, s, frame, ch).state)
  {
    if ReadGen(s.nonce, s.serverNonce, frame).Got? {
      ProofRead(s.nonce, s.serverNonce, frame);
    }
  }

  lemma TurnChecks(su: Setup, cc: ClientConfig, x: Client.ClientInputs, start: ClientState, frames: seq<seq<Byte>>,
                   turns: seq<Client.Turn>, i: nat)
    requires Lawful(su.c) && Client.ClientTrace(su, cc, x, start, frames, turns) && i < |turns|
    ensures StepChecked(su, cc, Client.Before(start, turns, i), frames[i], Client.Before(start, turns, i + 1))
    ensures ClientWaits(Client.Before(start, turns, i))
  {
    assert Client.TurnAt(su, cc, x, start, frames, turns, i);
    StepChecks(su, cc, Client.Before(start, turns, i), frames[i], turns[i].ch, turns[i].m);
  }

  lemma StepChecks(su: Setup, cc: ClientConfig, s: ClientState, frame: seq<Byte>, ch: ClientChoice, m: ClientMove)
    requires Lawful(su.c) && Client.ClientStep(su, cc, s, frame, ch, m)
    ensures StepChecked(su, cc, s, frame, m.state) && ClientWaits(s)
  {
    match s {
      case CWaitPQ(nonce) => FirstTurnChecks(su, cc, nonce, frame, ch);
      case CWaitDH(nonce, serverNonce, newNonce) => SecondTurnChecks(su, cc, nonce, serverNonce, newNonce, frame, ch);
      case CWaitGen(_, _, _, _, _, _) => ThirdTurnChecks(su, cc, s, frame, ch);
    }
  }

  /** What a finished client has seen, turn by turn. */
  ghost predicate ClientChecked(su: Setup, cc: ClientConfig, nonce: seq<Byte>, serverNonce: seq<Byte>,
                                newNonce: seq<Byte>, gA: nat, b: nat, p: nat, frames: seq<seq<Byte>>, key: seq<Byte>)
    requires Lawful(su.c)
  {
    && |frames| >= 3 && PqChecked(su, cc, nonce, frames[0], serverNonce)
    && GroupChecked(su, nonce, serverNonce, newNonce, frames[1], gA, b, p)
    && p > 0 && key == BE(AUTH_KEY, ModExp(gA, b, p)) && ProofChecked(su, nonce, serverNonce, newNonce, frames[2], key)
  }

  /** Three checked steps lead from the first waiting state to the end. */
  lemma ThreeStepsChecked(su: Setup, cc: ClientConfig, a: ClientState, b: ClientState, c: ClientState, d: ClientState,
                          frames: seq<seq<Byte>>)
    requires Lawful(su.c) && |frames| >= 3 && a.CWaitPQ? && b.CWaitDH? && c.CWaitGen? && d.CDone?
    requires StepChecked(su, cc, a, frames[0], b) && StepChecked(su, cc, b, frames[1], c) &&
             StepChecked(su, cc, c, frames[2], d)
    ensures ClientChecked(su, cc, a.nonce, b.serverNonce, b.newNonce, c.gA, c.b, c.p, frames, d.key)
  {
  }

  /** The state after each turn, if the client is to finish: it leaves no other way. */
  lemma FinishingTurns(su: Setup, cc: ClientConfig, x: Client.ClientInputs, start: ClientState,
                       frames: seq<seq<Byte>>, turns: seq<Client.Turn>)
    requires Lawful(su.c) && (start.CWaitPQ? || start.CFailed?) && Client.ClientTrace(su, cc, x, start, frames, turns)
    requires Client.Before(start, turns, |turns|).CDone?
    ensures |turns| == 3 && start.CWaitPQ? && Client.Before(start, turns, 1).CWaitDH? &&
            Client.Before(start, turns, 2).CWaitGen?
  {
    var n := |turns|;
    TurnAdvances(su, cc, x, start, frames, turns, n - 1);
    TurnAdvances(su, cc, x, start, frames, turns, 0);
    if n > 1 { TurnAdvances(su, cc, x, start, frames, turns, 1); }
    if n > 2 { TurnAdvances(su, cc, x, start, frames, turns, 2); }
    if n > 3 { TurnAdvances(su, cc, x, start, frames, turns, 3); }
  }

  /** Each turn brings the client one waiting state further or ends it. */
  predicate Advances(s: ClientState, t: ClientState)
  {
    t.CFailed? || (s.CWaitPQ? && t.CWaitDH?) || (s.CWaitDH? && t.CWaitGen?) || (s.CWaitGen? && t.CDone?)
  }

  lemma CheckedAdvances(su: Setup, cc: ClientConfig, s: ClientState, frame: seq<Byte>, t: ClientState)
    requires Lawful(su.c) && StepChecked(su, cc, s, frame, t)
    ensures Advances(s, t)
  {
  }

  lemma TurnAdvances(su: Setup, cc: ClientConfig, x: Client.ClientInputs, start: ClientState, frames: seq<seq<Byte>>,
                     turns: seq<Client.Turn>, i: nat)
    requires Lawful(su.c) && Client.ClientTrace(su, cc, x, start, frames, turns) && i < |turns|
    ensures Advances(Client.Before(start, turns, i), Client.Before(start, turns, i + 1))
    ensures ClientWaits(Client.Before(start, turns, i))
  {
    TurnChecks(su, cc, x, start, frames, turns, i);
    CheckedAdvances(su, cc, Client.Before(start, turns, i), frames[i], Client.Before(start, turns, i + 1));
  }

  /**
    A client program that finishes has, whatever its peer sent, taken exactly three turns and made every
    check: its nonces came back, the server's key is one of its own, the group is good, both public
    values are in range, and the proof fits its new nonce and key.
   */
  lemma FinishedClientChecked(su: Setup, cc: ClientConfig, x: Client.ClientInputs, frames: seq<seq<Byte>>,
                              turns: seq<Client.Turn>)
    returns (serverNonce: seq<Byte>, newNonce: seq<Byte>, gA: nat, b: nat, p: nat)
    requires Lawful(su.c) && Client.ClientTrace(su, cc, x, ClientStart(Client.StartChoice(x)).state, frames, turns)
    requires Client.Before(ClientStart(Client.StartChoice(x)).state, turns, |turns|).CDone?
    ensures |turns| == 3 && |x.stream| >= 16
    ensures ClientChecked(su, cc, x.stream[..16], serverNonce, newNonce, gA, b, p, frames,
                          Client.Before(ClientStart(Client.StartChoice(x)).state, turns, |turns|).key)
  {
    var start := ClientStart(Client.StartChoice(x)).state;
    FinishingTurns(su, cc, x, start, frames, turns);
    serverNonce, newNonce, gA, b, p := TurnsChecked(su, cc, x, start, frames, turns);
  }

  lemma TurnsChecked(su: Setup, cc: ClientConfig, x: Client.ClientInputs, start: ClientState, frames: seq<seq<Byte>>,
                     turns: seq<Client.Turn>)
    returns (serverNonce: seq<Byte>, newNonce: seq<Byte>, gA: nat, b: nat, p: nat)
    requires Lawful(su.c) && Client.ClientTrace(su, cc, x, start, frames, turns) && |turns| == 3 && start.CWaitPQ?
    requires Client.Before(start, turns, 1).CWaitDH? && Client.Before(start, turns, 2).CWaitGen?
    requires Client.Before(start, turns, 3).CDone?
    ensures ClientChecked(su, cc, start.nonce, serverNonce, newNonce, gA, b, p, frames,
                          Client.Before(start, turns, 3).key)
  {
    var s, t := Client.Before(start, turns, 1), Client.Before(start, turns, 2);
    serverNonce, newNonce, gA, b, p := s.serverNonce, s.newNonce, t.gA, t.b, t.p;
    TurnChecks(su, cc, x, start, frames, turns, 0);
    TurnChecks(su, cc, x, start, frames, turns, 1);
    TurnChecks(su, cc, x, start, frames, turns, 2);
    ThreeStepsChecked(su, cc, start, s, t, Client.Before(start, turns, 3), frames);
  }

  // ---------------------------------------------------------------- the server

  predicate FromAClient(frame: seq<Byte>)
  {
    OpenEnvelope(frame).Some? && OpenEnvelope(frame).value.msgID % 4 == 0
  }

  /** Inner data with this new nonce; a data centre it names is the server's own. */
  ghost predicate NamesNonce(dc: int, data: seq<Byte>, newNonce: seq<Byte>)
  {
    exists ws: seq<Val> :: NonceIn(dc, data, newNonce, ws)
  }

  predicate NonceIn(dc: int, data: seq<Byte>, newNonce: seq<Byte>, ws: seq<Val>)
  {
    && |ws| >= 6 && ws[5] == VRaw(newNonce)
    && (|| DecMsg(PQ_INNER, data) == Some(ws)
        || (|ws| >= 7 && ws[6] == VInt(dc) && DecMsg(PQ_INNER_DC, data) == Some(ws))
        || (|ws| >= 7 && ws[6] == VInt(dc) && DecMsg(PQ_INNER_TEMP_DC, data) == Some(ws)))
  }

  /** A client's request whose sealed part opens under the server's key to inner data with this new nonce. */
  ghost predicate SealChecked(su: Setup, sc: ServerConfig, frame: seq<Byte>, newNonce: seq<Byte>)
    requires sc.priv.n > 0
  {
    FromAClient(frame) && exists vs: seq<Val>, sealed: seq<Byte> :: SealIn(su, sc, frame, newNonce, vs, sealed)
  }

  ghost predicate SealIn(su: Setup, sc: ServerConfig, frame: seq<Byte>, newNonce: seq<Byte>, vs: seq<Val>,
                         sealed: seq<Byte>)
    requires sc.priv.n > 0
  {
    && Holds(frame, REQ_DH, vs) && |vs| == 6 && vs[5] == VBytes(sealed)
    && RsaPad.Decode(su.c, sealed, sc.priv).Some?
    && NamesNonce(sc.dc, RsaPad.Decode(su.c, sealed, sc.priv).value, newNonce)
  }

  /** A client's public value under the temporary keys of the two nonces. */
  ghost predicate PublicChecked(su: Setup, newNonce: seq<Byte>, serverNonce: seq<Byte>, frame: seq<Byte>, gB: nat)
    requires Lawful(su.c)
  {
    FromAClient(frame) && exists vs: seq<Val>, ws: seq<Val>, enc: seq<Byte>, gb: seq<Byte> ::
      PublicIn(su, newNonce, serverNonce, frame, vs, enc, ws, gb) && gB == FromBE(gb)
  }

  ghost predicate PublicIn(su: Setup, newNonce: seq<Byte>, serverNonce: seq<Byte>, frame: seq<Byte>, vs: seq<Val>,
                           enc: seq<Byte>, ws: seq<Val>, gb: seq<Byte>)
    requires Lawful(su.c)
  {
    && Holds(frame, SET_DH, vs) && |vs| == 3 && vs[2] == VBytes(enc)
    && Hides(su, newNonce, serverNonce, enc, CLIENT_INNER, ws) && |ws| == 4 && ws[3] == VBytes(gb)
  }

  /** The key is such a value raised to the server's exponent. */
  ghost predicate KeyChecked(su: Setup, newNonce: seq<Byte>, serverNonce: seq<Byte>, frame: seq<Byte>, a: nat, p: nat,
                             key: seq<Byte>)
    requires Lawful(su.c) && p > 0
  {
    exists gB: nat ::
      PublicChecked(su, newNonce, serverNonce, frame, gB) && FillBytes(AUTH_KEY, ModExp(gB, a, p)) == Some(key)
  }

  /**
    A step out of the second waiting state opened sealed data, one out of the third made the key
    from a public value.
   */
  ghost predicate ServerStepChecked(su: Setup, sc: ServerConfig, s: ServerState, frame: seq<Byte>, t: ServerState)
    requires Lawful(su.c) && sc.priv.n > 0
  {
    match (s, t)
    case (SWaitReq, SWaitDH(_, _, _)) => true
    case (SWaitDH(_, serverNonce, pq), SWaitDH(_, serverNonce', pq')) => serverNonce' == serverNonce && pq' == pq
    case (SWaitDH(nonce, serverNonce, _), SWaitClient(nonce', serverNonce', newNonce, _, p)) =>
      nonce' == nonce && serverNonce' == serverNonce && p > 0 && SealChecked(su, sc, frame, newNonce)
    case (SWaitClient(_, serverNonce, newNonce, a, p), SDone(key, _, _)) =>
      p > 0 && KeyChecked(su, newNonce, serverNonce, frame, a, p, key)
    case (_, SFailed(_)) => true
    case _ => false
  }

  lemma NonceRead(dc: int, data: seq<Byte>)
    requires InnerNonce(dc, data).Got?
    ensures NamesNonce(dc, data, InnerNonce(dc, data).v)
  {
    var id := PeekId(data);
    var shape := if id == Some(PQ_INNER.id) then PQ_INNER
      else if id == Some(PQ_INNER_DC.id) then PQ_INNER_DC else PQ_INNER_TEMP_DC;
    assert NonceIn(dc, data, InnerNonce(dc, data).v, Parse(shape, data).v);
  }

  lemma SealRead(su: Setup, sc: ServerConfig, frame: seq<Byte>)
    requires sc.priv.n > 0 && ReadSecond(frame).Got? && ReadSecond(frame).v.SealedData?
    ensures OpenInner(su, sc, ReadSecond(frame).v.data).Got? ==>
              SealChecked(su, sc, frame, OpenInner(su, sc, ReadSecond(frame).v.data).v)
  {
    var vs := RequestRead(frame);
    var sealed := ReadSecond(frame).v.data;
    if OpenInner(su, sc, sealed).Got? {
      InnerOpened(su, sc, sealed);
      assert SealIn(su, sc, frame, OpenInner(su, sc, sealed).v, vs, sealed);
    }
  }

  lemma RequestRead(frame: seq<Byte>) returns (vs: seq<Val>)
    requires ReadSecond(frame).Got? && ReadSecond(frame).v.SealedData?
    ensures FromAClient(frame) && Holds(frame, REQ_DH, vs) && |vs| == 6 && vs[5] == VBytes(ReadSecond(frame).v.data)
  {
    vs := Parse(REQ_DH, ReadData(frame, true).v).v;
  }

  lemma InnerOpened(su: Setup, sc: ServerConfig, sealed: seq<Byte>)
    requires sc.priv.n > 0 && OpenInner(su, sc, sealed).Got?
    ensures RsaPad.Decode(su.c, sealed, sc.priv).Some?
    ensures NamesNonce(sc.dc, RsaPad.Decode(su.c, sealed, sc.priv).value, OpenInner(su, sc, sealed).v)
  {
    NonceRead(sc.dc, RsaPad.Decode(su.c, sealed, sc.priv).value);
  }

  lemma PublicRead(su: Setup, serverNonce: seq<Byte>, newNonce: seq<Byte>, frame: seq<Byte>)
    requires Lawful(su.c) && ReadClientDH(su, serverNonce, newNonce, frame).Got?
    ensures PublicChecked(su, newNonce, serverNonce, frame, ReadClientDH(su, serverNonce, newNonce, frame).v)
  {
    var vs := Parse(SET_DH, ReadData(frame, true).v).v;
    var ws := Parse(CLIENT_INNER, OpenAnswer(su, newNonce, serverNonce, vs[2].b).v).v;
    assert PublicIn(su, newNonce, serverNonce, frame, vs, vs[2].b, ws, ws[3].b);
  }

  lemma ServerStepChecks(su: Setup, sc: ServerConfig, s: ServerState, frame: seq<Byte>, ch: ServerChoice, m: ServerMove)
    requires Lawful(su.c) && sc.priv.n > 0 && Server.ServerStep(su, sc, s, frame, ch, m)
    ensures ServerStepChecked(su, sc, s, frame, m.state) && ServerWaits(s)
  {
    match s {
      case SWaitReq =>
      case SWaitDH(_, _, _) => SecondRequestChecks(su, sc, s, frame, ch);
      case SWaitClient(_, _, _, _, _) => LastRequestChecks(su, sc, s, frame, ch);
    }
  }

  lemma SecondRequestChecks(su: Setup, sc: ServerConfig, s: ServerState, frame: seq<Byte>, ch: ServerChoice)
    requires Lawful(su.c) && s.SWaitDH? && sc.priv.n > 0 && ServerChoiceOk(ch)
    ensures ServerStepChecked(su, sc, s, frame, ServerOnSecond(su, sc, s, frame, ch).state)
  {
    var r := ReadSecond(frame);
    if r.Got? && r.v.SealedData? { SealRead(su, sc, frame); }
  }

  lemma LastRequestChecks(su: Setup, sc: ServerConfig, s: ServerState, frame: seq<Byte>, ch: ServerChoice)
    requires Lawful(su.c) && sc.priv.n > 0 && s.SWaitClient? && s.p > 0 && |s.newNonce| == 32 && |s.serverNonce| == 16
    ensures ServerStepChecked(su, sc, s, frame, ServerOnClientDH(su, s, frame, ch).state)
  {
    if ReadClientDH(su, s.serverNonce, s.newNonce, frame).Got? {
      PublicRead(su, s.serverNonce, s.newNonce, frame);
      KeyMade(su, s, frame, ch, ReadClientDH(su, s.serverNonce, s.newNonce, frame).v);
    }
  }

  lemma KeyMade(su: Setup, s: ServerState, frame: seq<Byte>, ch: ServerChoice, gB: nat)
    requires Lawful(su.c) && s.SWaitClient? && s.p > 0 && |s.newNonce| == 32 && |s.serverNonce| == 16
    requires ReadClientDH(su, s.serverNonce, s.newNonce, frame) == Got(gB)
    requires PublicChecked(su, s.newNonce, s.serverNonce, frame, gB)
    ensures var t := ServerOnClientDH(su, s, frame, ch).state;
            t.SFailed? || (t.SDone? && KeyChecked(su, s.newNonce, s.serverNonce, frame, s.a, s.p, t.key))
  {
  }

  lemma ServerTurnChecks(su: Setup, sc: ServerConfig, x: Server.Inputs, frames: seq<seq<Byte>>,
                         trace: seq<Server.ServerTurn>, i: nat)
    requires Lawful(su.c) && sc.priv.n > 0 && Server.ServerTrace(su, sc, x, frames, trace) && i < |trace|
    ensures ServerStepChecked(su, sc, Server.Before(trace, i), frames[i], Server.Before(trace, i + 1))
    ensures ServerWaits(Server.Before(trace, i))
  {
    assert Server.MoveAt(su, sc, x, frames, trace, i);
    ServerStepChecks(su, sc, Server.Before(trace, i), frames[i], trace[i].ch, trace[i].m);
  }

  /** The last two turns of a server that finishes. */
  lemma LastServerTurns(su: Setup, sc: ServerConfig, x: Server.Inputs, frames: seq<seq<Byte>>,
                        trace: seq<Server.ServerTurn>)
    requires Lawful(su.c) && sc.priv.n > 0 && Server.ServerTrace(su, sc, x, frames, trace)
    requires Server.Before(trace, |trace|).SDone?
    ensures |trace| >= 3 && Server.Before(trace, |trace| - 1).SWaitClient? && Server.Before(trace, |trace| - 2).SWaitDH?
  {
    var n := |trace|;
    ServerTurnAdvances(su, sc, x, frames, trace, n - 1);
    if n > 1 { ServerTurnAdvances(su, sc, x, frames, trace, n - 2); }
    if n > 2 { ServerTurnAdvances(su, sc, x, frames, trace, n - 3); }
  }

  predicate ServerAdvances(s: ServerState, t: ServerState)
  {
    || t.SFailed? || (s.SWaitReq? && t.SWaitDH?) || (s.SWaitDH? && (t.SWaitDH? || t.SWaitClient?))
    || (s.SWaitClient? && t.SDone?)
  }

  lemma ServerCheckedAdvances(su: Setup, sc: ServerConfig, s: ServerState, frame: seq<Byte>, t: ServerState)
    requires Lawful(su.c) && sc.priv.n > 0 && ServerStepChecked(su, sc, s, frame, t)
    ensures ServerAdvances(s, t)
  {
  }

  lemma ServerTurnAdvances(su: Setup, sc: ServerConfig, x: Server.Inputs, frames: seq<seq<Byte>>,
                           trace: seq<Server.ServerTurn>, i: nat)
    requires Lawful(su.c) && sc.priv.n > 0 && Server.ServerTrace(su, sc, x, frames, trace) && i < |trace|
    ensures ServerAdvances(Server.Before(trace, i), Server.Before(trace, i + 1)) && ServerWaits(Server.Before(trace, i))
  {
    ServerTurnChecks(su, sc, x, frames, trace, i);
    ServerCheckedAdvances(su, sc, Server.Before(trace, i), frames[i], Server.Before(trace, i + 1));
  }

  /**
    A server program that finishes has, whatever its peer sent, opened data sealed for its key and data
    centre in its last turn but one, and made the key from a public value encrypted for the nonce in that data.
   */
  lemma FinishedServerChecked(su: Setup, sc: ServerConfig, x: Server.Inputs, frames: seq<seq<Byte>>,
                              trace: seq<Server.ServerTurn>)
    requires Lawful(su.c) && sc.priv.n > 0 && Server.ServerTrace(su, sc, x, frames, trace)
    requires Server.Before(trace, |trace|).SDone?
    ensures |trace| >= 3 && Server.Before(trace, |trace| - 1).SWaitClient?
    ensures var s := Server.Before(trace, |trace| - 1);
            && s.p > 0 && SealChecked(su, sc, frames[|trace| - 2], s.newNonce)
            && KeyChecked(su, s.newNonce, s.serverNonce, frames[|trace| - 1], s.a, s.p,
                          Server.Before(trace, |trace|).key)
  {
    LastServerTurns(su, sc, x, frames, trace);
    SealWasChecked(su, sc, x, frames, trace, |trace| - 2);
    KeyWasChecked(su, sc, x, frames, trace, |trace| - 1);
  }

  lemma SealWasChecked(su: Setup, sc: ServerConfig, x: Server.Inputs, frames: seq<seq<Byte>>,
                       trace: seq<Server.ServerTurn>, i: nat)
    requires Lawful(su.c) && sc.priv.n > 0 && Server.ServerTrace(su, sc, x, frames, trace) && i < |trace|
    requires Server.Before(trace, i).SWaitDH? && Server.Before(trace, i + 1).SWaitClient?
    ensures Server.Before(trace, i + 1).p > 0 && SealChecked(su, sc, frames[i], Server.Before(trace, i + 1).newNonce)
  {
    ServerTurnChecks(su, sc, x, frames, trace, i);
  }

  lemma KeyWasChecked(su: Setup, sc: ServerConfig, x: Server.Inputs, frames: seq<seq<Byte>>,
                      trace: seq<Server.ServerTurn>, i: nat)
    requires Lawful(su.c) && sc.priv.n > 0 && Server.ServerTrace(su, sc, x, frames, trace) && i < |trace|
    requires Server.Before(trace, i).SWaitClient? && Server.Before(trace, i + 1).SDone?
    ensures var s := Server.Before(trace, i);
            && s.p > 0
            && KeyChecked(su, s.newNonce, s.serverNonce, frames[i], s.a, s.p, Server.Before(trace, i + 1).key)
  {
    ServerTurnChecks(su, sc, x, frames, trace, i);
  }
}

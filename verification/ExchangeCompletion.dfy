/**
  The two programs finish: with enough randomness, acceptable numbers and every frame delivered,
  client and server end with the same key. Everything that is asked for is a condition on what the
  programs are given before they start.
 */
module ExchangeCompletion {
  import opened Bin
  import opened BigEndian
  import opened Crypto
  import opened Exchange
  import opened ExchangeRuns
  import opened ExchangePrograms
  import Client = ExchangeClientFlow
  import DHCache
  import Factorize
  import HashedAnswer
  import RsaPad
  import Server = ExchangeFlows

  // ---------------------------------------------------------------- what the programs are given

  /** The random values the streams begin with. */
  function Nonce(c: Client.ClientInputs): seq<Byte>
    requires |c.stream| >= 48
  {
    c.stream[..16]
  }

  function NewNonce(c: Client.ClientInputs): seq<Byte>
    requires |c.stream| >= 48
  {
    Drop(c.stream, 16)[..32]
  }

  function ServerNonce(s: Server.Inputs): seq<Byte>
    requires |s.stream| >= 16
  {
    s.stream[..16]
  }

  /** RSA_PAD of the inner data with the stream behind the two nonces. */
  ghost function SealedData(su: Setup, cc: ClientConfig, sc: ServerConfig, c: Client.ClientInputs,
                            s: Server.Inputs): Option<(seq<Byte>, seq<Byte>)>
    requires |c.stream| >= 48 && |s.stream| >= 16 && s.numbers.pq.Some? && sc.pub.n > 0
  {
    match Factorize.SplitOf(s.numbers.pq.value, c.factorRandom)
    case Split(p, q) =>
      RsaPad.SealOf(su.c, InnerData(cc, Bytes(s.numbers.pq.value), Bytes(p), Bytes(q), Nonce(c), ServerNonce(s),
                                    NewNonce(c)), sc.pub,
                    Drop(Drop(c.stream, 16), 32))
    case _ => None
  }

  /** The client's secret exponent, read from the stream behind the sealed data. */
  function Exponent(stream: seq<Byte>): nat
    requires |stream| >= AUTH_KEY
  {
    FromBE(stream[..AUTH_KEY])
  }

  /** The streams are long enough, the client has the server's key and factors pq, and both accept the numbers. */
  ghost predicate Provided(su: Setup, cc: ClientConfig, sc: ServerConfig, c: Client.ClientInputs, s: Server.Inputs)
  {
    && |c.stream| >= 48 && |s.stream| >= 31 && sc.pub.n > 0 && sc.pub in cc.keys && cc.dc == sc.dc
    && s.numbers.pq.Some? && s.numbers.pq.value <= PQ_MAX && s.numbers.prime.Some? && s.numbers.exponent.Some?
    && SealedData(su, cc, sc, c, s).Some? && |SealedData(su, cc, sc, c, s).value.1| >= AUTH_KEY + 15 + 8
    && Acceptable(su, s.numbers.prime.value, s.numbers.exponent.value, Exponent(SealedData(su, cc, sc, c, s).value.1))
  }

  /** The group passes the client's checks, and so do both public values. */
  predicate Acceptable(su: Setup, p: nat, a: nat, b: nat)
  {
    && p > 0 && DHCache.Accepts(su.prime, GENERATOR, p)
    && CheckRange(p, GENERATOR, ModExp(GENERATOR, a, p), ModExp(GENERATOR, b, p))
  }

  /** Whoever still waits has received everything the other side sent. */
  ghost predicate Delivered(x: Pair)
  {
    && (ClientWaits(ClientAfter(x, |x.turns|)) ==> |x.turns| == |FromServerAfter(x, |x.trace|)|)
    && (ServerWaits(ServerAfter(x, |x.trace|)) ==> |x.trace| == |FromClientAfter(x, |x.turns|)|)
  }

  /** Two programs that follow their steps, receive only what the other sent, and were given what they need. */
  ghost predicate WellSupplied(su: Setup, cc: ClientConfig, sc: ServerConfig, x: Pair)
  {
    && ValidSetup(su, cc, sc) && (forall k :: k in cc.keys ==> RsaPad.ValidPublic(k))
    && FollowsSteps(su, cc, sc, x) && Orderly(x) && Provided(su, cc, sc, x.client, x.server)
  }

  // ---------------------------------------------------------------- the state between two turns

  /** The description of what is in flight holds when both sides have taken equally many turns, */
  lemma InvLevel(su: Setup, cc: ClientConfig, sc: ServerConfig, x: Pair, k: nat)
    requires ValidSetup(su, cc, sc) && FollowsSteps(su, cc, sc, x) && Orderly(x) && k <= |x.turns|
    ensures Reached(x, k, k) && Inv(su, cc, sc, After(x, k, k))
  {
    var run := RunToLevel(su, cc, sc, x, k);
    RunKeepsInv(su, cc, sc, run, |run| - 1);
  }

  /** and when the server is one turn ahead. */
  lemma InvAhead(su: Setup, cc: ClientConfig, sc: ServerConfig, x: Pair, k: nat)
    requires ValidSetup(su, cc, sc) && FollowsSteps(su, cc, sc, x) && Orderly(x) && k <= |x.turns| && k < |x.trace|
    ensures Reached(x, k, k + 1) && Inv(su, cc, sc, After(x, k, k + 1))
  {
    InvLevel(su, cc, sc, x, k);
    ServerTurnIsStep(su, cc, sc, x, k);
    StepKeepsInv(su, cc, sc, After(x, k, k), After(x, k, k + 1));
  }

  lemma ServerFrame(x: Pair, k: nat)
    requires Orderly(x) && k <= |x.turns| && k < |x.trace|
    ensures Reached(x, k, k) && After(x, k, k).toServer == [x.serverFrames[k]]
  {
    ServerCanRead(x, k);
  }

  lemma ClientFrame(x: Pair, k: nat)
    requires Orderly(x) && k < |x.turns|
    ensures k < |x.trace| && Reached(x, k, k + 1) && After(x, k, k + 1).toClient == [x.clientFrames[k]]
  {
    Alternate(x);
    ClientCanRead(x, k);
  }

  /** The choice the server's inputs make in turn `k`. */
  function ServerChoiceAt(x: Pair, k: nat): ServerChoice
    requires k <= |x.trace|
  {
    Server.ChoiceFrom(x.server.numbers, x.server.clock.ids(k), x.server.clock.times(k),
                      Server.StreamBefore(x.server, x.trace, k))
  }

  lemma ServerTurn(su: Setup, cc: ClientConfig, sc: ServerConfig, x: Pair, k: nat)
    requires Lawful(su.c) && sc.priv.n > 0 && FollowsSteps(su, cc, sc, x) && k < |x.trace|
    ensures ServerWaits(ServerAfter(x, k)) && ServerSized(ServerAfter(x, k)) && ServerChoiceOk(ServerChoiceAt(x, k))
    ensures ServerAfter(x, k + 1) == ServerOn(su, sc, ServerAfter(x, k), x.serverFrames[k], ServerChoiceAt(x, k)).state
  {
    assert Server.MoveAt(su, sc, x.server, x.serverFrames, x.trace, k);
  }

  ghost function ClientChoiceAt(su: Setup, cc: ClientConfig, x: Pair, k: nat): ClientChoice
    requires Lawful(su.c) && k < |x.turns| <= |x.clientFrames|
  {
    Client.ChoiceFrom(su, cc, ClientAfter(x, k), x.clientFrames[k], x.client.factorRandom, x.client.ids(k + 1),
                      ClientStream(su, cc, x, k))
  }

  lemma ClientTurn(su: Setup, cc: ClientConfig, sc: ServerConfig, x: Pair, k: nat)
    requires Lawful(su.c) && sc.priv.n > 0 && FollowsSteps(su, cc, sc, x) && k < |x.turns|
    ensures Client.ClientStep(su, cc, ClientAfter(x, k), x.clientFrames[k], ClientChoiceAt(su, cc, x, k), x.turns[k].m)
  {
    assert Client.TurnAt(su, cc, x.client, Begin(x).state, x.clientFrames, x.turns, k);
  }

  lemma ClientStreamNext(su: Setup, cc: ClientConfig, x: Pair, k: nat)
    requires Lawful(su.c) && k < |x.turns| <= |x.clientFrames|
    ensures ClientStream(su, cc, x, k + 1) ==
            Client.StreamAfter(su, cc, ClientAfter(x, k), x.clientFrames[k], x.client.factorRandom,
                               ClientStream(su, cc, x, k))
  {
  }

  /** What the client's source still delivers before its turn `k`. */
  ghost function ClientStream(su: Setup, cc: ClientConfig, x: Pair, k: nat): seq<Byte>
    requires Lawful(su.c) && k <= |x.turns| <= |x.clientFrames|
  {
    Client.StreamBefore(su, cc, x.client, Begin(x).state, x.clientFrames, x.turns, k)
  }

  // ---------------------------------------------------------------- three rounds

  /** The first answer: the server's nonce and pq. */
  lemma FirstServer(su: Setup, cc: ClientConfig, sc: ServerConfig, x: Pair)
    requires WellSupplied(su, cc, sc, x) && |x.trace| >= 1
    ensures ServerAfter(x, 1) == SWaitDH(Nonce(x.client), ServerNonce(x.server), x.server.numbers.pq.value)
    ensures Server.StreamBefore(x.server, x.trace, 1) == x.server.stream[16..]
  {
    FirstRequest(su, cc, sc, x);
    ServerTurn(su, cc, sc, x, 0);
    ReqAnswered(su, sc, x.serverFrames[0], Nonce(x.client), ServerChoiceAt(x, 0));
  }

  lemma FirstRequest(su: Setup, cc: ClientConfig, sc: ServerConfig, x: Pair)
    requires WellSupplied(su, cc, sc, x) && |x.trace| >= 1
    ensures ReadReq(x.serverFrames[0]) == Got(Nonce(x.client))
  {
    InvLevel(su, cc, sc, x, 0);
    ServerFrame(x, 0);
  }

  lemma ReqAnswered(su: Setup, sc: ServerConfig, frame: seq<Byte>, nonce: seq<Byte>, ch: ServerChoice)
    requires ReadReq(frame) == Got(nonce) && ch.serverNonce.Some? && ch.pq.Some?
    ensures ServerOnReq(su, sc, frame, ch).state == SWaitDH(nonce, ch.serverNonce.value, ch.pq.value)
  {
  }

  /** The client factors pq and seals the inner data. */
  lemma FirstClient(su: Setup, cc: ClientConfig, sc: ServerConfig, x: Pair)
    requires WellSupplied(su, cc, sc, x) && |x.turns| >= 1
    ensures ClientAfter(x, 1) == CWaitDH(Nonce(x.client), ServerNonce(x.server), NewNonce(x.client))
    ensures ClientStream(su, cc, x, 1) == SealedData(su, cc, sc, x.client, x.server).value.1
  {
    FirstAnswer(su, cc, sc, x);
    ClientTurn(su, cc, sc, x, 0);
    ClientStreamNext(su, cc, x, 0);
    Sealing(su, cc, sc, x.client, x.server, x.clientFrames[0], ClientChoiceAt(su, cc, x, 0));
  }

  lemma FirstAnswer(su: Setup, cc: ClientConfig, sc: ServerConfig, x: Pair)
    requires WellSupplied(su, cc, sc, x) && |x.turns| >= 1
    ensures var s := x.server;
            ReadResPQ(x.clientFrames[0]) ==
            Got(ResPQ(Nonce(x.client), ServerNonce(s), Bytes(s.numbers.pq.value), [su.fingerprint(sc.pub)]))
  {
    ClientFrame(x, 0);
    InvAhead(su, cc, sc, x, 0);
    FirstServer(su, cc, sc, x);
  }

  /** Reading the server's first answer, the client chooses and sends what `SealedData` says. */
  lemma Sealing(su: Setup, cc: ClientConfig, sc: ServerConfig, c: Client.ClientInputs, s: Server.Inputs,
                frame: seq<Byte>, ch: ClientChoice)
    requires ValidSetup(su, cc, sc) && Provided(su, cc, sc, c, s)
    requires ReadResPQ(frame) == Got(ResPQ(Nonce(c), ServerNonce(s), Bytes(s.numbers.pq.value),
                                           [su.fingerprint(sc.pub)]))
    requires ch == Client.ResPQChoice(su, cc, Nonce(c), frame, c.factorRandom, c.ids(1), Drop(c.stream, 16))
    requires ClientChoiceOk(ch) && ResPQChoiceOk(su, cc, Nonce(c), frame, ch)
    ensures ClientOnResPQ(su, cc, Nonce(c), frame, ch).state == CWaitDH(Nonce(c), ServerNonce(s), NewNonce(c))
    ensures Client.AfterSeal(su, cc, Nonce(c), frame, c.factorRandom, Drop(c.stream, 16)) ==
            SealedData(su, cc, sc, c, s).value.1
  {
    SealChoice(su, cc, sc, c, s, frame);
    ResPQOutcome(su, cc, sc, Nonce(c), ServerNonce(s), s.numbers.pq.value, frame, ch);
  }

  lemma SealChoice(su: Setup, cc: ClientConfig, sc: ServerConfig, c: Client.ClientInputs, s: Server.Inputs,
                   frame: seq<Byte>)
    requires ValidSetup(su, cc, sc) && Provided(su, cc, sc, c, s)
    requires ReadResPQ(frame) == Got(ResPQ(Nonce(c), ServerNonce(s), Bytes(s.numbers.pq.value),
                                           [su.fingerprint(sc.pub)]))
    ensures var ch := Client.ResPQChoice(su, cc, Nonce(c), frame, c.factorRandom, c.ids(1), Drop(c.stream, 16));
            CanSeal(cc, sc, s.numbers.pq.value, ch) && ch.newNonce == Some(NewNonce(c))
    ensures Client.AfterSeal(su, cc, Nonce(c), frame, c.factorRandom, Drop(c.stream, 16)) ==
            SealedData(su, cc, sc, c, s).value.1
  {
    BytesInverse(s.numbers.pq.value);
    SelectsServerKey(su, cc, sc);
    var pq, rest, res := s.numbers.pq.value, Drop(Drop(c.stream, 16), 32), ReadResPQ(frame).v;
    assert Client.SealFrom(su, cc, Nonce(c), res, sc.pub, Factorize.SplitOf(pq, c.factorRandom), Some(NewNonce(c)),
                           rest) ==
           SealedData(su, cc, sc, c, s);
  }

  /** The server opens it and answers with its group. */
  lemma SecondServer(su: Setup, cc: ClientConfig, sc: ServerConfig, x: Pair)
    requires WellSupplied(su, cc, sc, x) && |x.trace| >= 2 && |x.turns| >= 1
    ensures var num := x.server.numbers;
            ServerAfter(x, 2) ==
            SWaitClient(Nonce(x.client), ServerNonce(x.server), NewNonce(x.client), num.exponent.value, num.prime.value)
  {
    SecondRequest(su, cc, sc, x);
    FirstServer(su, cc, sc, x);
    ServerTurn(su, cc, sc, x, 1);
    SecondOutcome(su, cc, sc, ServerAfter(x, 1), NewNonce(x.client), x.serverFrames[1], ServerChoiceAt(x, 1));
  }

  lemma SecondRequest(su: Setup, cc: ClientConfig, sc: ServerConfig, x: Pair)
    requires WellSupplied(su, cc, sc, x) && |x.trace| >= 2 && |x.turns| >= 1
    ensures CarriesInner(su, cc, sc, x.serverFrames[1], NewNonce(x.client))
  {
    InvLevel(su, cc, sc, x, 1);
    ServerFrame(x, 1);
    FirstServer(su, cc, sc, x);
    FirstClient(su, cc, sc, x);
  }

  /** The client accepts the group and answers with its public value. */
  lemma SecondClient(su: Setup, cc: ClientConfig, sc: ServerConfig, x: Pair)
    requires WellSupplied(su, cc, sc, x) && |x.turns| >= 2
    ensures ClientAfter(x, 2).CWaitGen? && |ClientStream(su, cc, x, 2)| >= 8
    ensures ClientAfter(x, 2).b == Exponent(SealedData(su, cc, sc, x.client, x.server).value.1)
  {
    SecondAnswer(su, cc, sc, x);
    FirstClient(su, cc, sc, x);
    ClientTurn(su, cc, sc, x, 1);
    ClientStreamNext(su, cc, x, 1);
    GroupSendable(su, Nonce(x.client), ServerNonce(x.server), NewNonce(x.client), x.server.numbers.prime.value,
                  x.server.numbers.exponent.value, x.clientFrames[1], x.client.ids(2),
                  SealedData(su, cc, sc, x.client, x.server).value.1);
  }

  lemma SecondAnswer(su: Setup, cc: ClientConfig, sc: ServerConfig, x: Pair)
    requires WellSupplied(su, cc, sc, x) && |x.turns| >= 2
    ensures var p, a := x.server.numbers.prime.value, x.server.numbers.exponent.value;
            && p > 0
            && ReadServerDH(su, Nonce(x.client), ServerNonce(x.server), NewNonce(x.client), x.clientFrames[1]) ==
               Got(Group(GENERATOR, p, ModExp(GENERATOR, a, p)))
  {
    Alternate(x);
    FirstClient(su, cc, sc, x);
    SecondServer(su, cc, sc, x);
    GroupArrivesAt(su, cc, sc, x, 1, Nonce(x.client), ServerNonce(x.server), NewNonce(x.client),
                   x.server.numbers.exponent.value, x.server.numbers.prime.value);
  }

  lemma GroupArrivesAt(su: Setup, cc: ClientConfig, sc: ServerConfig, x: Pair, k: nat, n: seq<Byte>, sn: seq<Byte>,
                       nn: seq<Byte>, a: nat, p: nat)
    requires ValidSetup(su, cc, sc) && FollowsSteps(su, cc, sc, x) && Orderly(x) && k < |x.turns| <= |x.trace|
    requires ClientAfter(x, k) == CWaitDH(n, sn, nn) && ServerAfter(x, k + 1) == SWaitClient(n, sn, nn, a, p)
    ensures p > 0 && ReadServerDH(su, n, sn, nn, x.clientFrames[k]) == Got(Group(GENERATOR, p, ModExp(GENERATOR, a, p)))
  {
    ClientFrame(x, k);
    InvAhead(su, cc, sc, x, k);
    GroupInFlight(su, cc, sc, After(x, k, k + 1), n, sn, nn, a, p);
  }

  lemma GroupInFlight(su: Setup, cc: ClientConfig, sc: ServerConfig, s: System, n: seq<Byte>, sn: seq<Byte>,
                      nn: seq<Byte>, a: nat, p: nat)
    requires Lawful(su.c) && sc.priv.n > 0 && Inv(su, cc, sc, s)
    requires s.client == CWaitDH(n, sn, nn) && s.server == SWaitClient(n, sn, nn, a, p)
    ensures p > 0 && |s.toClient| == 1
    ensures ReadServerDH(su, n, sn, nn, s.toClient[0]) == Got(Group(GENERATOR, p, ModExp(GENERATOR, a, p)))
  {
  }

  /** An acceptable group is answered, and enough of the stream is left to draw a session. */
  lemma GroupSendable(su: Setup, n: seq<Byte>, sn: seq<Byte>, nn: seq<Byte>, p: nat, a: nat, frame: seq<Byte>,
                      msgID: int, stream: seq<Byte>)
    requires Lawful(su.c) && |n| == 16 == |sn| && InRange(8, msgID) && FromClient(msgID)
    requires |stream| >= AUTH_KEY + 15 + 8 && Acceptable(su, p, a, Exponent(stream))
    requires ReadServerDH(su, n, sn, nn, frame) == Got(Group(GENERATOR, p, ModExp(GENERATOR, a, p)))
    ensures var s := ClientOnServerDH(su, n, sn, nn, frame, Client.GroupChoice(msgID, stream)).state;
            s.CWaitGen? && s.b == Exponent(stream)
    ensures |Client.AfterGroup(su, n, sn, nn, frame, stream)| >= 8
  {
    var ch := Client.GroupChoice(msgID, stream);
    var inner := PublicMessage(n, sn, ModExp(GENERATOR, Exponent(stream), p));
    assert ch.b == Some(Exponent(stream)) && |ch.padding| >= 15 + 8 && HashedAnswer.PadLen(|inner|) <= 15;
    assert Sendable(su, n, sn, p, ModExp(GENERATOR, a, p), ch);
    ServerDHOutcome(su, n, sn, nn, p, ModExp(GENERATOR, a, p), frame, ch);
  }

  /** The key of the exponents both programs were given, and the identifier and salt that go with it. */
  ghost predicate MadeKey(su: Setup, cc: ClientConfig, sc: ServerConfig, x: Pair, s: ServerState)
    requires s.SDone? && Provided(su, cc, sc, x.client, x.server)
  {
    KeyFrom(su, x.server.numbers.exponent.value, Exponent(SealedData(su, cc, sc, x.client, x.server).value.1),
            x.server.numbers.prime.value, NewNonce(x.client), ServerNonce(x.server), s.key, s.id, s.salt)
  }

  lemma ThirdServer(su: Setup, cc: ClientConfig, sc: ServerConfig, x: Pair)
    requires WellSupplied(su, cc, sc, x) && |x.trace| >= 3 && |x.turns| >= 2
    ensures ServerAfter(x, 3).SDone? && MadeKey(su, cc, sc, x, ServerAfter(x, 3))
  {
    SecondServer(su, cc, sc, x);
    SecondClient(su, cc, sc, x);
    LastServerTurn(su, cc, sc, x, 2);
  }

  /** A server that waits for the client's public value makes the key in its next turn. */
  lemma LastServerTurn(su: Setup, cc: ClientConfig, sc: ServerConfig, x: Pair, k: nat)
    requires ValidSetup(su, cc, sc) && FollowsSteps(su, cc, sc, x) && Orderly(x) && k <= |x.turns| && k < |x.trace|
    requires ServerAfter(x, k).SWaitClient?
    ensures ClientAfter(x, k).CWaitGen? && ServerAfter(x, k + 1).SDone?
    ensures var c, s, t := ClientAfter(x, k), ServerAfter(x, k), ServerAfter(x, k + 1);
            KeyFrom(su, s.a, c.b, s.p, s.newNonce, s.serverNonce, t.key, t.id, t.salt)
  {
    InvLevel(su, cc, sc, x, k);
    ServerTurnIsStep(su, cc, sc, x, k);
    ServerMakesKey(su, cc, sc, After(x, k, k), x.trace[k].ch, After(x, k, k + 1));
  }

  lemma ThirdClient(su: Setup, cc: ClientConfig, sc: ServerConfig, x: Pair)
    requires WellSupplied(su, cc, sc, x) && |x.turns| >= 3
    ensures ClientAfter(x, 3).CDone?
  {
    Alternate(x);
    SecondClient(su, cc, sc, x);
    ThirdServer(su, cc, sc, x);
    LastClientTurn(su, cc, sc, x, 2);
  }

  /** A client that waits for a finished server's proof finishes if it can draw a session. */
  lemma LastClientTurn(su: Setup, cc: ClientConfig, sc: ServerConfig, x: Pair, k: nat)
    requires ValidSetup(su, cc, sc) && FollowsSteps(su, cc, sc, x) && Orderly(x) && k < |x.turns| && k < |x.trace|
    requires ClientAfter(x, k).CWaitGen? && ServerAfter(x, k + 1).SDone? && |ClientStream(su, cc, x, k)| >= 8
    ensures ClientAfter(x, k + 1).CDone?
  {
    ClientFrame(x, k);
    InvAhead(su, cc, sc, x, k);
    ClientTurn(su, cc, sc, x, k);
    SessionDrawn(su, cc, x, k);
    ProofAccepted(su, cc, sc, After(x, k, k + 1), x.clientFrames[k], ClientChoiceAt(su, cc, x, k), x.turns[k].m);
  }

  lemma SessionDrawn(su: Setup, cc: ClientConfig, x: Pair, k: nat)
    requires Lawful(su.c) && k < |x.turns| <= |x.clientFrames|
    requires ClientAfter(x, k).CWaitGen? && |ClientStream(su, cc, x, k)| >= 8
    ensures ClientChoiceAt(su, cc, x, k).session
  {
  }

  lemma ProofAccepted(su: Setup, cc: ClientConfig, sc: ServerConfig, s: System, frame: seq<Byte>, ch: ClientChoice,
                      m: ClientMove)
    requires Lawful(su.c) && sc.priv.n > 0 && Inv(su, cc, sc, s) && s.client.CWaitGen? && s.server.SDone? && ch.session
    requires s.toClient == [frame] && Client.ClientStep(su, cc, s.client, frame, ch, m)
    ensures m.state.CDone?
  {
  }

  // ---------------------------------------------------------------- both ends

  /** Both sides wait until their third turn, which ends them; the server's last turn still sends a frame. */
  predicate Phased(x: Pair)
    requires |x.turns| <= |x.trace|
  {
    && (|x.turns| <= 2 ==> ClientWaits(ClientAfter(x, |x.turns|)))
    && (|x.trace| <= 2 ==> ServerWaits(ServerAfter(x, |x.trace|)))
    && (|x.turns| >= 3 ==> !ClientWaits(ClientAfter(x, 3)))
    && (|x.trace| >= 3 ==> !ServerWaits(ServerAfter(x, 3)) && |x.trace[2].m.out| == 1 && ServerWaits(ServerAfter(x, 2)))
  }

  lemma ClientPhases(su: Setup, cc: ClientConfig, sc: ServerConfig, x: Pair)
    requires WellSupplied(su, cc, sc, x)
    ensures |x.turns| <= 2 ==> ClientWaits(ClientAfter(x, |x.turns|))
    ensures |x.turns| >= 3 ==> !ClientWaits(ClientAfter(x, 3))
  {
    if |x.turns| == 1 { FirstClient(su, cc, sc, x); }
    if |x.turns| == 2 { SecondClient(su, cc, sc, x); }
    if |x.turns| >= 3 { ThirdClient(su, cc, sc, x); }
  }

  lemma ServerPhases(su: Setup, cc: ClientConfig, sc: ServerConfig, x: Pair)
    requires WellSupplied(su, cc, sc, x)
    ensures |x.trace| <= 2 ==> ServerWaits(ServerAfter(x, |x.trace|))
    ensures |x.trace| >= 3 ==>
              !ServerWaits(ServerAfter(x, 3)) && |x.trace[2].m.out| == 1 && ServerWaits(ServerAfter(x, 2))
  {
    Alternate(x);
    if |x.trace| == 1 { FirstServer(su, cc, sc, x); }
    if |x.trace| == 2 { SecondServer(su, cc, sc, x); }
    if |x.trace| >= 3 {
      ThirdServer(su, cc, sc, x);
      ServerStepAt(su, cc, sc, x, 2);
      Server.ServerStepFacts(su, sc, ServerAfter(x, 2), x.serverFrames[2], x.trace[2].ch, x.trace[2].m);
    }
  }

  lemma ClientWaitsBefore(x: Pair, k: nat)
    requires Orderly(x) && k < |x.turns|
    ensures ClientWaits(ClientAfter(x, k))
  {
    assert OrderlyClient(x, k);
  }

  lemma ServerWaitsBefore(x: Pair, k: nat)
    requires Orderly(x) && k < |x.trace|
    ensures ServerWaits(ServerAfter(x, k))
  {
    assert OrderlyServer(x, k);
  }

  /** If every frame is delivered, each side takes three turns. */
  lemma ThreeTurns(x: Pair)
    requires Orderly(x) && |x.turns| <= |x.trace| && Phased(x) && Delivered(x)
    ensures |x.turns| == 3 == |x.trace|
  {
    Alternate(x);
    var n, m := |x.turns|, |x.trace|;
    if n > 3 { ClientWaitsBefore(x, 3); }
    if m > 3 { ServerWaitsBefore(x, 3); }
    ClientCount(x, n);
    ServerCount(x, m);
    if m == 3 {
      ServerCount(x, 2);
      ServerSentAt(x, 2);
    }
  }

  /**
    With enough randomness, acceptable numbers and every frame delivered both programs finish with the same
    key, identifier and salt: g^(ab) mod p for the exponent the server's generator returns and the one
    the client's stream delivers, the end of its digest, and the exclusive or of the nonces.
   */
  lemma ProgramsComplete(su: Setup, cc: ClientConfig, sc: ServerConfig, x: Pair)
    requires ValidSetup(su, cc, sc) && (forall k :: k in cc.keys ==> RsaPad.ValidPublic(k))
    requires FollowsSteps(su, cc, sc, x) && Faithful(x) && Delivered(x) && Provided(su, cc, sc, x.client, x.server)
    ensures var c, s := ClientAfter(x, |x.turns|), ServerAfter(x, |x.trace|);
            && c.CDone? && s.SDone? && c.key == s.key && c.id == s.id && c.salt == s.salt
            && KeyFrom(su, x.server.numbers.exponent.value,
                       Exponent(SealedData(su, cc, sc, x.client, x.server).value.1), x.server.numbers.prime.value,
                       NewNonce(x.client), ServerNonce(x.server), c.key, c.id, c.salt)
  {
    StepsAreOrderly(su, cc, sc, x);
    Alternate(x);
    ClientPhases(su, cc, sc, x);
    ServerPhases(su, cc, sc, x);
    ThreeTurns(x);
    ThirdServer(su, cc, sc, x);
    ThirdClient(su, cc, sc, x);
    ProgramsAgree(su, cc, sc, x);
  }
}

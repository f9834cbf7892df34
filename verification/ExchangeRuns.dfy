/**
  All runs of one client and one server over faithful ordered channels: what is in flight in
  every reachable state, why nothing but a local condition can make either side fail, and
  why both sides end with the same key, key identifier and salt.
 */
module ExchangeRuns {
  import opened Bin
  import opened BigEndian
  import opened Crypto
  import opened ExchangeWire
  import opened Exchange
  import DHCache
  import HashedAnswer
  import RsaPad

  /** Lawful cryptography, a matching key pair, 32-bit configuration and fingerprints that identify the server's key. */
  ghost predicate ValidSetup(su: Setup, cc: ClientConfig, sc: ServerConfig)
  {
    && Lawful(su.c) && RsaPad.KeyPair(sc.pub, sc.priv)
    && InRange(4, cc.dc) && InRange(4, cc.expiresIn)
    && (forall k :: InRange(8, su.fingerprint(k)))
    && (forall k :: k in cc.keys && su.fingerprint(k) == su.fingerprint(sc.pub) ==> k == sc.pub)
  }

  datatype System = System(client: ClientState, server: ServerState, toServer: seq<seq<Byte>>, toClient: seq<seq<Byte>>)

  ghost predicate Initial(s: System)
  {
    s == System(CInit, SWaitReq, [], [])
  }

  predicate ClientWaits(c: ClientState)
  {
    c.CWaitPQ? || c.CWaitDH? || c.CWaitGen?
  }

  predicate ServerWaits(s: ServerState)
  {
    s.SWaitReq? || s.SWaitDH? || s.SWaitClient?
  }

  /** Nonces and the modulus have the sizes every step gives them. */
  predicate ClientSized(c: ClientState)
  {
    match c
    case CWaitPQ(n) => |n| == 16
    case CWaitDH(n, sn, nn) => |n| == 16 && |sn| == 16 && |nn| == 32
    case CWaitGen(n, sn, nn, _, _, p) => |n| == 16 && |sn| == 16 && |nn| == 32 && p > 0
    case _ => true
  }

  predicate ServerSized(s: ServerState)
  {
    match s
    case SWaitDH(n, sn, pq) => |n| == 16 && |sn| == 16 && ByteLen(pq) <= LONGEST
    case SWaitClient(n, sn, nn, _, p) => |n| == 16 && |sn| == 16 && |nn| == 32 && p > 0
    case _ => true
  }

  ghost function ClientOn(su: Setup, cc: ClientConfig, c: ClientState, frame: seq<Byte>, ch: ClientChoice): ClientMove
    requires Lawful(su.c) && ClientWaits(c) && ClientSized(c)
  {
    match c
    case CWaitPQ(n) => ClientOnResPQ(su, cc, n, frame, ch)
    case CWaitDH(n, sn, nn) => ClientOnServerDH(su, n, sn, nn, frame, ch)
    case CWaitGen(_, _, _, _, _, _) => ClientOnGen(su, c, frame, ch)
  }

  ghost function ServerOn(su: Setup, sc: ServerConfig, s: ServerState, frame: seq<Byte>, ch: ServerChoice): ServerMove
    requires Lawful(su.c) && sc.priv.n > 0 && ServerWaits(s) && ServerSized(s) && ServerChoiceOk(ch)
  {
    match s
    case SWaitReq => ServerOnReq(su, sc, frame, ch)
    case SWaitDH(_, _, _) => ServerOnSecond(su, sc, s, frame, ch)
    case SWaitClient(_, _, _, _, _) => ServerOnClientDH(su, s, frame, ch)
  }

  ghost predicate ClientMoves(su: Setup, cc: ClientConfig, s: System, ch: ClientChoice, s': System)
    requires Lawful(su.c)
  {
    && ClientChoiceOk(ch)
    && if s.client.CInit? then
         var m := ClientStart(ch);
         s' == s.(client := m.state, toServer := s.toServer + m.out)
       else
         && ClientWaits(s.client) && ClientSized(s.client) && s.toClient != []
         && (s.client.CWaitPQ? ==> ResPQChoiceOk(su, cc, s.client.nonce, s.toClient[0], ch))
         && var m := ClientOn(su, cc, s.client, s.toClient[0], ch);
            s' == s.(client := m.state, toServer := s.toServer + m.out, toClient := s.toClient[1..])
  }

  ghost predicate ServerMoves(su: Setup, sc: ServerConfig, s: System, ch: ServerChoice, s': System)
    requires Lawful(su.c) && sc.priv.n > 0
  {
    && ServerChoiceOk(ch) && ServerWaits(s.server) && ServerSized(s.server) && s.toServer != []
    && var m := ServerOn(su, sc, s.server, s.toServer[0], ch);
       s' == s.(server := m.state, toClient := s.toClient + m.out, toServer := s.toServer[1..])
  }

  ghost predicate Next(su: Setup, cc: ClientConfig, sc: ServerConfig, s: System, s': System)
    requires Lawful(su.c) && sc.priv.n > 0
  {
    (exists ch :: ClientMoves(su, cc, s, ch, s')) || (exists ch :: ServerMoves(su, sc, s, ch, s'))
  }

  // ---------------------------------------------------------------- what is in flight

  ghost predicate CarriesInner(su: Setup, cc: ClientConfig, sc: ServerConfig, frame: seq<Byte>, newNonce: seq<Byte>)
    requires sc.priv.n > 0
  {
    && ReadSecond(frame).Got? && ReadSecond(frame).v.SealedData?
    && OpenInner(su, sc, ReadSecond(frame).v.data) == if cc.dc == sc.dc then Got(newNonce) else Bad(WrongDC)
  }

  /** A reason of the client's own, or a pq below two that the server's generator supplied. */
  predicate ClientExcuse(w: Why, s: ServerState)
  {
    Local(w) || (w.DividesByZero? && s.SWaitDH? && s.pq < 2)
  }

  ghost predicate Inv(su: Setup, cc: ClientConfig, sc: ServerConfig, s: System)
    requires Lawful(su.c) && sc.priv.n > 0
  {
    && ClientSized(s.client) && ServerSized(s.server)
    && match (s.client, s.server)
       case (CInit, SWaitReq) => s.toServer == [] && s.toClient == []
       case (CWaitPQ(n), SWaitReq) =>
         |s.toServer| == 1 && s.toClient == [] && ReadReq(s.toServer[0]) == Got(n)
       case (CWaitPQ(n), SWaitDH(n', sn, pq)) =>
         s.toServer == [] && |s.toClient| == 1 && n == n' &&
         ReadResPQ(s.toClient[0]) == Got(ResPQ(n, sn, Bytes(pq), [su.fingerprint(sc.pub)]))
       case (CWaitDH(n, sn, nn), SWaitDH(n', sn', _)) =>
         |s.toServer| == 1 && s.toClient == [] && n == n' && sn == sn' && CarriesInner(su, cc, sc, s.toServer[0], nn)
       case (CWaitDH(n, sn, nn), SWaitClient(n', sn', nn', a, p)) =>
         s.toServer == [] && |s.toClient| == 1 && n == n' && sn == sn' && nn == nn' &&
         ReadServerDH(su, n, sn, nn, s.toClient[0]) == Got(Group(GENERATOR, p, ModExp(GENERATOR, a, p)))
       case (CWaitGen(n, sn, nn, gA, b, p), SWaitClient(n', sn', nn', a, p')) =>
         |s.toServer| == 1 && s.toClient == [] && n == n' && sn == sn' && nn == nn' && p == p' &&
         DHCache.FullWidth(p) &&
         gA == ModExp(GENERATOR, a, p) && ReadClientDH(su, sn, nn, s.toServer[0]) == Got(ModExp(GENERATOR, b, p))
       case (CWaitGen(n, sn, nn, gA, b, p), SDone(key, id, salt)) =>
         s.toServer == [] && |s.toClient| == 1 && key == BE(AUTH_KEY, ModExp(gA, b, p)) &&
         id == HashedAnswer.KeyId(su.c, key) && salt == HashedAnswer.ServerSalt(nn, sn) &&
         ReadGen(n, sn, s.toClient[0]) == Got(HashedAnswer.NonceHash1(su.c, nn, key))
       case (CDone(key, id, salt), SDone(key', id', salt')) =>
         s.toServer == [] && s.toClient == [] && key == key' && id == id' && salt == salt' && |key| == AUTH_KEY &&
         id == HashedAnswer.KeyId(su.c, key)
       case (CFailed(w), SFailed(_)) => false
       case (CFailed(w), sv) => ClientExcuse(w, sv) && s.toServer == []
       case (c, SFailed(w)) => Local(w) && s.toClient == [] && !c.CInit? && !c.CDone?
       case _ => false
  }

  /** The nonce of the first request as the server reads it. */
  function ReadReq(frame: seq<Byte>): Got<seq<Byte>>
  {
    match ReadData(frame, true)
    case Bad(w) => Bad(w)
    case Got(data) => ReqPqNonce(data)
  }

  // ---------------------------------------------------------------- each message is read as it was written

  lemma ReqPqArrives(msgID: int, nonce: seq<Byte>)
    requires InRange(8, msgID) && FromClient(msgID) && |nonce| == 16
    ensures ReadReq(Post(msgID, REQ_PQ_MULTI, [VRaw(nonce)])) == Got(nonce)
  {
    FramedRoundTrip(msgID, REQ_PQ_MULTI, [VRaw(nonce)]);
  }

  lemma ResPQArrives(msgID: int, nonce: seq<Byte>, serverNonce: seq<Byte>, pq: nat, fingerprint: int)
    requires InRange(8, msgID) && ServerResponse(msgID) && |nonce| == 16 == |serverNonce| && ByteLen(pq) <= LONGEST &&
             InRange(8, fingerprint)
    ensures ReadResPQ(Post(msgID, RES_PQ,
                           [VRaw(nonce), VRaw(serverNonce), VBytes(Bytes(pq)), VLongs([fingerprint])])) ==
            Got(ResPQ(nonce, serverNonce, Bytes(pq), [fingerprint]))
  {
    assert Fits(KRaw(16), VRaw(nonce)) && Fits(KRaw(16), VRaw(serverNonce));
    assert Fits(KBytes, VBytes(Bytes(pq)));
    assert Fits(KLongs, VLongs([fingerprint]));
    FramedRoundTrip(msgID, RES_PQ, [VRaw(nonce), VRaw(serverNonce), VBytes(Bytes(pq)), VLongs([fingerprint])]);
  }

  lemma InnerDataArrives(cc: ClientConfig, dc: int, pq: seq<Byte>, p: seq<Byte>, q: seq<Byte>, nonce: seq<Byte>,
                         serverNonce: seq<Byte>, newNonce: seq<Byte>, rest: seq<Byte>)
    requires InRange(4, cc.dc) && InRange(4, cc.expiresIn) && |nonce| == 16 == |serverNonce| && |newNonce| == 32
    requires |pq| <= MAX_LONG_STRING && |p| <= MAX_LONG_STRING && |q| <= MAX_LONG_STRING
    ensures InnerNonce(dc, InnerData(cc, pq, p, q, nonce, serverNonce, newNonce) + rest) ==
            if cc.dc == dc then Got(newNonce) else Bad(WrongDC)
  {
    if cc.temporary {
      TemporaryArrives(cc, dc, pq, p, q, nonce, serverNonce, newNonce, rest);
    } else {
      PermanentArrives(cc, dc, pq, p, q, nonce, serverNonce, newNonce, rest);
    }
  }

  lemma PermanentArrives(cc: ClientConfig, dc: int, pq: seq<Byte>, p: seq<Byte>, q: seq<Byte>, nonce: seq<Byte>,
                         serverNonce: seq<Byte>, newNonce: seq<Byte>, rest: seq<Byte>)
    requires !cc.temporary && InRange(4, cc.dc) && |nonce| == 16 == |serverNonce| && |newNonce| == 32
    requires |pq| <= MAX_LONG_STRING && |p| <= MAX_LONG_STRING && |q| <= MAX_LONG_STRING
    ensures InnerNonce(dc, InnerData(cc, pq, p, q, nonce, serverNonce, newNonce) + rest) ==
            if cc.dc == dc then Got(newNonce) else Bad(WrongDC)
  {
    var vs := [VBytes(pq), VBytes(p), VBytes(q), VRaw(nonce), VRaw(serverNonce), VRaw(newNonce), VInt(cc.dc)];
    assert Fits(KBytes, VBytes(pq)) && Fits(KBytes, VBytes(p)) && Fits(KBytes, VBytes(q));
    assert Fits(KRaw(16), VRaw(nonce)) && Fits(KRaw(16), VRaw(serverNonce)) && Fits(KRaw(32), VRaw(newNonce));
    assert Fits(KInt, VInt(cc.dc));
    MsgRoundTrip(PQ_INNER_DC, vs, rest);
  }

  lemma TemporaryArrives(cc: ClientConfig, dc: int, pq: seq<Byte>, p: seq<Byte>, q: seq<Byte>, nonce: seq<Byte>,
                         serverNonce: seq<Byte>, newNonce: seq<Byte>, rest: seq<Byte>)
    requires cc.temporary && InRange(4, cc.dc) && InRange(4, cc.expiresIn) && |nonce| == 16 == |serverNonce| &&
             |newNonce| == 32
    requires |pq| <= MAX_LONG_STRING && |p| <= MAX_LONG_STRING && |q| <= MAX_LONG_STRING
    ensures InnerNonce(dc, InnerData(cc, pq, p, q, nonce, serverNonce, newNonce) + rest) ==
            if cc.dc == dc then Got(newNonce) else Bad(WrongDC)
  {
    var common := [VBytes(pq), VBytes(p), VBytes(q), VRaw(nonce), VRaw(serverNonce), VRaw(newNonce), VInt(cc.dc)];
    assert Fits(KBytes, VBytes(pq)) && Fits(KBytes, VBytes(p)) && Fits(KBytes, VBytes(q));
    assert Fits(KRaw(16), VRaw(nonce)) && Fits(KRaw(16), VRaw(serverNonce)) && Fits(KRaw(32), VRaw(newNonce));
    assert Fits(KInt, VInt(cc.dc)) && Fits(KInt, VInt(cc.expiresIn));
    MsgRoundTrip(PQ_INNER_TEMP_DC, common + [VInt(cc.expiresIn)], rest);
  }

  lemma ReqDHArrives(msgID: int, nonce: seq<Byte>, serverNonce: seq<Byte>, p: seq<Byte>, q: seq<Byte>, fingerprint: int,
                     enc: seq<Byte>)
    requires InRange(8, msgID) && FromClient(msgID) && |nonce| == 16 == |serverNonce| && InRange(8, fingerprint)
    requires |p| <= MAX_LONG_STRING && |q| <= MAX_LONG_STRING && |enc| <= MAX_LONG_STRING
    ensures ReadSecond(Post(msgID, REQ_DH,
                            [VRaw(nonce), VRaw(serverNonce), VBytes(p), VBytes(q), VLong(fingerprint), VBytes(enc)])) ==
            Got(SealedData(enc))
  {
    assert Fits(KRaw(16), VRaw(nonce)) && Fits(KRaw(16), VRaw(serverNonce));
    assert Fits(KBytes, VBytes(p)) && Fits(KBytes, VBytes(q)) && Fits(KBytes, VBytes(enc)) &&
           Fits(KLong, VLong(fingerprint));
    FramedRoundTrip(msgID, REQ_DH,
                    [VRaw(nonce), VRaw(serverNonce), VBytes(p), VBytes(q), VLong(fingerprint), VBytes(enc)]);
  }

  /** An answer encrypted by one side opens on the other to the message followed by some padding. */
  lemma AnswerArrives(su: Setup, newNonce: seq<Byte>, serverNonce: seq<Byte>, inner: seq<Byte>, padding: seq<Byte>)
    returns (rest: seq<Byte>)
    requires Lawful(su.c) && |padding| == HashedAnswer.PadLen(|inner|)
    ensures var keys := AnswerKeys(su, newNonce, serverNonce);
            OpenAnswer(su, newNonce, serverNonce, HashedAnswer.Encrypted(su.c, inner, padding, keys.0, keys.1)) ==
            Got(inner + rest)
    ensures var keys := AnswerKeys(su, newNonce, serverNonce);
            |HashedAnswer.Encrypted(su.c, inner, padding, keys.0, keys.1)| < |inner| + 36
  {
    var keys := AnswerKeys(su, newNonce, serverNonce);
    HashedAnswer.AnswerRoundTrip(su.c, inner, padding, keys.0, keys.1);
    assert IgeInverse(su.c, keys.0, keys.1, HashedAnswer.Hashed(su.c, inner, padding));
    var plain := OpenAnswer(su, newNonce, serverNonce, HashedAnswer.Encrypted(su.c, inner, padding, keys.0, keys.1)).v;
    rest := plain[|inner|..];
    assert plain == inner + rest;
  }

  /** The outer server_DH_params_ok carries its answer unchanged. */
  lemma DhOkOpens(msgID: int, su: Setup, nonce: seq<Byte>, serverNonce: seq<Byte>, newNonce: seq<Byte>, enc: seq<Byte>)
    requires Lawful(su.c) && InRange(8, msgID) && |nonce| == 16 == |serverNonce| && |enc| <= MAX_LONG_STRING
    requires OpenAnswer(su, newNonce, serverNonce, enc).Got?
    ensures ReadServerDH(su, nonce, serverNonce, newNonce,
                         Post(msgID, DH_OK, [VRaw(nonce), VRaw(serverNonce), VBytes(enc)])) ==
            InnerGroup(nonce, serverNonce, OpenAnswer(su, newNonce, serverNonce, enc).v)
  {
    assert Fits(KRaw(16), VRaw(nonce)) && Fits(KRaw(16), VRaw(serverNonce));
    assert Fits(KBytes, VBytes(enc));
    var vs := [VRaw(nonce), VRaw(serverNonce), VBytes(enc)];
    FramedRoundTrip(msgID, DH_OK, vs);
    assert ReadAnyData(Post(msgID, DH_OK, vs)) == Got(EncMsg(DH_OK, vs));
    assert GroupOf(su, nonce, serverNonce, newNonce, EncMsg(DH_OK, vs)) ==
           InnerGroup(nonce, serverNonce, OpenAnswer(su, newNonce, serverNonce, enc).v);
  }

  lemma GroupArrives(msgID: int, su: Setup, nonce: seq<Byte>, serverNonce: seq<Byte>, newNonce: seq<Byte>, p: nat,
                     gA: nat, time: int, padding: seq<Byte>)
    requires Lawful(su.c) && InRange(8, msgID) && InRange(4, time) && |nonce| == 16 == |serverNonce|
    requires ByteLen(p) <= LONGEST && ByteLen(gA) <= LONGEST
    requires |padding| == HashedAnswer.PadLen(|GroupMessage(nonce, serverNonce, p, gA, time)|)
    ensures var keys := AnswerKeys(su, newNonce, serverNonce);
            var enc := HashedAnswer.Encrypted(su.c, GroupMessage(nonce, serverNonce, p, gA, time), padding, keys.0,
                                              keys.1);
            ReadServerDH(su, nonce, serverNonce, newNonce,
                         Post(msgID, DH_OK, [VRaw(nonce), VRaw(serverNonce), VBytes(enc)])) ==
            Got(Group(GENERATOR, p, gA))
  {
    var inner := GroupMessage(nonce, serverNonce, p, gA, time);
    var keys := AnswerKeys(su, newNonce, serverNonce);
    var enc := HashedAnswer.Encrypted(su.c, inner, padding, keys.0, keys.1);
    var rest := AnswerArrives(su, newNonce, serverNonce, inner, padding);
    GroupLength(nonce, serverNonce, p, gA, time);
    DhOkOpens(msgID, su, nonce, serverNonce, newNonce, enc);
    GroupOpens(nonce, serverNonce, p, gA, time, rest);
  }

  function GroupMessage(nonce: seq<Byte>, serverNonce: seq<Byte>, p: nat, gA: nat, time: int): seq<Byte>
  {
    EncMsg(SERVER_INNER,
           [VRaw(nonce), VRaw(serverNonce), VInt(GENERATOR), VBytes(Bytes(p)), VBytes(Bytes(gA)), VInt(time)])
  }

  lemma GroupOpens(nonce: seq<Byte>, serverNonce: seq<Byte>, p: nat, gA: nat, time: int, rest: seq<Byte>)
    requires InRange(4, time) && |nonce| == 16 == |serverNonce| && ByteLen(p) <= LONGEST && ByteLen(gA) <= LONGEST
    ensures InnerGroup(nonce, serverNonce, GroupMessage(nonce, serverNonce, p, gA, time) + rest) ==
            Got(Group(GENERATOR, p, gA))
  {
    assert Fits(KRaw(16), VRaw(nonce)) && Fits(KRaw(16), VRaw(serverNonce));
    assert Fits(KInt, VInt(GENERATOR)) && Fits(KInt, VInt(time));
    assert Fits(KBytes, VBytes(Bytes(p))) && Fits(KBytes, VBytes(Bytes(gA)));
    MsgRoundTrip(SERVER_INNER,
                 [VRaw(nonce), VRaw(serverNonce), VInt(GENERATOR), VBytes(Bytes(p)), VBytes(Bytes(gA)), VInt(time)],
                 rest);
    BytesInverse(p);
    BytesInverse(gA);
  }

  lemma {:induction false} ValsAtMost(vs: seq<Val>, m: nat)
    requires forall i :: 0 <= i < |vs| ==> |EncVal(vs[i])| <= m
    ensures |EncVals(vs)| <= |vs| * m
  {
    if vs != [] {
      ValsAtMost(vs[1..], m);
      OneMore(|vs| - 1, m);
      assert |EncVals(vs)| == |EncVal(vs[0])| + |EncVals(vs[1..])|;
    }
  }

  lemma GroupLength(nonce: seq<Byte>, serverNonce: seq<Byte>, p: nat, gA: nat, time: int)
    requires |nonce| == 16 == |serverNonce| && ByteLen(p) <= LONGEST && ByteLen(gA) <= LONGEST
    ensures |GroupMessage(nonce, serverNonce, p, gA, time)| <= 8 * LONGEST
  {
    BytesAligned(Bytes(p));
    BytesAligned(Bytes(gA));
    ValsAtMost([VRaw(nonce), VRaw(serverNonce), VInt(GENERATOR), VBytes(Bytes(p)), VBytes(Bytes(gA)), VInt(time)],
               LONGEST + 8);
  }

  lemma GenArrives(msgID: int, nonce: seq<Byte>, serverNonce: seq<Byte>, hash: seq<Byte>)
    requires InRange(8, msgID) && |nonce| == 16 == |serverNonce| && |hash| == 16
    ensures ReadGen(nonce, serverNonce, Post(msgID, GEN_OK, [VRaw(nonce), VRaw(serverNonce), VRaw(hash)])) == Got(hash)
  {
    FramedRoundTrip(msgID, GEN_OK, [VRaw(nonce), VRaw(serverNonce), VRaw(hash)]);
  }

  function PublicMessage(nonce: seq<Byte>, serverNonce: seq<Byte>, gB: nat): seq<Byte>
  {
    EncMsg(CLIENT_INNER, [VRaw(nonce), VRaw(serverNonce), VLong(0), VBytes(Bytes(gB))])
  }

  lemma PublicLength(nonce: seq<Byte>, serverNonce: seq<Byte>, gB: nat)
    requires |nonce| == 16 == |serverNonce| && ByteLen(gB) <= LONGEST
    ensures |PublicMessage(nonce, serverNonce, gB)| <= 8 * LONGEST
  {
    BytesAligned(Bytes(gB));
    ValsAtMost([VRaw(nonce), VRaw(serverNonce), VLong(0), VBytes(Bytes(gB))], LONGEST + 8);
  }

  function PublicOf(answer: seq<Byte>): Got<nat>
  {
    match Parse(CLIENT_INNER, answer)
    case Bad(w) => Bad(w)
    case Got(inner) => Got(FromBE(inner[3].b))
  }

  /** The outer set_client_DH_params carries its answer unchanged. */
  lemma SetDhOpens(msgID: int, su: Setup, nonce: seq<Byte>, serverNonce: seq<Byte>, newNonce: seq<Byte>, enc: seq<Byte>)
    requires Lawful(su.c) && InRange(8, msgID) && FromClient(msgID) && |nonce| == 16 == |serverNonce| &&
             |enc| <= MAX_LONG_STRING
    requires OpenAnswer(su, newNonce, serverNonce, enc).Got?
    ensures ReadClientDH(su, serverNonce, newNonce,
                         Post(msgID, SET_DH, [VRaw(nonce), VRaw(serverNonce), VBytes(enc)])) ==
            PublicOf(OpenAnswer(su, newNonce, serverNonce, enc).v)
  {
    assert Fits(KRaw(16), VRaw(nonce)) && Fits(KRaw(16), VRaw(serverNonce));
    assert Fits(KBytes, VBytes(enc));
    var vs := [VRaw(nonce), VRaw(serverNonce), VBytes(enc)];
    FramedRoundTrip(msgID, SET_DH, vs);
    assert ReadData(Post(msgID, SET_DH, vs), true) == Got(EncMsg(SET_DH, vs));
    assert Parse(SET_DH, EncMsg(SET_DH, vs)) == Got(vs);
  }

  lemma PublicArrives(msgID: int, su: Setup, nonce: seq<Byte>, serverNonce: seq<Byte>, newNonce: seq<Byte>, gB: nat,
                      padding: seq<Byte>)
    requires Lawful(su.c) && InRange(8, msgID) && FromClient(msgID) && |nonce| == 16 == |serverNonce| &&
             ByteLen(gB) <= LONGEST
    requires |padding| == HashedAnswer.PadLen(|PublicMessage(nonce, serverNonce, gB)|)
    ensures var keys := AnswerKeys(su, newNonce, serverNonce);
            var enc := HashedAnswer.Encrypted(su.c, PublicMessage(nonce, serverNonce, gB), padding, keys.0, keys.1);
            ReadClientDH(su, serverNonce, newNonce,
                         Post(msgID, SET_DH, [VRaw(nonce), VRaw(serverNonce), VBytes(enc)])) == Got(gB)
  {
    var inner := PublicMessage(nonce, serverNonce, gB);
    var keys := AnswerKeys(su, newNonce, serverNonce);
    var enc := HashedAnswer.Encrypted(su.c, inner, padding, keys.0, keys.1);
    var rest := AnswerArrives(su, newNonce, serverNonce, inner, padding);
    PublicLength(nonce, serverNonce, gB);
    SetDhOpens(msgID, su, nonce, serverNonce, newNonce, enc);
    PublicOpens(nonce, serverNonce, gB, rest);
  }

  lemma PublicOpens(nonce: seq<Byte>, serverNonce: seq<Byte>, gB: nat, rest: seq<Byte>)
    requires |nonce| == 16 == |serverNonce| && ByteLen(gB) <= LONGEST
    ensures PublicOf(PublicMessage(nonce, serverNonce, gB) + rest) == Got(gB)
  {
    assert Fits(KRaw(16), VRaw(nonce)) && Fits(KRaw(16), VRaw(serverNonce));
    assert Fits(KLong, VLong(0)) && Fits(KBytes, VBytes(Bytes(gB)));
    MsgRoundTrip(CLIENT_INNER, [VRaw(nonce), VRaw(serverNonce), VLong(0), VBytes(Bytes(gB))], rest);
    BytesInverse(gB);
  }

  // ---------------------------------------------------------------- one step at a time

  lemma StartStep(su: Setup, cc: ClientConfig, sc: ServerConfig, s: System, ch: ClientChoice, s': System)
    requires ValidSetup(su, cc, sc) && Inv(su, cc, sc, s) && s.client.CInit? && ClientMoves(su, cc, s, ch, s')
    ensures Inv(su, cc, sc, s')
  {
    if ch.nonce.Some? {
      ReqPqArrives(ch.msgID, ch.nonce.value);
    }
  }

  lemma ReqStep(su: Setup, cc: ClientConfig, sc: ServerConfig, s: System, ch: ServerChoice, s': System)
    requires ValidSetup(su, cc, sc) && Inv(su, cc, sc, s) && s.server.SWaitReq? && ServerMoves(su, sc, s, ch, s')
    ensures Inv(su, cc, sc, s')
  {
    if ch.serverNonce.Some? && ch.pq.Some? {
      ResPQArrives(ch.msgID, s.client.nonce, ch.serverNonce.value, ch.pq.value, su.fingerprint(sc.pub));
    }
  }

  /** Small factors have few bytes, so the inner data is well formed. */
  lemma FactorsShort(pq: nat, p: nat, q: nat)
    requires pq <= PQ_MAX && p <= q < pq
    ensures |Bytes(pq)| <= 8 && |Bytes(p)| <= 8 && |Bytes(q)| <= 8
  {
    Pow256Values();
    FitsWidth(8, pq);
    FitsWidth(8, p);
    FitsWidth(8, q);
  }

  lemma SealedArrives(su: Setup, cc: ClientConfig, sc: ServerConfig, msgID: int, nonce: seq<Byte>,
                      serverNonce: seq<Byte>, newNonce: seq<Byte>,
                      pq: nat, p: nat, q: nat, random: seq<Byte>, sealed: seq<Byte>)
    requires ValidSetup(su, cc, sc) && InRange(8, msgID) && FromClient(msgID)
    requires |nonce| == 16 == |serverNonce| && |newNonce| == 32 && pq <= PQ_MAX && p <= q < pq
    requires RsaPad.Sealed(su.c, InnerData(cc, Bytes(pq), Bytes(p), Bytes(q), nonce, serverNonce, newNonce), sc.pub,
                           random, sealed)
    ensures CarriesInner(su, cc, sc, Post(msgID, REQ_DH,
                                          [VRaw(nonce), VRaw(serverNonce), VBytes(Bytes(p)), VBytes(Bytes(q)),
                                                          VLong(su.fingerprint(sc.pub)), VBytes(sealed)]), newNonce)
  {
    FactorsShort(pq, p, q);
    var inner := InnerData(cc, Bytes(pq), Bytes(p), Bytes(q), nonce, serverNonce, newNonce);
    RsaPad.ServerReads(su.c, sc.pub, sc.priv, inner, random, sealed);
    InnerDataArrives(cc, sc.dc, Bytes(pq), Bytes(p), Bytes(q), nonce, serverNonce, newNonce,
                     random[..RsaPad.PADDED - |inner|]);
    ReqDHArrives(msgID, nonce, serverNonce, Bytes(p), Bytes(q), su.fingerprint(sc.pub), sealed);
  }

  /** Among the offered fingerprints only the server's key can be chosen, and it is whenever the client has it. */
  lemma SelectsServerKey(su: Setup, cc: ClientConfig, sc: ServerConfig)
    requires ValidSetup(su, cc, sc)
    ensures SelectKey(su, cc.keys, [su.fingerprint(sc.pub)]) == if sc.pub in cc.keys then Some(sc.pub) else None
  {
  }

  /** The client knows the server's key and could factor pq, draw its nonce and seal the inner data. */
  ghost predicate CanSeal(cc: ClientConfig, sc: ServerConfig, pq: nat, ch: ClientChoice)
  {
    sc.pub in cc.keys && pq <= 0x8000_0000_0000_0000 && ch.factors.Split? && ch.newNonce.Some? && ch.sealed.Some?
  }

  /** The client recognises its own request and sends the sealed inner data, or stops for a reason of its own. */
  lemma ResPQOutcome(su: Setup, cc: ClientConfig, sc: ServerConfig, n: seq<Byte>, sn: seq<Byte>, pq: nat,
                     frame: seq<Byte>, ch: ClientChoice)
    requires ValidSetup(su, cc, sc) && |n| == 16 == |sn| && ClientChoiceOk(ch) && ResPQChoiceOk(su, cc, n, frame, ch)
    requires ReadResPQ(frame) == Got(ResPQ(n, sn, Bytes(pq), [su.fingerprint(sc.pub)]))
    ensures var m := ClientOnResPQ(su, cc, n, frame, ch);
            if CanSeal(cc, sc, pq, ch) then
              && |m.out| == 1 && m.state == CWaitDH(n, sn, ch.newNonce.value)
              && CarriesInner(su, cc, sc, m.out[0], ch.newNonce.value)
            else m.state.CFailed? && m.out == [] && (Local(m.state.why) || (m.state.why.DividesByZero? && pq < 2))
  {
    BytesInverse(pq);
    SelectsServerKey(su, cc, sc);
    if CanSeal(cc, sc, pq, ch) {
      SealSent(su, cc, sc, n, sn, pq, frame, ch);
      SealedArrives(su, cc, sc, ch.msgID, n, sn, ch.newNonce.value, pq, ch.factors.p, ch.factors.q,
                    ch.sealRandom, ch.sealed.value);
    }
  }

  lemma SealSent(su: Setup, cc: ClientConfig, sc: ServerConfig, n: seq<Byte>, sn: seq<Byte>, pq: nat, frame: seq<Byte>,
                 ch: ClientChoice)
    requires ValidSetup(su, cc, sc) && CanSeal(cc, sc, pq, ch)
    requires ReadResPQ(frame) == Got(ResPQ(n, sn, Bytes(pq), [su.fingerprint(sc.pub)]))
    ensures ClientOnResPQ(su, cc, n, frame, ch) ==
            ClientMove(CWaitDH(n, sn, ch.newNonce.value),
                       [Post(ch.msgID, REQ_DH,
                             [VRaw(n), VRaw(sn), VBytes(Bytes(ch.factors.p)), VBytes(Bytes(ch.factors.q)),
                                                VLong(su.fingerprint(sc.pub)), VBytes(ch.sealed.value)])])
  {
    BytesInverse(pq);
    SelectsServerKey(su, cc, sc);
  }

  lemma ResPQStep(su: Setup, cc: ClientConfig, sc: ServerConfig, s: System, ch: ClientChoice, s': System)
    requires ValidSetup(su, cc, sc) && Inv(su, cc, sc, s) && s.client.CWaitPQ? && ClientMoves(su, cc, s, ch, s')
    ensures Inv(su, cc, sc, s')
  {
    var n, sn, pq := s.client.nonce, s.server.serverNonce, s.server.pq;
    ResPQOutcome(su, cc, sc, n, sn, pq, s.toClient[0], ch);
    if CanSeal(cc, sc, pq, ch) {
      InvSealed(su, cc, sc, s', n, sn, pq, ch.newNonce.value);
    } else {
      InvStopped(su, cc, sc, s', n, sn, pq);
    }
  }

  lemma InvSealed(su: Setup, cc: ClientConfig, sc: ServerConfig, s: System, n: seq<Byte>, sn: seq<Byte>, pq: nat,
                  nn: seq<Byte>)
    requires Lawful(su.c) && sc.priv.n > 0 && |n| == 16 == |sn| && |nn| == 32 && ByteLen(pq) <= LONGEST
    requires s.client == CWaitDH(n, sn, nn) && s.server == SWaitDH(n, sn, pq) && |s.toServer| == 1 && s.toClient == []
    requires CarriesInner(su, cc, sc, s.toServer[0], nn)
    ensures Inv(su, cc, sc, s)
  {
  }

  lemma InvStopped(su: Setup, cc: ClientConfig, sc: ServerConfig, s: System, n: seq<Byte>, sn: seq<Byte>, pq: nat)
    requires Lawful(su.c) && sc.priv.n > 0 && |n| == 16 == |sn| && ByteLen(pq) <= LONGEST
    requires s.client.CFailed? && s.server == SWaitDH(n, sn, pq) && ClientExcuse(s.client.why, s.server) &&
             s.toServer == []
    ensures Inv(su, cc, sc, s)
  {
  }

  /** A residue is no longer than its modulus. */
  lemma ResidueShort(p: nat, x: nat)
    requires x < p && ByteLen(p) <= LONGEST
    ensures ByteLen(x) <= LONGEST
  {
    FitsWidth(LONGEST, p);
    FitsWidth(LONGEST, x);
  }

  /** The server serves this data centre, has its numbers and the randomness to answer. */
  ghost predicate CanAnswer(cc: ClientConfig, sc: ServerConfig, server: ServerState, ch: ServerChoice)
    requires server.SWaitDH? && ServerChoiceOk(ch)
  {
    cc.dc == sc.dc && ch.p.Some? && ch.a.Some? &&
      HashedAnswer.PadLen(|GroupMessage(server.nonce, server.serverNonce, ch.p.value,
                                        ModExp(GENERATOR, ch.a.value, ch.p.value), ch.time)|) <= |ch.padding|
  }

  /** The server opens the inner data and answers with its group, or stops for a reason of its own. */
  lemma SecondOutcome(su: Setup, cc: ClientConfig, sc: ServerConfig, server: ServerState, nn: seq<Byte>,
                      frame: seq<Byte>, ch: ServerChoice)
    requires ValidSetup(su, cc, sc) && server.SWaitDH? && ServerSized(server) && ServerChoiceOk(ch) && |nn| == 32
    requires CarriesInner(su, cc, sc, frame, nn)
    ensures var m := ServerOnSecond(su, sc, server, frame, ch);
            if CanAnswer(cc, sc, server, ch) then
              && |m.out| == 1 && m.state == SWaitClient(server.nonce, server.serverNonce, nn, ch.a.value, ch.p.value)
              && ReadServerDH(su, server.nonce, server.serverNonce, nn, m.out[0]) ==
                 Got(Group(GENERATOR, ch.p.value, ModExp(GENERATOR, ch.a.value, ch.p.value)))
            else m.state.SFailed? && Local(m.state.why) && m.out == []
  {
    if CanAnswer(cc, sc, server, ch) {
      var p, gA := ch.p.value, ModExp(GENERATOR, ch.a.value, ch.p.value);
      ResidueShort(p, gA);
      GroupSent(su, cc, sc, server, nn, frame, ch);
      GroupArrives(ch.msgID, su, server.nonce, server.serverNonce, nn, p, gA, ch.time,
                   ch.padding[..HashedAnswer.PadLen(|GroupMessage(server.nonce, server.serverNonce, p, gA, ch.time)|)]);
    }
  }

  lemma GroupSent(su: Setup, cc: ClientConfig, sc: ServerConfig, server: ServerState, nn: seq<Byte>, frame: seq<Byte>,
                  ch: ServerChoice)
    requires Lawful(su.c) && sc.priv.n > 0 && server.SWaitDH? && ServerChoiceOk(ch)
    requires CarriesInner(su, cc, sc, frame, nn) && CanAnswer(cc, sc, server, ch)
    ensures var inner := GroupMessage(server.nonce, server.serverNonce, ch.p.value,
                                      ModExp(GENERATOR, ch.a.value, ch.p.value), ch.time);
            var keys := AnswerKeys(su, nn, server.serverNonce);
            var enc := HashedAnswer.Encrypted(su.c, inner, ch.padding[..HashedAnswer.PadLen(|inner|)], keys.0, keys.1);
            ServerOnSecond(su, sc, server, frame, ch) ==
            ServerMove(SWaitClient(server.nonce, server.serverNonce, nn, ch.a.value, ch.p.value),
                       [Post(ch.msgID, DH_OK, [VRaw(server.nonce), VRaw(server.serverNonce), VBytes(enc)])])
  {
  }

  lemma SecondStep(su: Setup, cc: ClientConfig, sc: ServerConfig, s: System, ch: ServerChoice, s': System)
    requires ValidSetup(su, cc, sc) && Inv(su, cc, sc, s) && s.server.SWaitDH? && ServerMoves(su, sc, s, ch, s')
    ensures Inv(su, cc, sc, s')
  {
    SecondOutcome(su, cc, sc, s.server, s.client.newNonce, s.toServer[0], ch);
  }

  /** The client accepts the group, both public values and has the randomness to answer. */
  ghost predicate Sendable(su: Setup, n: seq<Byte>, sn: seq<Byte>, p: nat, gA: nat, ch: ClientChoice)
    requires p > 0
  {
    && DHCache.Accepts(su.prime, GENERATOR, p) && ch.b.Some?
    && CheckRange(p, GENERATOR, gA, ModExp(GENERATOR, ch.b.value, p))
    && HashedAnswer.PadLen(|PublicMessage(n, sn, ModExp(GENERATOR, ch.b.value, p))|) <= |ch.padding|
  }

  /** The client answers an acceptable group with its public value, or stops for a reason of its own. */
  lemma ServerDHOutcome(su: Setup, n: seq<Byte>, sn: seq<Byte>, nn: seq<Byte>, p: nat, gA: nat, frame: seq<Byte>,
                        ch: ClientChoice)
    requires Lawful(su.c) && |n| == 16 == |sn| && ClientChoiceOk(ch) && p > 0
    requires ReadServerDH(su, n, sn, nn, frame) == Got(Group(GENERATOR, p, gA))
    ensures var m := ClientOnServerDH(su, n, sn, nn, frame, ch);
            if Sendable(su, n, sn, p, gA, ch) then
              && |m.out| == 1 && DHCache.FullWidth(p) && m.state == CWaitGen(n, sn, nn, gA, ch.b.value, p)
              && ReadClientDH(su, sn, nn, m.out[0]) == Got(ModExp(GENERATOR, ch.b.value, p))
            else m.state.CFailed? && Local(m.state.why) && m.out == []
  {
    if Sendable(su, n, sn, p, gA, ch) {
      var gB := ModExp(GENERATOR, ch.b.value, p);
      FitsWidth(DHCache.KEY_BYTES, p);
      ResidueShort(p, gB);
      PublicSent(su, n, sn, nn, p, gA, frame, ch);
      PublicArrives(ch.msgID, su, n, sn, nn, gB, ch.padding[..HashedAnswer.PadLen(|PublicMessage(n, sn, gB)|)]);
    } else {
      PublicRefused(su, n, sn, nn, p, gA, ch);
    }
  }

  lemma PublicRefused(su: Setup, n: seq<Byte>, sn: seq<Byte>, nn: seq<Byte>, p: nat, gA: nat, ch: ClientChoice)
    requires Lawful(su.c) && p > 0 && !Sendable(su, n, sn, p, gA, ch)
    ensures var m := ClientOnGroup(su, n, sn, nn, Got(Group(GENERATOR, p, gA)), ch);
            m.state.CFailed? && Local(m.state.why) && m.out == []
  {
  }

  lemma PublicSent(su: Setup, n: seq<Byte>, sn: seq<Byte>, nn: seq<Byte>, p: nat, gA: nat, frame: seq<Byte>,
                   ch: ClientChoice)
    requires Lawful(su.c) && p > 0 && Sendable(su, n, sn, p, gA, ch)
    requires ReadServerDH(su, n, sn, nn, frame) == Got(Group(GENERATOR, p, gA))
    ensures var inner := PublicMessage(n, sn, ModExp(GENERATOR, ch.b.value, p));
            var keys := AnswerKeys(su, nn, sn);
            var enc := HashedAnswer.Encrypted(su.c, inner, ch.padding[..HashedAnswer.PadLen(|inner|)], keys.0, keys.1);
            ClientOnServerDH(su, n, sn, nn, frame, ch) ==
            ClientMove(CWaitGen(n, sn, nn, gA, ch.b.value, p),
                       [Post(ch.msgID, SET_DH, [VRaw(n), VRaw(sn), VBytes(enc)])])
  {
  }

  lemma ServerDHStep(su: Setup, cc: ClientConfig, sc: ServerConfig, s: System, ch: ClientChoice, s': System)
    requires ValidSetup(su, cc, sc) && Inv(su, cc, sc, s) && s.client.CWaitDH? && ClientMoves(su, cc, s, ch, s')
    ensures Inv(su, cc, sc, s')
  {
    var p := s.server.p;
    ServerDHOutcome(su, s.client.nonce, s.client.serverNonce, s.client.newNonce, p, ModExp(GENERATOR, s.server.a, p),
                    s.toClient[0], ch);
  }

  lemma ClientDHStep(su: Setup, cc: ClientConfig, sc: ServerConfig, s: System, ch: ServerChoice, s': System)
    requires ValidSetup(su, cc, sc) && Inv(su, cc, sc, s) && s.server.SWaitClient? && ServerMoves(su, sc, s, ch, s')
    ensures Inv(su, cc, sc, s')
  {
    var n, sn, nn, a, b, p := s.client.nonce, s.client.serverNonce, s.client.newNonce, s.server.a, s.client.b,
                              s.server.p;
    SharedSecret(GENERATOR, a, b, p);
    var key := BE(AUTH_KEY, ModExp(ModExp(GENERATOR, b, p), a, p));
    GenArrives(ch.msgID, n, sn, HashedAnswer.NonceHash1(su.c, nn, key));
  }

  lemma GenStep(su: Setup, cc: ClientConfig, sc: ServerConfig, s: System, ch: ClientChoice, s': System)
    requires ValidSetup(su, cc, sc) && Inv(su, cc, sc, s) && s.client.CWaitGen? && ClientMoves(su, cc, s, ch, s')
    ensures Inv(su, cc, sc, s')
  {
  }

  lemma StepKeepsInv(su: Setup, cc: ClientConfig, sc: ServerConfig, s: System, s': System)
    requires ValidSetup(su, cc, sc) && Inv(su, cc, sc, s) && Next(su, cc, sc, s, s')
    ensures Inv(su, cc, sc, s')
  {
    if exists ch :: ClientMoves(su, cc, s, ch, s') {
      var ch :| ClientMoves(su, cc, s, ch, s');
      match s.client {
        case CInit => StartStep(su, cc, sc, s, ch, s');
        case CWaitPQ(_) => ResPQStep(su, cc, sc, s, ch, s');
        case CWaitDH(_, _, _) => ServerDHStep(su, cc, sc, s, ch, s');
        case CWaitGen(_, _, _, _, _, _) => GenStep(su, cc, sc, s, ch, s');
        case _ =>
      }
    } else {
      var ch :| ServerMoves(su, sc, s, ch, s');
      match s.server {
        case SWaitReq => ReqStep(su, cc, sc, s, ch, s');
        case SWaitDH(_, _, _) => SecondStep(su, cc, sc, s, ch, s');
        case SWaitClient(_, _, _, _, _) => ClientDHStep(su, cc, sc, s, ch, s');
        case _ =>
      }
    }
  }

  // ---------------------------------------------------------------- what the key is

  /**
    The key is g^(ab) mod p in 256 bytes, its identifier ends its digest, and the salt's bytes are
    the exclusive or of the nonces' first eight.
   */
  ghost predicate KeyFrom(su: Setup, a: nat, b: nat, p: nat, newNonce: seq<Byte>, serverNonce: seq<Byte>,
                          key: seq<Byte>,
                          id: seq<Byte>, salt: int)
  {
    && p > 0 && |key| == 256 && FromBE(key) == Pow(3, a * b) % p
    && HashedAnswer.Identifies(su.c, key, id)
    && |newNonce| == 32 && |serverNonce| == 16 && LE(8, salt) == Xor(newNonce[..8], serverNonce[..8])
  }

  lemma KeyIsFrom(su: Setup, a: nat, b: nat, p: nat, newNonce: seq<Byte>, serverNonce: seq<Byte>)
    requires Lawful(su.c) && DHCache.FullWidth(p) && |newNonce| == 32 && |serverNonce| == 16
    ensures var key := BE(AUTH_KEY, ModExp(ModExp(GENERATOR, a, p), b, p));
            KeyFrom(su, a, b, p, newNonce, serverNonce, key, HashedAnswer.KeyId(su.c, key),
                    HashedAnswer.ServerSalt(newNonce, serverNonce))
  {
    var x := ModExp(ModExp(GENERATOR, a, p), b, p);
    SecretIsPower(GENERATOR, a, b, p);
    BEInverse(AUTH_KEY, x);
    HashedAnswer.KeyIdIdentifies(su.c, BE(AUTH_KEY, x));
    HashedAnswer.SaltBytes(newNonce, serverNonce);
  }

  /** The server's last step makes the key from both exponents. */
  lemma ServerMakesKey(su: Setup, cc: ClientConfig, sc: ServerConfig, s: System, ch: ServerChoice, s': System)
    requires ValidSetup(su, cc, sc) && Inv(su, cc, sc, s) && s.server.SWaitClient? && ServerMoves(su, sc, s, ch, s')
    ensures s.client.CWaitGen? && s.client.p == s.server.p && s.client.newNonce == s.server.newNonce
    ensures s'.server.SDone? &&
            KeyFrom(su, s.server.a, s.client.b, s.server.p, s.server.newNonce, s.server.serverNonce, s'.server.key,
                    s'.server.id, s'.server.salt)
  {
    var a, b, p := s.server.a, s.client.b, s.server.p;
    SharedSecret(GENERATOR, a, b, p);
    KeyIsFrom(su, a, b, p, s.server.newNonce, s.server.serverNonce);
  }

  // ---------------------------------------------------------------- whole runs

  ghost predicate Run(su: Setup, cc: ClientConfig, sc: ServerConfig, run: seq<System>)
    requires Lawful(su.c) && sc.priv.n > 0
  {
    |run| > 0 && Initial(run[0]) && forall i :: 0 < i < |run| ==> Next(su, cc, sc, run[i - 1], run[i])
  }

  lemma {:induction false} RunKeepsInv(su: Setup, cc: ClientConfig, sc: ServerConfig, run: seq<System>, i: nat)
    requires ValidSetup(su, cc, sc) && Run(su, cc, sc, run) && i < |run|
    ensures Inv(su, cc, sc, run[i])
  {
    if i > 0 {
      RunKeepsInv(su, cc, sc, run, i - 1);
      StepKeepsInv(su, cc, sc, run[i - 1], run[i]);
    }
  }

  /** The last change of the server before state `i`. */
  lemma {:induction false} LastServerMove(run: seq<System>, i: nat) returns (j: nat)
    requires i < |run| && run[0].server != run[i].server
    ensures j < i && run[j].server != run[j + 1].server && run[j + 1].server == run[i].server
  {
    j := i - 1;
    if run[j].server == run[i].server { j := LastServerMove(run, j); }
  }

  /** A finished server made its key in a step before which both exponents were chosen. */
  lemma KeyWasMade(su: Setup, cc: ClientConfig, sc: ServerConfig, run: seq<System>, i: nat) returns (j: nat)
    requires ValidSetup(su, cc, sc) && Run(su, cc, sc, run) && i < |run| && run[i].server.SDone?
    ensures j < i && Made(su, run[j], run[i].server)
  {
    j := LastServerMove(run, i);
    KeyStepAt(su, cc, sc, run, j + 1);
  }

  /** `s` had what the server's key in `t` is made of. */
  ghost predicate Made(su: Setup, s: System, t: ServerState)
  {
    && s.client.CWaitGen? && s.server.SWaitClient? && t.SDone?
    && KeyFrom(su, s.server.a, s.client.b, s.server.p, s.server.newNonce, s.server.serverNonce, t.key, t.id, t.salt)
  }

  lemma KeyStep(su: Setup, cc: ClientConfig, sc: ServerConfig, s: System, s': System)
    requires ValidSetup(su, cc, sc) && Inv(su, cc, sc, s) && Next(su, cc, sc, s, s') && s'.server.SDone?
    ensures s.server == s'.server || Made(su, s, s'.server)
  {
    if ch :| ServerMoves(su, sc, s, ch, s') {
      OnlyLastStepEnds(su, sc, s, ch, s');
      ServerMakesKey(su, cc, sc, s, ch, s');
    } else {
      var ch :| ClientMoves(su, cc, s, ch, s');
    }
  }

  lemma KeyStepAt(su: Setup, cc: ClientConfig, sc: ServerConfig, run: seq<System>, i: nat)
    requires ValidSetup(su, cc, sc) && Run(su, cc, sc, run) && i < |run| && run[i].server.SDone?
    ensures i > 0 && (run[i - 1].server == run[i].server || Made(su, run[i - 1], run[i].server))
  {
    if i > 0 {
      RunKeepsInv(su, cc, sc, run, i - 1);
      KeyStep(su, cc, sc, run[i - 1], run[i]);
    }
  }

  lemma OnlyLastStepEnds(su: Setup, sc: ServerConfig, s: System, ch: ServerChoice, s': System)
    requires Lawful(su.c) && sc.priv.n > 0 && ServerMoves(su, sc, s, ch, s') && s'.server.SDone?
    ensures s.server.SWaitClient?
  {
  }

  /**
    In every run, when both sides have succeeded they hold the same key, key identifier and salt: those
    made of the two exponents and the nonces they had in an earlier state.
   */
  lemma BothSidesAgree(su: Setup, cc: ClientConfig, sc: ServerConfig, run: seq<System>, i: nat) returns (j: nat)
    requires ValidSetup(su, cc, sc) && Run(su, cc, sc, run) && i < |run|
    requires run[i].client.CDone? && run[i].server.SDone?
    ensures EndsAgree(run[i])
    ensures j < i && run[j].client.CWaitGen? && run[j].server.SWaitClient?
    ensures var c, s, t := run[j].client, run[j].server, run[i].client;
            KeyFrom(su, s.a, c.b, s.p, s.newNonce, s.serverNonce, t.key, t.id, t.salt)
  {
    RunKeepsInv(su, cc, sc, run, i);
    j := KeyWasMade(su, cc, sc, run, i);
  }

  /**
    No run ever fails on decoding, a nonce, a hash or a key size: only on a side's own random
    source, keys or checks, or on a pq below two from the server's generator.
   */
  lemma OnlyLocalFailures(su: Setup, cc: ClientConfig, sc: ServerConfig, run: seq<System>, i: nat)
    requires ValidSetup(su, cc, sc) && Run(su, cc, sc, run) && i < |run|
    ensures run[i].client.CFailed? ==>
              || run[i].client.why in {UnknownKey, BadPq, NoFactors, NoRandom, WrongDC, BadGroup, BadRange}
              || (run[i].client.why == DividesByZero && run[i].server.SWaitDH? && run[i].server.pq < 2)
    ensures run[i].server.SFailed? ==>
              run[i].server.why in {UnknownKey, BadPq, NoFactors, NoRandom, WrongDC, BadGroup, BadRange}
    ensures run[i].client.CDone? ==> run[i].server.SDone?
  {
    RunKeepsInv(su, cc, sc, run, i);
  }

  /** Until both are done or one has failed, exactly one message is in flight and its receiver is waiting for it. */
  lemma NeverStuck(su: Setup, cc: ClientConfig, sc: ServerConfig, run: seq<System>, i: nat)
    requires ValidSetup(su, cc, sc) && Run(su, cc, sc, run) && i < |run|
    requires !run[i].client.CFailed? && !run[i].server.SFailed? && !run[i].client.CDone? && !run[i].client.CInit?
    ensures var s := run[i];
            || (|s.toServer| == 1 && s.toClient == [] && ServerWaits(s.server) && ServerSized(s.server))
            || (|s.toClient| == 1 && s.toServer == [] && ClientWaits(s.client) && ClientSized(s.client))
  {
    RunKeepsInv(su, cc, sc, run, i);
  }

  // ---------------------------------------------------------------- runs that succeed

  /** Both sides have what they need: randomness, a configured key, acceptable numbers and the same data centre. */
  ghost predicate Equipped(su: Setup, cc: ClientConfig, sc: ServerConfig, c0: ClientChoice, s0: ServerChoice,
                           c1: ClientChoice,
                           s1: ServerChoice, c2: ClientChoice, s2: ServerChoice, c3: ClientChoice)
  {
    && c0.nonce.Some? && s0.serverNonce.Some? && s0.pq.Some? && s0.pq.value <= PQ_MAX
    && sc.pub in cc.keys && SealFits(su, cc, sc, c0.nonce.value, s0.serverNonce.value, s0.pq.value, c1)
    && cc.dc == sc.dc && s1.p.Some? && s1.a.Some? && |s1.padding| >= 15
    && DHCache.Accepts(su.prime, GENERATOR, s1.p.value) && c2.b.Some? && |c2.padding| >= 15
    && CheckRange(s1.p.value, GENERATOR, ModExp(GENERATOR, s1.a.value, s1.p.value),
                  ModExp(GENERATOR, c2.b.value, s1.p.value))
    && c3.session
  }

  /** The client factored pq, drew its second nonce and padded the inner data for the server's key. */
  ghost predicate SealFits(su: Setup, cc: ClientConfig, sc: ServerConfig, nonce: seq<Byte>, serverNonce: seq<Byte>,
                           pq: nat, ch: ClientChoice)
  {
    && ch.factors.Split? && ch.newNonce.Some? && ch.sealed.Some? && sc.pub.n > 0
    && var p, q := ch.factors.p, ch.factors.q;
       1 < p <= q < pq && p * q == pq &&
       RsaPad.Sealed(su.c, InnerData(cc, Bytes(pq), Bytes(p), Bytes(q), nonce, serverNonce, ch.newNonce.value), sc.pub,
                     ch.sealRandom, ch.sealed.value)
  }

  lemma FittingSealIsAdmitted(su: Setup, cc: ClientConfig, sc: ServerConfig, nonce: seq<Byte>, serverNonce: seq<Byte>,
                              pq: nat, frame: seq<Byte>, ch: ClientChoice)
    requires ValidSetup(su, cc, sc) && SealFits(su, cc, sc, nonce, serverNonce, pq, ch)
    requires ReadResPQ(frame) == Got(ResPQ(nonce, serverNonce, Bytes(pq), [su.fingerprint(sc.pub)]))
    ensures ResPQChoiceOk(su, cc, nonce, frame, ch)
  {
    BytesInverse(pq);
    SelectsServerKey(su, cc, sc);
  }

  ghost function ClientNext(su: Setup, cc: ClientConfig, s: System, ch: ClientChoice): System
    requires Lawful(su.c) && (s.client.CInit? || (ClientWaits(s.client) && ClientSized(s.client) && s.toClient != []))
  {
    if s.client.CInit? then s.(client := ClientStart(ch).state, toServer := s.toServer + ClientStart(ch).out)
    else
      var m := ClientOn(su, cc, s.client, s.toClient[0], ch);
      s.(client := m.state, toServer := s.toServer + m.out, toClient := s.toClient[1..])
  }

  ghost function ServerNext(su: Setup, sc: ServerConfig, s: System, ch: ServerChoice): System
    requires Lawful(su.c) && sc.priv.n > 0 && ServerWaits(s.server) && ServerSized(s.server) && ServerChoiceOk(ch) &&
             s.toServer != []
  {
    var m := ServerOn(su, sc, s.server, s.toServer[0], ch);
    s.(server := m.state, toClient := s.toClient + m.out, toServer := s.toServer[1..])
  }

  /** After the first answer the client waits for it with the server's nonce and pq fixed. */
  lemma OpeningSucceeds(su: Setup, cc: ClientConfig, sc: ServerConfig, c0: ClientChoice, s0: ServerChoice)
    returns (a: System, b: System)
    requires ValidSetup(su, cc, sc) && ClientChoiceOk(c0) && ServerChoiceOk(s0) && c0.nonce.Some? &&
             s0.serverNonce.Some? && s0.pq.Some?
    ensures Next(su, cc, sc, System(CInit, SWaitReq, [], []), a) && Next(su, cc, sc, a, b) && Inv(su, cc, sc, b)
    ensures b.client == CWaitPQ(c0.nonce.value) &&
            b.server == SWaitDH(c0.nonce.value, s0.serverNonce.value, s0.pq.value)
  {
    var s := System(CInit, SWaitReq, [], []);
    a := ClientNext(su, cc, s, c0);
    assert ClientMoves(su, cc, s, c0, a);
    StartStep(su, cc, sc, s, c0, a);
    b := ServerNext(su, sc, a, s0);
    assert ServerMoves(su, sc, a, s0, b);
    ReqStep(su, cc, sc, a, s0, b);
  }

  lemma SealSucceeds(su: Setup, cc: ClientConfig, sc: ServerConfig, s: System, c1: ClientChoice) returns (a: System)
    requires ValidSetup(su, cc, sc) && Inv(su, cc, sc, s) && ClientChoiceOk(c1) && s.client.CWaitPQ? &&
             s.server.SWaitDH?
    requires sc.pub in cc.keys && s.server.pq <= PQ_MAX &&
             SealFits(su, cc, sc, s.client.nonce, s.server.serverNonce, s.server.pq, c1)
    ensures Next(su, cc, sc, s, a) && Inv(su, cc, sc, a) && a.client.CWaitDH? && a.server == s.server
    ensures a.client.newNonce == c1.newNonce.value
  {
    FittingSealIsAdmitted(su, cc, sc, s.client.nonce, s.server.serverNonce, s.server.pq, s.toClient[0], c1);
    a := ClientNext(su, cc, s, c1);
    assert ClientMoves(su, cc, s, c1, a);
    ResPQOutcome(su, cc, sc, s.client.nonce, s.server.serverNonce, s.server.pq, s.toClient[0], c1);
    ResPQStep(su, cc, sc, s, c1, a);
  }

  lemma GroupSucceeds(su: Setup, cc: ClientConfig, sc: ServerConfig, s: System, s1: ServerChoice) returns (a: System)
    requires ValidSetup(su, cc, sc) && Inv(su, cc, sc, s) && ServerChoiceOk(s1) && s.client.CWaitDH? &&
             s.server.SWaitDH?
    requires cc.dc == sc.dc && s1.p.Some? && s1.a.Some? && |s1.padding| >= 15
    ensures Next(su, cc, sc, s, a) && Inv(su, cc, sc, a) && a.client == s.client
    ensures a.server ==
            SWaitClient(s.server.nonce, s.server.serverNonce, s.client.newNonce, s1.a.value, s1.p.value)
  {
    a := ServerNext(su, sc, s, s1);
    assert ServerMoves(su, sc, s, s1, a);
    SecondOutcome(su, cc, sc, s.server, s.client.newNonce, s.toServer[0], s1);
    SecondStep(su, cc, sc, s, s1, a);
  }

  lemma PublicSucceeds(su: Setup, cc: ClientConfig, sc: ServerConfig, s: System, c2: ClientChoice) returns (a: System)
    requires ValidSetup(su, cc, sc) && Inv(su, cc, sc, s) && ClientChoiceOk(c2) && s.client.CWaitDH? &&
             s.server.SWaitClient?
    requires DHCache.Accepts(su.prime, GENERATOR, s.server.p) && c2.b.Some? && |c2.padding| >= 15
    requires CheckRange(s.server.p, GENERATOR, ModExp(GENERATOR, s.server.a, s.server.p),
                        ModExp(GENERATOR, c2.b.value, s.server.p))
    ensures Next(su, cc, sc, s, a) && Inv(su, cc, sc, a) && a.client.CWaitGen? && a.server == s.server
    ensures a.client.b == c2.b.value
  {
    a := ClientNext(su, cc, s, c2);
    assert ClientMoves(su, cc, s, c2, a);
    var p := s.server.p;
    PublicSent(su, s.client.nonce, s.client.serverNonce, s.client.newNonce, p, ModExp(GENERATOR, s.server.a, p),
               s.toClient[0], c2);
    ServerDHStep(su, cc, sc, s, c2, a);
  }

  predicate EndsAgree(s: System)
    requires s.client.CDone? && s.server.SDone?
  {
    s.client.key == s.server.key && s.client.id == s.server.id && s.client.salt == s.server.salt
  }

  lemma ClosingSucceeds(su: Setup, cc: ClientConfig, sc: ServerConfig, s: System, s2: ServerChoice, c3: ClientChoice)
    returns (a: System, b: System)
    requires ValidSetup(su, cc, sc) && Inv(su, cc, sc, s) && ServerChoiceOk(s2) && ClientChoiceOk(c3) && c3.session
    requires s.client.CWaitGen? && s.server.SWaitClient?
    ensures Next(su, cc, sc, s, a) && Next(su, cc, sc, a, b) && Inv(su, cc, sc, b) && b.client.CDone? && b.server.SDone?
    ensures EndsAgree(b)
    ensures KeyFrom(su, s.server.a, s.client.b, s.server.p, s.server.newNonce, s.server.serverNonce, b.client.key,
                    b.client.id, b.client.salt)
  {
    a := ServerNext(su, sc, s, s2);
    assert ServerMoves(su, sc, s, s2, a);
    ClientDHStep(su, cc, sc, s, s2, a);
    ServerMakesKey(su, cc, sc, s, s2, a);
    b := ClientNext(su, cc, a, c3);
    assert ClientMoves(su, cc, a, c3, b);
    GenStep(su, cc, sc, a, c3, b);
  }

  lemma FirstHalf(su: Setup, cc: ClientConfig, sc: ServerConfig, c0: ClientChoice, s0: ServerChoice, c1: ClientChoice)
    returns (r1: System, r2: System, r3: System)
    requires ValidSetup(su, cc, sc) && ClientChoiceOk(c0) && ServerChoiceOk(s0) && ClientChoiceOk(c1)
    requires c0.nonce.Some? && s0.serverNonce.Some? && s0.pq.Some? && s0.pq.value <= PQ_MAX && sc.pub in cc.keys
    requires SealFits(su, cc, sc, c0.nonce.value, s0.serverNonce.value, s0.pq.value, c1)
    ensures Next(su, cc, sc, System(CInit, SWaitReq, [], []), r1) && Next(su, cc, sc, r1, r2) &&
            Next(su, cc, sc, r2, r3)
    ensures Inv(su, cc, sc, r3) && r3.client.CWaitDH? && r3.server.SWaitDH?
    ensures r3.client.newNonce == c1.newNonce.value && r3.server.serverNonce == s0.serverNonce.value
  {
    r1, r2 := OpeningSucceeds(su, cc, sc, c0, s0);
    r3 := SealSucceeds(su, cc, sc, r2, c1);
  }

  lemma SecondHalf(su: Setup, cc: ClientConfig, sc: ServerConfig, r3: System, s1: ServerChoice, c2: ClientChoice,
                   s2: ServerChoice, c3: ClientChoice)
    returns (r4: System, r5: System, r6: System, r7: System)
    requires ValidSetup(su, cc, sc) && Inv(su, cc, sc, r3) && r3.client.CWaitDH? && r3.server.SWaitDH?
    requires ServerChoiceOk(s1) && ClientChoiceOk(c2) && ServerChoiceOk(s2) && ClientChoiceOk(c3) && c3.session
    requires cc.dc == sc.dc && s1.p.Some? && s1.a.Some? && |s1.padding| >= 15
    requires DHCache.Accepts(su.prime, GENERATOR, s1.p.value) && c2.b.Some? && |c2.padding| >= 15
    requires CheckRange(s1.p.value, GENERATOR, ModExp(GENERATOR, s1.a.value, s1.p.value),
                        ModExp(GENERATOR, c2.b.value, s1.p.value))
    ensures Next(su, cc, sc, r3, r4) && Next(su, cc, sc, r4, r5) && Next(su, cc, sc, r5, r6) && Next(su, cc, sc, r6, r7)
    ensures r7.client.CDone? && r7.server.SDone? && EndsAgree(r7)
    ensures KeyFrom(su, s1.a.value, c2.b.value, s1.p.value, r3.client.newNonce, r3.server.serverNonce, r7.client.key,
                    r7.client.id, r7.client.salt)
  {
    r4 := GroupSucceeds(su, cc, sc, r3, s1);
    r5 := PublicSucceeds(su, cc, sc, r4, c2);
    r6, r7 := ClosingSucceeds(su, cc, sc, r5, s2, c3);
  }

  lemma Extended(su: Setup, cc: ClientConfig, sc: ServerConfig, run: seq<System>, s: System)
    requires Lawful(su.c) && sc.priv.n > 0 && Run(su, cc, sc, run) && Next(su, cc, sc, run[|run| - 1], s)
    ensures Run(su, cc, sc, run + [s])
  {
    var longer := run + [s];
    forall i | 0 < i < |longer| ensures Next(su, cc, sc, longer[i - 1], longer[i]) {
      if i < |run| { assert longer[i - 1] == run[i - 1]; }
    }
  }

  lemma ThreeMore(su: Setup, cc: ClientConfig, sc: ServerConfig, run: seq<System>, a: System, b: System, c: System)
    returns (longer: seq<System>)
    requires Lawful(su.c) && sc.priv.n > 0 && Run(su, cc, sc, run)
    requires Next(su, cc, sc, run[|run| - 1], a) && Next(su, cc, sc, a, b) && Next(su, cc, sc, b, c)
    ensures |longer| == |run| + 3 && longer[|run| + 2] == c && Run(su, cc, sc, longer)
  {
    Extended(su, cc, sc, run, a);
    Extended(su, cc, sc, run + [a], b);
    Extended(su, cc, sc, run + [a] + [b], c);
    longer := run + [a] + [b] + [c];
  }

  /**
    With what they need, seven steps take both sides to the end, and they agree on the key of their
    exponents, its identifier and the salt of their nonces.
   */
  lemma ExchangeCompletes(su: Setup, cc: ClientConfig, sc: ServerConfig, c0: ClientChoice, s0: ServerChoice,
                          c1: ClientChoice,
                          s1: ServerChoice, c2: ClientChoice, s2: ServerChoice, c3: ClientChoice)
                            returns (run: seq<System>)
    requires ValidSetup(su, cc, sc) && Equipped(su, cc, sc, c0, s0, c1, s1, c2, s2, c3)
    requires ClientChoiceOk(c0) && ClientChoiceOk(c1) && ClientChoiceOk(c2) && ClientChoiceOk(c3)
    requires ServerChoiceOk(s0) && ServerChoiceOk(s1) && ServerChoiceOk(s2)
    ensures |run| == 8 && Run(su, cc, sc, run) && run[7].client.CDone? && run[7].server.SDone? && EndsAgree(run[7])
    ensures KeyFrom(su, s1.a.value, c2.b.value, s1.p.value, c1.newNonce.value, s0.serverNonce.value, run[7].client.key,
                    run[7].client.id, run[7].client.salt)
  {
    var r1, r2, r3, r4, r5, r6, r7 := SevenSteps(su, cc, sc, c0, s0, c1, s1, c2, s2, c3);
    run := EightStates(su, cc, sc, r1, r2, r3, r4, r5, r6, r7);
  }

  /** The seven steps, of which the last leaves both sides done and in agreement. */
  lemma SevenSteps(su: Setup, cc: ClientConfig, sc: ServerConfig, c0: ClientChoice, s0: ServerChoice, c1: ClientChoice,
                   s1: ServerChoice, c2: ClientChoice, s2: ServerChoice, c3: ClientChoice)
    returns (r1: System, r2: System, r3: System, r4: System, r5: System, r6: System, r7: System)
    requires ValidSetup(su, cc, sc) && Equipped(su, cc, sc, c0, s0, c1, s1, c2, s2, c3)
    requires ClientChoiceOk(c0) && ClientChoiceOk(c1) && ClientChoiceOk(c2) && ClientChoiceOk(c3)
    requires ServerChoiceOk(s0) && ServerChoiceOk(s1) && ServerChoiceOk(s2)
    ensures Next(su, cc, sc, System(CInit, SWaitReq, [], []), r1)
    ensures Next(su, cc, sc, r1, r2) && Next(su, cc, sc, r2, r3) && Next(su, cc, sc, r3, r4)
    ensures Next(su, cc, sc, r4, r5) && Next(su, cc, sc, r5, r6) && Next(su, cc, sc, r6, r7)
    ensures r7.client.CDone? && r7.server.SDone? && EndsAgree(r7)
    ensures KeyFrom(su, s1.a.value, c2.b.value, s1.p.value, c1.newNonce.value, s0.serverNonce.value, r7.client.key,
                    r7.client.id, r7.client.salt)
  {
    r1, r2, r3 := FirstHalf(su, cc, sc, c0, s0, c1);
    r4, r5, r6, r7 := SecondHalf(su, cc, sc, r3, s1, c2, s2, c3);
  }

  lemma EightStates(su: Setup, cc: ClientConfig, sc: ServerConfig, r1: System, r2: System, r3: System, r4: System,
                    r5: System, r6: System, r7: System)
    returns (run: seq<System>)
    requires Lawful(su.c) && sc.priv.n > 0 && Next(su, cc, sc, System(CInit, SWaitReq, [], []), r1)
    requires Next(su, cc, sc, r1, r2) && Next(su, cc, sc, r2, r3) && Next(su, cc, sc, r3, r4)
    requires Next(su, cc, sc, r4, r5) && Next(su, cc, sc, r5, r6) && Next(su, cc, sc, r6, r7)
    ensures |run| == 8 && run[7] == r7 && Run(su, cc, sc, run)
  {
    var start := ThreeMore(su, cc, sc, [System(CInit, SWaitReq, [], [])], r1, r2, r3);
    var later := ThreeMore(su, cc, sc, start, r4, r5, r6);
    Extended(su, cc, sc, later, r7);
    run := later + [r7];
  }
}

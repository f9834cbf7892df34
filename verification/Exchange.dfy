/**
  The authorization key exchange as two sequential programs that only share an ordered
  channel in each direction. Random values, clocks and the factorisation are choices made
  at each step; everything else is computed as the client and the server do.
 */
module Exchange {
  import opened Bin
  import opened BigEndian
  import opened Crypto
  import opened ExchangeWire
  import DHCache
  import Factorize
  import HashedAnswer
  import RsaPad

  const AUTH_KEY := 256
  const PQ_MAX := 0x8000_0000_0000_0000
  const GENERATOR := 3

  /** Cryptography, the primality test and the fingerprint of a public key. */
  datatype Setup = Setup(c: Primitives, prime: nat -> bool, fingerprint: RsaPad.PublicKey -> int)

  datatype ClientConfig = ClientConfig(keys: seq<RsaPad.PublicKey>, dc: int, temporary: bool, expiresIn: int)

  datatype ServerConfig = ServerConfig(pub: RsaPad.PublicKey, priv: RsaPad.PrivateKey, dc: int)

  datatype Why =
    | BadEnvelope | BadMessage | NonceMismatch | BadSeal | Undecryptable | HashMismatch | KeyTooBig | Refused
    | UnknownKey | BadPq | DividesByZero | NoFactors | NoRandom | WrongDC | BadGroup | BadRange

  /** Failures caused by one side's own configuration, randomness or parameter checks. */
  predicate Local(w: Why)
  {
    w.UnknownKey? || w.BadPq? || w.NoFactors? || w.NoRandom? || w.WrongDC? || w.BadGroup? || w.BadRange?
  }

  datatype Got<+T> = Got(v: T) | Bad(why: Why)

  // ---------------------------------------------------------------- reading messages

  predicate FromClient(id: int)
  {
    id % 4 == 0
  }

  predicate ServerResponse(id: int)
  {
    id > 0 && id % 4 == 1
  }

  /** `readUnencrypted`: an envelope of the expected direction. */
  function ReadData(frame: seq<Byte>, client: bool): Got<seq<Byte>>
  {
    match OpenEnvelope(frame)
    case None => Bad(BadEnvelope)
    case Some(f) => if (if client then FromClient(f.msgID) else ServerResponse(f.msgID)) then Got(f.data)
                    else Bad(BadEnvelope)
  }

  /** The frame begins with an envelope of this data under an identifier that the sender may use. */
  ghost predicate Plain(frame: seq<Byte>, client: bool, data: seq<Byte>, id: int, rest: seq<Byte>)
  {
    && InRange(8, id) && frame == Envelope(Frame(id, data)) + rest
    && if client then id % 4 == 0 else id > 0 && id % 4 == 1
  }

  /**
    A frame is read as plaintext data exactly when it begins with an envelope of that data whose
    message identifier is a client's, divisible by four, or a server response's, positive and one more.
   */
  lemma ReadDataExact(frame: seq<Byte>, client: bool, data: seq<Byte>)
    requires InRange(4, |data|)
    ensures ReadData(frame, client) == Got(data) <==>
            exists id, rest :: Plain(frame, client, data, id, rest)
  {
    if ReadData(frame, client) == Got(data) {
      var f, rest := EnvelopeOpened(frame);
      assert Plain(frame, client, data, f.msgID, rest);
    }
    if id, rest :| Plain(frame, client, data, id, rest) {
      EnvelopeThen(Frame(id, data), rest);
    }
  }

  /** Later client reads do not look at the message identifier. */
  function ReadAnyData(frame: seq<Byte>): Got<seq<Byte>>
  {
    match OpenEnvelope(frame)
    case None => Bad(BadEnvelope)
    case Some(f) => Got(f.data)
  }

  function Parse(shape: Shape, data: seq<Byte>): (r: Got<seq<Val>>)
    ensures r.Got? ==> TypedAll(shape.fields, r.v)
  {
    match DecMsg(shape, data)
    case None => Bad(BadMessage)
    case Some(vs) => Got(vs)
  }

  /** req_pq or req_pq_multi: the client nonce. */
  function ReqPqNonce(data: seq<Byte>): (r: Got<seq<Byte>>)
    ensures r.Got? ==> |r.v| == 16
  {
    var id := PeekId(data);
    if id == Some(REQ_PQ.id) then
      match Parse(REQ_PQ, data) case Bad(w) => Bad(w) case Got(vs) => Got(vs[0].b)
    else if id == Some(REQ_PQ_MULTI.id) then
      match Parse(REQ_PQ_MULTI, data) case Bad(w) => Bad(w) case Got(vs) => Got(vs[0].b)
    else Bad(BadMessage)
  }

  datatype ResPQ = ResPQ(nonce: seq<Byte>, serverNonce: seq<Byte>, pq: seq<Byte>, fingerprints: seq<int>)

  function ReadResPQ(frame: seq<Byte>): (r: Got<ResPQ>)
    ensures r.Got? ==> |r.v.nonce| == 16 == |r.v.serverNonce|
  {
    match ReadData(frame, false)
    case Bad(w) => Bad(w)
    case Got(data) =>
      match Parse(RES_PQ, data)
      case Bad(w) => Bad(w)
      case Got(vs) => Got(ResPQ(vs[0].b, vs[1].b, vs[2].b, vs[3].vs))
  }

  /** What the server accepts after its first answer: another req_pq, or the sealed inner data. */
  datatype Second = Again(nonce: seq<Byte>) | SealedData(data: seq<Byte>)

  function ReadSecond(frame: seq<Byte>): (r: Got<Second>)
    ensures r.Got? && r.v.Again? ==> |r.v.nonce| == 16
  {
    match ReadData(frame, true)
    case Bad(w) => Bad(w)
    case Got(data) =>
      if PeekId(data).None? then Bad(BadMessage)
      else if PeekId(data) == Some(REQ_DH.id) then
        match Parse(REQ_DH, data)
        case Bad(w) => Bad(w)
        case Got(vs) => Got(SealedData(vs[5].b))
      else
        match ReqPqNonce(data)
        case Bad(w) => Bad(w)
        case Got(n) => Got(Again(n))
  }

  /** The new nonce inside opened inner data; constructors that name a data centre must name this one. */
  function InnerNonce(dc: int, data: seq<Byte>): (r: Got<seq<Byte>>)
    ensures r.Got? ==> |r.v| == 32
  {
    var id := PeekId(data);
    if id == Some(PQ_INNER.id) then
      match Parse(PQ_INNER, data) case Bad(w) => Bad(w) case Got(vs) => Got(vs[5].b)
    else if id == Some(PQ_INNER_DC.id) then
      match Parse(PQ_INNER_DC, data)
      case Bad(w) => Bad(w)
      case Got(vs) => if vs[6].v != dc then Bad(WrongDC) else Got(vs[5].b)
    else if id == Some(PQ_INNER_TEMP_DC.id) then
      match Parse(PQ_INNER_TEMP_DC, data)
      case Bad(w) => Bad(w)
      case Got(vs) => if vs[6].v != dc then Bad(WrongDC) else Got(vs[5].b)
    else Bad(BadMessage)
  }

  function OpenInner(su: Setup, cfg: ServerConfig, enc: seq<Byte>): (r: Got<seq<Byte>>)
    requires cfg.priv.n > 0
    ensures r.Got? ==> |r.v| == 32
  {
    match RsaPad.Decode(su.c, enc, cfg.priv)
    case None => Bad(BadSeal)
    case Some(data) => InnerNonce(cfg.dc, data)
  }

  function AnswerKeys(su: Setup, newNonce: seq<Byte>, serverNonce: seq<Byte>): (r: (seq<Byte>, seq<Byte>))
    requires Lawful(su.c)
    ensures |r.0| == 32 && |r.1| == 32
  {
    HashedAnswer.TempAesKeys(su.c, FromBE(newNonce), FromBE(serverNonce))
  }

  ghost function OpenAnswer(su: Setup, newNonce: seq<Byte>, serverNonce: seq<Byte>, enc: seq<Byte>): Got<seq<Byte>>
    requires Lawful(su.c)
  {
    var keys := AnswerKeys(su, newNonce, serverNonce);
    match HashedAnswer.Decrypted(su.c, enc, keys.0, keys.1)
    case None => Bad(Undecryptable)
    case Some(data) => Got(data)
  }

  datatype Group = Group(g: int, p: nat, gA: nat)

  ghost function ReadServerDH(su: Setup, nonce: seq<Byte>, serverNonce: seq<Byte>, newNonce: seq<Byte>,
                              frame: seq<Byte>): Got<Group>
    requires Lawful(su.c)
  {
    match ReadAnyData(frame)
    case Bad(w) => Bad(w)
    case Got(data) => GroupOf(su, nonce, serverNonce, newNonce, data)
  }

  /** The group inside server_DH_params_ok. */
  ghost function GroupOf(su: Setup, nonce: seq<Byte>, serverNonce: seq<Byte>, newNonce: seq<Byte>,
                         data: seq<Byte>): Got<Group>
    requires Lawful(su.c)
  {
    if PeekId(data) == Some(DH_FAIL.id) then (if Parse(DH_FAIL, data).Got? then Bad(Refused) else Bad(BadMessage))
    else if PeekId(data) != Some(DH_OK.id) then Bad(BadMessage)
    else
      match Parse(DH_OK, data)
      case Bad(w) => Bad(w)
      case Got(vs) =>
        if vs[0].b != nonce || vs[1].b != serverNonce then Bad(NonceMismatch)
        else
          match OpenAnswer(su, newNonce, serverNonce, vs[2].b)
          case Bad(w) => Bad(w)
          case Got(answer) => InnerGroup(nonce, serverNonce, answer)
  }

  function InnerGroup(nonce: seq<Byte>, serverNonce: seq<Byte>, answer: seq<Byte>): Got<Group>
  {
    match Parse(SERVER_INNER, answer)
    case Bad(w) => Bad(w)
    case Got(vs) =>
      if vs[0].b != nonce || vs[1].b != serverNonce then Bad(NonceMismatch)
      else Got(Group(vs[2].v, FromBE(vs[3].b), FromBE(vs[4].b)))
  }

  /** The client's public value; the server does not compare the nonces it gets back. */
  ghost function ReadClientDH(su: Setup, serverNonce: seq<Byte>, newNonce: seq<Byte>, frame: seq<Byte>): Got<nat>
    requires Lawful(su.c)
  {
    match ReadData(frame, true)
    case Bad(w) => Bad(w)
    case Got(data) =>
      match Parse(SET_DH, data)
      case Bad(w) => Bad(w)
      case Got(vs) =>
        match OpenAnswer(su, newNonce, serverNonce, vs[2].b)
        case Bad(w) => Bad(w)
        case Got(answer) =>
          match Parse(CLIENT_INNER, answer)
          case Bad(w) => Bad(w)
          case Got(inner) => Got(FromBE(inner[3].b))
  }

  function ReadGen(nonce: seq<Byte>, serverNonce: seq<Byte>, frame: seq<Byte>): Got<seq<Byte>>
  {
    match ReadAnyData(frame)
    case Bad(w) => Bad(w)
    case Got(data) =>
      var id := PeekId(data);
      if id == Some(GEN_OK.id) then
        match Parse(GEN_OK, data)
        case Bad(w) => Bad(w)
        case Got(vs) => if vs[0].b != nonce || vs[1].b != serverNonce then Bad(NonceMismatch) else Got(vs[2].b)
      else if id == Some(GEN_RETRY.id) then (if Parse(GEN_RETRY, data).Got? then Bad(Refused) else Bad(BadMessage))
      else if id == Some(GEN_FAIL.id) then (if Parse(GEN_FAIL, data).Got? then Bad(Refused) else Bad(BadMessage))
      else Bad(BadMessage)
  }

  // ---------------------------------------------------------------- the client

  datatype ClientState =
    | CInit
    | CWaitPQ(nonce: seq<Byte>)
    | CWaitDH(nonce: seq<Byte>, serverNonce: seq<Byte>, newNonce: seq<Byte>)
    | CWaitGen(nonce: seq<Byte>, serverNonce: seq<Byte>, newNonce: seq<Byte>, gA: nat, b: nat, p: nat)
    | CDone(key: seq<Byte>, id: seq<Byte>, salt: int)
    | CFailed(why: Why)

  /** What the client draws or derives from randomness in one step. */
  datatype ClientChoice = ClientChoice(
    msgID: int, nonce: Option<seq<Byte>>, factors: Factorize.Factored, newNonce: Option<seq<Byte>>,
    sealRandom: seq<Byte>, sealed: Option<seq<Byte>>, b: Option<nat>, padding: seq<Byte>, session: bool)

  predicate ClientChoiceOk(ch: ClientChoice)
  {
    && InRange(8, ch.msgID) && FromClient(ch.msgID)
    && (ch.nonce.Some? ==> |ch.nonce.value| == 16) && (ch.newNonce.Some? ==> |ch.newNonce.value| == 32)
  }

  datatype ClientMove = ClientMove(state: ClientState, out: seq<seq<Byte>>)

  function Stop(w: Why): ClientMove
  {
    ClientMove(CFailed(w), [])
  }

  function Post(msgID: int, shape: Shape, vs: seq<Val>): seq<Byte>
  {
    Envelope(Frame(msgID, EncMsg(shape, vs)))
  }

  function ClientStart(ch: ClientChoice): ClientMove
  {
    if ch.nonce.None? then Stop(NoRandom)
    else ClientMove(CWaitPQ(ch.nonce.value), [Post(ch.msgID, REQ_PQ_MULTI, [VRaw(ch.nonce.value)])])
  }

  /** The first configured key whose fingerprint the server offers. */
  function SelectKey(su: Setup, keys: seq<RsaPad.PublicKey>, offered: seq<int>): (r: Option<RsaPad.PublicKey>)
    ensures r.Some? ==> r.value in keys && su.fingerprint(r.value) in offered
    ensures r.None? ==> forall k :: k in keys ==> su.fingerprint(k) !in offered
  {
    if keys == [] then None
    else if su.fingerprint(keys[0]) in offered then Some(keys[0])
    else SelectKey(su, keys[1..], offered)
  }

  function InnerData(cfg: ClientConfig, pq: seq<Byte>, p: seq<Byte>, q: seq<Byte>, nonce: seq<Byte>,
                     serverNonce: seq<Byte>, newNonce: seq<Byte>): seq<Byte>
  {
    var common := [VBytes(pq), VBytes(p), VBytes(q), VRaw(nonce), VRaw(serverNonce), VRaw(newNonce), VInt(cfg.dc)];
    if cfg.temporary then EncMsg(PQ_INNER_TEMP_DC, common + [VInt(cfg.expiresIn)]) else EncMsg(PQ_INNER_DC, common)
  }

  function ClientOnResPQ(su: Setup, cfg: ClientConfig, nonce: seq<Byte>, frame: seq<Byte>, ch: ClientChoice): ClientMove
  {
    match ReadResPQ(frame)
    case Bad(w) => Stop(w)
    case Got(res) =>
      if res.nonce != nonce then Stop(NonceMismatch)
      else if SelectKey(su, cfg.keys, res.fingerprints).None? then Stop(UnknownKey)
      else if FromBE(res.pq) > PQ_MAX then Stop(BadPq)
      else if ch.factors.DividesByZero? then Stop(DividesByZero)
      else if !ch.factors.Split? then Stop(NoFactors)
      else if ch.newNonce.None? || ch.sealed.None? then Stop(NoRandom)
      else
        var key := SelectKey(su, cfg.keys, res.fingerprints).value;
        var p, q := Bytes(ch.factors.p), Bytes(ch.factors.q);
        ClientMove(CWaitDH(nonce, res.serverNonce, ch.newNonce.value),
                   [Post(ch.msgID, REQ_DH, [VRaw(nonce), VRaw(res.serverNonce), VBytes(p), VBytes(q),
                                            VLong(su.fingerprint(key)), VBytes(ch.sealed.value)])])
  }

  /** The factors and the sealed data are what factorisation and RSA_PAD can return for this answer. */
  ghost predicate ResPQChoiceOk(su: Setup, cfg: ClientConfig, nonce: seq<Byte>, frame: seq<Byte>, ch: ClientChoice)
  {
    ReadResPQ(frame).Got? && SelectKey(su, cfg.keys, ReadResPQ(frame).v.fingerprints).Some? ==>
      var res := ReadResPQ(frame).v;
      var key := SelectKey(su, cfg.keys, res.fingerprints).value;
      && (ch.factors.Split? ==>
            1 < ch.factors.p <= ch.factors.q < FromBE(res.pq) && ch.factors.p * ch.factors.q == FromBE(res.pq))
      && (ch.factors.DividesByZero? ==> FromBE(res.pq) < 2)
      && (ch.factors.Split? && ch.newNonce.Some? && ch.sealed.Some? ==>
            key.n > 0 &&
            RsaPad.Sealed(su.c, InnerData(cfg, res.pq, Bytes(ch.factors.p), Bytes(ch.factors.q), nonce, res.serverNonce,
                                          ch.newNonce.value),
                          key, ch.sealRandom, ch.sealed.value))
  }

  function RangeMin(): nat
  {
    Pow256(248)
  }

  predicate InOpen(x: int, lo: int, hi: int)
  {
    lo < x < hi
  }

  /** `CheckDHParams`. */
  predicate CheckRange(p: nat, g: int, gA: nat, gB: nat)
  {
    && InOpen(g, 1, p - 1) && InOpen(gA, 1, p - 1) && InOpen(gB, 1, p - 1)
    && InOpen(gA, RangeMin(), p - RangeMin()) && InOpen(gB, RangeMin(), p - RangeMin())
  }

  /**
    The generator is strictly between 1 and p - 1, and both public values are more than 2^1984
    away from 0 and from p.
   */
  lemma CheckRangeExact(p: nat, g: int, gA: nat, gB: nat, bits: nat)
    requires bits == 1984
    ensures CheckRange(p, g, gA, gB) <==>
            1 < g < p - 1 && Pow2(bits) < gA < p - Pow2(bits) && Pow2(bits) < gB < p - Pow2(bits)
  {
    RangeMinInBits(248, bits);
  }

  lemma RangeMinInBits(bytes: nat, bits: nat)
    requires bytes == 248 && bits == 1984
    ensures RangeMin() == Pow2(bits)
  {
    RangeInBits(bytes, bits);
  }

  lemma RangeInBits(bytes: nat, bits: nat)
    requires bits == 8 * bytes
    ensures Pow256(bytes) == Pow2(bits)
  {
    DHCache.Pow256IsPow2(bytes);
  }

  ghost function ClientOnServerDH(su: Setup, nonce: seq<Byte>, serverNonce: seq<Byte>, newNonce: seq<Byte>,
                                  frame: seq<Byte>, ch: ClientChoice): ClientMove
    requires Lawful(su.c)
  {
    ClientOnGroup(su, nonce, serverNonce, newNonce, ReadServerDH(su, nonce, serverNonce, newNonce, frame), ch)
  }

  function ClientOnGroup(su: Setup, nonce: seq<Byte>, serverNonce: seq<Byte>, newNonce: seq<Byte>, read: Got<Group>,
                         ch: ClientChoice): ClientMove
    requires Lawful(su.c)
  {
    match read
    case Bad(w) => Stop(w)
    case Got(group) =>
      if !DHCache.Accepts(su.prime, group.g, group.p) || group.g < 0 || group.p == 0 then Stop(BadGroup)
      else if ch.b.None? then Stop(NoRandom)
      else
        var gB := ModExp(group.g, ch.b.value, group.p);
        if !CheckRange(group.p, group.g, group.gA, gB) then Stop(BadRange)
        else
          var inner := EncMsg(CLIENT_INNER, [VRaw(nonce), VRaw(serverNonce), VLong(0), VBytes(Bytes(gB))]);
          if HashedAnswer.PadLen(|inner|) > |ch.padding| then Stop(NoRandom)
          else
            var keys := AnswerKeys(su, newNonce, serverNonce);
            var enc := HashedAnswer.Encrypted(su.c, inner, ch.padding[..HashedAnswer.PadLen(|inner|)], keys.0, keys.1);
            ClientMove(CWaitGen(nonce, serverNonce, newNonce, group.gA, ch.b.value, group.p),
                       [Post(ch.msgID, SET_DH, [VRaw(nonce), VRaw(serverNonce), VBytes(enc)])])
  }

  function ClientOnGen(su: Setup, s: ClientState, frame: seq<Byte>, ch: ClientChoice): ClientMove
    requires Lawful(su.c) && s.CWaitGen? && |s.newNonce| == 32 && |s.serverNonce| == 16 && s.p > 0
  {
    match ReadGen(s.nonce, s.serverNonce, frame)
    case Bad(w) => Stop(w)
    case Got(hash) =>
      var key := BE(AUTH_KEY, ModExp(s.gA, s.b, s.p));
      if HashedAnswer.NonceHash1(su.c, s.newNonce, key) != hash then Stop(HashMismatch)
      else if !ch.session then Stop(NoRandom)
      else ClientMove(CDone(key, HashedAnswer.KeyId(su.c, key), HashedAnswer.ServerSalt(s.newNonce, s.serverNonce)), [])
  }

  // ---------------------------------------------------------------- the server

  datatype ServerState =
    | SWaitReq
    | SWaitDH(nonce: seq<Byte>, serverNonce: seq<Byte>, pq: nat)
    | SWaitClient(nonce: seq<Byte>, serverNonce: seq<Byte>, newNonce: seq<Byte>, a: nat, p: nat)
    | SDone(key: seq<Byte>, id: seq<Byte>, salt: int)
    | SFailed(why: Why)

  datatype ServerChoice = ServerChoice(
    msgID: int, serverNonce: Option<seq<Byte>>, pq: Option<nat>, p: Option<nat>, a: Option<nat>, time: int,
    padding: seq<Byte>)

  /** Numbers fit a TL message and the clock fits its 32-bit field. */
  predicate ServerChoiceOk(ch: ServerChoice)
  {
    && InRange(8, ch.msgID) && ServerResponse(ch.msgID) && InRange(4, ch.time)
    && (ch.serverNonce.Some? ==> |ch.serverNonce.value| == 16)
    && (ch.pq.Some? ==> ByteLen(ch.pq.value) <= LONGEST)
    && (ch.p.Some? ==> ch.p.value > 0 && ByteLen(ch.p.value) <= LONGEST)
  }

  datatype ServerMove = ServerMove(state: ServerState, out: seq<seq<Byte>>)

  function Abort(w: Why): ServerMove
  {
    ServerMove(SFailed(w), [])
  }

  /** The answer to every req_pq: the nonce of that request, the server nonce and pq of this exchange. */
  function SendResPQ(su: Setup, cfg: ServerConfig, nonce: seq<Byte>, serverNonce: seq<Byte>, pq: nat,
                     msgID: int): ServerMove
  {
    ServerMove(SWaitDH(nonce, serverNonce, pq),
               [Post(msgID, RES_PQ,
                     [VRaw(nonce), VRaw(serverNonce), VBytes(Bytes(pq)), VLongs([su.fingerprint(cfg.pub)])])])
  }

  function ServerOnReq(su: Setup, cfg: ServerConfig, frame: seq<Byte>, ch: ServerChoice): ServerMove
  {
    match ReadData(frame, true)
    case Bad(w) => Abort(w)
    case Got(data) =>
      match ReqPqNonce(data)
      case Bad(w) => Abort(w)
      case Got(nonce) =>
        if ch.serverNonce.None? || ch.pq.None? then Abort(NoRandom)
        else SendResPQ(su, cfg, nonce, ch.serverNonce.value, ch.pq.value, ch.msgID)
  }

  function ServerOnSecond(su: Setup, cfg: ServerConfig, s: ServerState, frame: seq<Byte>, ch: ServerChoice): ServerMove
    requires Lawful(su.c) && s.SWaitDH? && cfg.priv.n > 0 && ServerChoiceOk(ch)
  {
    match ReadSecond(frame)
    case Bad(w) => Abort(w)
    case Got(second) =>
      match second
      case Again(nonce) => SendResPQ(su, cfg, nonce, s.serverNonce, s.pq, ch.msgID)
      case SealedData(enc) =>
        match OpenInner(su, cfg, enc)
        case Bad(w) => Abort(w)
        case Got(newNonce) => if ch.p.None? || ch.a.None? then Abort(NoRandom) else SendGroup(su, s, newNonce, ch)
  }

  function SendGroup(su: Setup, s: ServerState, newNonce: seq<Byte>, ch: ServerChoice): ServerMove
    requires Lawful(su.c) && s.SWaitDH? && ch.p.Some? && ch.p.value > 0 && ch.a.Some?
  {
    var gA := ModExp(GENERATOR, ch.a.value, ch.p.value);
    var inner := EncMsg(SERVER_INNER,
                        [VRaw(s.nonce), VRaw(s.serverNonce), VInt(GENERATOR), VBytes(Bytes(ch.p.value)),
                         VBytes(Bytes(gA)), VInt(ch.time)]);
    if HashedAnswer.PadLen(|inner|) > |ch.padding| then Abort(NoRandom)
    else
      var keys := AnswerKeys(su, newNonce, s.serverNonce);
      var enc := HashedAnswer.Encrypted(su.c, inner, ch.padding[..HashedAnswer.PadLen(|inner|)], keys.0, keys.1);
      ServerMove(SWaitClient(s.nonce, s.serverNonce, newNonce, ch.a.value, ch.p.value),
                 [Post(ch.msgID, DH_OK, [VRaw(s.nonce), VRaw(s.serverNonce), VBytes(enc)])])
  }

  ghost function ServerOnClientDH(su: Setup, s: ServerState, frame: seq<Byte>, ch: ServerChoice): ServerMove
    requires Lawful(su.c) && s.SWaitClient? && s.p > 0 && |s.newNonce| == 32 && |s.serverNonce| == 16
  {
    match ReadClientDH(su, s.serverNonce, s.newNonce, frame)
    case Bad(w) => Abort(w)
    case Got(gB) =>
      match FillBytes(AUTH_KEY, ModExp(gB, s.a, s.p))
      case None => Abort(KeyTooBig)
      case Some(key) =>
        ServerMove(SDone(key, HashedAnswer.KeyId(su.c, key), HashedAnswer.ServerSalt(s.newNonce, s.serverNonce)),
                   [Post(ch.msgID, GEN_OK,
                         [VRaw(s.nonce), VRaw(s.serverNonce), VRaw(HashedAnswer.NonceHash1(su.c, s.newNonce, key))])])
  }
}

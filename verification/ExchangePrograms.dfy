/**
  The two programs of the exchange run against each other: whenever each receives only what
  the other sent, in order, what they did is one of the runs of the protocol, so every result
  about runs holds for the pair of programs.
 */
module ExchangePrograms {
  import opened Bin
  import opened Crypto
  import opened Exchange
  import opened ExchangeRuns
  import HashedAnswer
  import Client = ExchangeClientFlow
  import Server = ExchangeFlows

  /** One run of each program: what each received and what it did with it. */
  datatype Pair = Pair(client: Client.ClientInputs, clientFrames: seq<seq<Byte>>, turns: seq<Client.Turn>,
                       server: Server.Inputs, serverFrames: seq<seq<Byte>>, trace: seq<Server.ServerTurn>)

  function Begin(x: Pair): ClientMove
  {
    ClientStart(Client.StartChoice(x.client))
  }

  ghost predicate FollowsSteps(su: Setup, cc: ClientConfig, sc: ServerConfig, x: Pair)
    requires Lawful(su.c) && sc.priv.n > 0
  {
    && Client.InputsOk(x.client) && Client.ClientTrace(su, cc, x.client, Begin(x).state, x.clientFrames, x.turns)
    && Server.InputsOk(x.server) && Server.ServerTrace(su, sc, x.server, x.serverFrames, x.trace)
  }

  /** What the client has sent after its start and `k` turns. */
  function FromClientAfter(x: Pair, k: nat): seq<seq<Byte>>
    requires k <= |x.turns|
  {
    Begin(x).out + Client.Sent(x.turns[..k])
  }

  function FromServerAfter(x: Pair, k: nat): seq<seq<Byte>>
    requires k <= |x.trace|
  {
    Server.Sent(x.trace[..k])
  }

  /** Every frame received is what the other side sent, in order and without gaps. */
  ghost predicate Faithful(x: Pair)
    requires |x.turns| <= |x.clientFrames| && |x.trace| <= |x.serverFrames|
  {
    && x.clientFrames[..|x.turns|] <= FromServerAfter(x, |x.trace|)
    && x.serverFrames[..|x.trace|] <= FromClientAfter(x, |x.turns|)
  }

  function ClientAfter(x: Pair, k: nat): ClientState
    requires k <= |x.turns|
  {
    Client.Before(Begin(x).state, x.turns, k)
  }

  function ServerAfter(x: Pair, k: nat): ServerState
    requires k <= |x.trace|
  {
    Server.Before(x.trace, k)
  }

  // ---------------------------------------------------------------- one frame per step

  /** A turn starts in a waiting state and sends one frame, unless it ends the client. */
  ghost predicate OrderlyClient(x: Pair, k: int)
  {
    0 <= k < |x.turns| ==>
      && ClientWaits(ClientAfter(x, k)) && |x.turns[k].m.out| <= 1
      && (ClientWaits(ClientAfter(x, k + 1)) ==> |x.turns[k].m.out| == 1)
  }

  ghost predicate OrderlyServer(x: Pair, k: int)
  {
    0 <= k < |x.trace| ==>
      && ServerWaits(ServerAfter(x, k)) && |x.trace[k].m.out| <= 1
      && (ServerWaits(ServerAfter(x, k + 1)) ==> |x.trace[k].m.out| == 1)
  }

  ghost predicate Orderly(x: Pair)
  {
    && |x.turns| <= |x.clientFrames| && |x.trace| <= |x.serverFrames| && Faithful(x)
    && (forall k {:trigger OrderlyClient(x, k)} :: OrderlyClient(x, k))
    && (forall k {:trigger OrderlyServer(x, k)} :: OrderlyServer(x, k))
  }

  lemma ClientStepAt(su: Setup, cc: ClientConfig, sc: ServerConfig, x: Pair, k: nat)
    requires Lawful(su.c) && sc.priv.n > 0 && FollowsSteps(su, cc, sc, x) && k < |x.turns|
    ensures Client.ClientStep(su, cc, ClientAfter(x, k), x.clientFrames[k], x.turns[k].ch, x.turns[k].m)
  {
    assert Client.TurnAt(su, cc, x.client, Begin(x).state, x.clientFrames, x.turns, k);
  }

  lemma ServerStepAt(su: Setup, cc: ClientConfig, sc: ServerConfig, x: Pair, k: nat)
    requires Lawful(su.c) && sc.priv.n > 0 && FollowsSteps(su, cc, sc, x) && k < |x.trace|
    ensures Server.ServerStep(su, sc, ServerAfter(x, k), x.serverFrames[k], x.trace[k].ch, x.trace[k].m)
  {
    assert Server.MoveAt(su, sc, x.server, x.serverFrames, x.trace, k);
  }

  lemma StepsAreOrderly(su: Setup, cc: ClientConfig, sc: ServerConfig, x: Pair)
    requires Lawful(su.c) && sc.priv.n > 0 && FollowsSteps(su, cc, sc, x) && Faithful(x)
    ensures Orderly(x)
  {
    forall k ensures OrderlyClient(x, k) {
      if 0 <= k < |x.turns| {
        ClientStepAt(su, cc, sc, x, k);
        Client.ClientStepFacts(su, cc, ClientAfter(x, k), x.clientFrames[k], x.turns[k].ch, x.turns[k].m);
      }
    }
    forall k ensures OrderlyServer(x, k) {
      if 0 <= k < |x.trace| {
        ServerStepAt(su, cc, sc, x, k);
        Server.ServerStepFacts(su, sc, ServerAfter(x, k), x.serverFrames[k], x.trace[k].ch, x.trace[k].m);
      }
    }
  }

  lemma ClientSentAt(x: Pair, k: nat)
    requires k < |x.turns|
    ensures FromClientAfter(x, k + 1) == FromClientAfter(x, k) + x.turns[k].m.out
  {
    assert x.turns[..k + 1][..k] == x.turns[..k];
  }

  lemma ServerSentAt(x: Pair, k: nat)
    requires k < |x.trace|
    ensures FromServerAfter(x, k + 1) == FromServerAfter(x, k) + x.trace[k].m.out
  {
    assert x.trace[..k + 1][..k] == x.trace[..k];
  }

  /** A client that has taken `k` turns has sent at most `k + 1` frames, and exactly as many while it waits. */
  lemma {:induction false} ClientCount(x: Pair, k: nat)
    requires Orderly(x) && k <= |x.turns|
    ensures |FromClientAfter(x, k)| <= k + 1 && (ClientWaits(ClientAfter(x, k)) ==> |FromClientAfter(x, k)| == k + 1)
  {
    if k > 0 {
      ClientCount(x, k - 1);
      ClientSentAt(x, k - 1);
      assert OrderlyClient(x, k - 1);
    }
  }

  lemma {:induction false} ClientPrefix(x: Pair, k: nat)
    requires k <= |x.turns|
    ensures FromClientAfter(x, k) <= FromClientAfter(x, |x.turns|)
    decreases |x.turns| - k
  {
    if k < |x.turns| {
      ClientPrefix(x, k + 1);
      ClientSentAt(x, k);
    }
  }

  lemma {:induction false} ServerCount(x: Pair, k: nat)
    requires Orderly(x) && k <= |x.trace|
    ensures |FromServerAfter(x, k)| <= k && (ServerWaits(ServerAfter(x, k)) ==> |FromServerAfter(x, k)| == k)
  {
    if k > 0 {
      ServerCount(x, k - 1);
      ServerSentAt(x, k - 1);
      assert OrderlyServer(x, k - 1);
    }
  }

  lemma {:induction false} ServerPrefix(x: Pair, k: nat)
    requires k <= |x.trace|
    ensures FromServerAfter(x, k) <= FromServerAfter(x, |x.trace|)
    decreases |x.trace| - k
  {
    if k < |x.trace| {
      ServerPrefix(x, k + 1);
      ServerSentAt(x, k);
    }
  }

  /** The sides alternate: the server is level with the client or one turn ahead. */
  lemma Alternate(x: Pair)
    requires Orderly(x)
    ensures |x.turns| <= |x.trace| <= |x.turns| + 1
  {
    ServerCount(x, |x.trace|);
    ClientCount(x, |x.turns|);
  }

  // ---------------------------------------------------------------- the run

  predicate Reached(x: Pair, i: nat, j: nat)
  {
    i <= |x.turns| && j <= |x.trace| && j <= |FromClientAfter(x, i)| && i <= |FromServerAfter(x, j)|
  }

  /** The system after `i` turns of the client and `j` of the server. */
  function After(x: Pair, i: nat, j: nat): System
    requires Reached(x, i, j)
  {
    System(ClientAfter(x, i), ServerAfter(x, j), FromClientAfter(x, i)[j..], FromServerAfter(x, j)[i..])
  }

  /** The frame the server reads in its turn `k` is in flight before it. */
  lemma ServerCanRead(x: Pair, k: nat)
    requires Orderly(x) && k <= |x.turns| && k < |x.trace|
    ensures |FromClientAfter(x, k)| == k + 1 && FromClientAfter(x, k)[k] == x.serverFrames[k]
    ensures |FromServerAfter(x, k)| == k
  {
    ClientCount(x, k);
    ClientPrefix(x, k);
    ServerCount(x, k);
    assert OrderlyServer(x, k);
    if k < |x.turns| {
      assert OrderlyClient(x, k);
    } else {
      assert |x.serverFrames[..|x.trace|]| <= |FromClientAfter(x, k)|;
    }
    assert x.serverFrames[..|x.trace|][k] == x.serverFrames[k];
  }

  lemma ClientCanRead(x: Pair, k: nat)
    requires Orderly(x) && k < |x.turns| && k < |x.trace|
    ensures |FromServerAfter(x, k + 1)| == k + 1 && FromServerAfter(x, k + 1)[k] == x.clientFrames[k]
    ensures |FromClientAfter(x, k)| == k + 1
  {
    ClientCount(x, k);
    ServerCount(x, k + 1);
    ServerPrefix(x, k + 1);
    assert OrderlyClient(x, k);
    if k + 1 < |x.trace| {
      assert OrderlyServer(x, k + 1);
    } else {
      assert |x.clientFrames[..|x.turns|]| <= |FromServerAfter(x, k + 1)|;
    }
    assert x.clientFrames[..|x.turns|][k] == x.clientFrames[k];
  }

  lemma ServerTurnIsStep(su: Setup, cc: ClientConfig, sc: ServerConfig, x: Pair, k: nat)
    requires Lawful(su.c) && sc.priv.n > 0 && FollowsSteps(su, cc, sc, x) && Orderly(x) && k <= |x.turns| &&
             k < |x.trace|
    ensures Reached(x, k, k) && Reached(x, k, k + 1) && Next(su, cc, sc, After(x, k, k), After(x, k, k + 1))
    ensures ServerMoves(su, sc, After(x, k, k), x.trace[k].ch, After(x, k, k + 1))
  {
    ServerCanRead(x, k);
    ServerSentAt(x, k);
    ServerStepAt(su, cc, sc, x, k);
    assert FromServerAfter(x, k + 1)[k..] == FromServerAfter(x, k)[k..] + x.trace[k].m.out;
    assert FromClientAfter(x, k)[k..][1..] == FromClientAfter(x, k)[k + 1..];
    assert ServerMoves(su, sc, After(x, k, k), x.trace[k].ch, After(x, k, k + 1));
  }

  lemma ClientTurnIsStep(su: Setup, cc: ClientConfig, sc: ServerConfig, x: Pair, k: nat)
    requires Lawful(su.c) && sc.priv.n > 0 && FollowsSteps(su, cc, sc, x) && Orderly(x) && k < |x.turns| &&
             k < |x.trace|
    ensures Reached(x, k, k + 1) && Reached(x, k + 1, k + 1) &&
            Next(su, cc, sc, After(x, k, k + 1), After(x, k + 1, k + 1))
  {
    ClientCanRead(x, k);
    ClientSentAt(x, k);
    ClientStepAt(su, cc, sc, x, k);
    assert FromClientAfter(x, k + 1)[k + 1..] == FromClientAfter(x, k)[k + 1..] + x.turns[k].m.out;
    assert FromServerAfter(x, k + 1)[k..][1..] == FromServerAfter(x, k + 1)[k + 1..];
    assert ClientMoves(su, cc, After(x, k, k + 1), x.turns[k].ch, After(x, k + 1, k + 1));
  }

  /** A run that ends where `x` is after `i` turns of the client and `j` of the server. */
  ghost predicate RunTo(su: Setup, cc: ClientConfig, sc: ServerConfig, x: Pair, i: nat, j: nat, run: seq<System>)
    requires Lawful(su.c) && sc.priv.n > 0
  {
    && Reached(x, i, j)
    && Run(su, cc, sc, run) && run[|run| - 1] == After(x, i, j)
  }

  lemma {:induction false} RunToLevel(su: Setup, cc: ClientConfig, sc: ServerConfig, x: Pair, k: nat)
    returns (run: seq<System>)
    requires Lawful(su.c) && sc.priv.n > 0 && FollowsSteps(su, cc, sc, x) && Orderly(x) && k <= |x.turns|
    ensures RunTo(su, cc, sc, x, k, k, run)
    decreases k
  {
    Alternate(x);
    if k == 0 {
      run := FirstStep(su, cc, sc, x);
    } else {
      var level := RunToLevel(su, cc, sc, x, k - 1);
      run := OneRound(su, cc, sc, x, k - 1, level);
    }
  }

  /** One turn of the server and the client's answer to it. */
  lemma OneRound(su: Setup, cc: ClientConfig, sc: ServerConfig, x: Pair, k: nat, level: seq<System>)
    returns (run: seq<System>)
    requires Lawful(su.c) && sc.priv.n > 0 && FollowsSteps(su, cc, sc, x) && Orderly(x) && k < |x.turns| &&
             k < |x.trace|
    requires RunTo(su, cc, sc, x, k, k, level)
    ensures RunTo(su, cc, sc, x, k + 1, k + 1, run)
  {
    ServerTurnIsStep(su, cc, sc, x, k);
    Extended(su, cc, sc, level, After(x, k, k + 1));
    ClientTurnIsStep(su, cc, sc, x, k);
    Extended(su, cc, sc, level + [After(x, k, k + 1)], After(x, k + 1, k + 1));
    run := level + [After(x, k, k + 1)] + [After(x, k + 1, k + 1)];
  }

  lemma FirstStep(su: Setup, cc: ClientConfig, sc: ServerConfig, x: Pair) returns (run: seq<System>)
    requires Lawful(su.c) && sc.priv.n > 0 && FollowsSteps(su, cc, sc, x)
    ensures RunTo(su, cc, sc, x, 0, 0, run)
  {
    var s := System(CInit, SWaitReq, [], []);
    assert FromClientAfter(x, 0) == Begin(x).out && FromServerAfter(x, 0) == [];
    assert ClientMoves(su, cc, s, Client.StartChoice(x.client), After(x, 0, 0));
    run := [s, After(x, 0, 0)];
  }

  /** Programs that receive only what the other sent perform a run of the protocol. */
  lemma ProgramsFormRun(su: Setup, cc: ClientConfig, sc: ServerConfig, x: Pair) returns (run: seq<System>)
    requires Lawful(su.c) && sc.priv.n > 0 && FollowsSteps(su, cc, sc, x) && Faithful(x)
    ensures Run(su, cc, sc, run)
    ensures run[|run| - 1].client == ClientAfter(x, |x.turns|) && run[|run| - 1].server == ServerAfter(x, |x.trace|)
  {
    StepsAreOrderly(su, cc, sc, x);
    Alternate(x);
    var n := |x.turns|;
    run := RunToLevel(su, cc, sc, x, n);
    if |x.trace| == n + 1 {
      ServerTurnIsStep(su, cc, sc, x, n);
      Extended(su, cc, sc, run, After(x, n, n + 1));
      run := run + [After(x, n, n + 1)];
    }
  }

  /**
    If the client program succeeds, so has the server program, and both hold the same 256-byte
    key, identifier and salt.
   */
  lemma ProgramsAgree(su: Setup, cc: ClientConfig, sc: ServerConfig, x: Pair)
    requires ValidSetup(su, cc, sc) && FollowsSteps(su, cc, sc, x) && Faithful(x)
    ensures var c, s := ClientAfter(x, |x.turns|), ServerAfter(x, |x.trace|);
            && (c.CDone? ==> s.SDone? && c.key == s.key && |c.key| == AUTH_KEY && c.salt == s.salt &&
                             c.id == s.id && HashedAnswer.Identifies(su.c, c.key, c.id))
            && (c.CFailed? ==> ClientExcuse(c.why, s)) && (s.SFailed? ==> Local(s.why))
  {
    var run := ProgramsFormRun(su, cc, sc, x);
    var last := |run| - 1;
    OnlyLocalFailures(su, cc, sc, run, last);
    if run[last].client.CDone? {
      var _ := BothSidesAgree(su, cc, sc, run, last);
    }
  }
}

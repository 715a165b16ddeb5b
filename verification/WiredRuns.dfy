/** What the runs of the whole system are to the client alone and to the server alone. */
module WiredRuns {
  import opened Bytes
  import opened Options
  import opened Packets
  import opened Transport
  import opened Fsm
  import opened Protocol
  import opened SessionProofs
  import opened Wire
  import ServerFsm
  import ClientFsm
  import ServerProofs
  import SessionSteps
  import ClientRuns
  import ServerRuns
  import Stalls

  // ---------- the client's share of a run ----------

  function ClientInput(y: Protocol, a: Action): seq<ClientRuns.Input> {
    match a
    case ClientMove(expired) => [ClientRuns.Move(y.down, y.up, expired)]
    case StartTransfer(buffer) => [ClientRuns.StartCall(buffer)]
    case _ => []
  }

  ghost function ClientInputs(y: Protocol, schedule: seq<Action>): seq<ClientRuns.Input>
    requires y.Valid()
    decreases |schedule|
  {
    if schedule == [] then []
    else ClientInput(y, schedule[0]) + ClientInputs(Step(y, schedule[0]), schedule[1..])
  }

  lemma ClientStep(y: Protocol, a: Action, t: ClientRuns.Trace)
    requires y.Valid() && t.client == y.client
    ensures ClientRuns.TraceRun(t, ClientInput(y, a)).client == Step(y, a).client
  {
    hide ClientFsm.Step, ServerFsm.Step, Drained;
    Stalls.NoInputs(t);
    if ClientInput(y, a) != [] {
      Stalls.RunCons(t, ClientInput(y, a)[0], []);
      assert [ClientInput(y, a)[0]] + [] == ClientInput(y, a);
      Stalls.NoInputs(ClientRuns.TraceStep(t, ClientInput(y, a)[0]));
    }
  }

  /** The client of a run is the client of its own share. */
  lemma {:induction false} ClientShare(y: Protocol, schedule: seq<Action>, t: ClientRuns.Trace)
    requires y.Valid() && t.client == y.client
    ensures ClientRuns.TraceRun(t, ClientInputs(y, schedule)).client == Run(y, schedule).client
    decreases |schedule|
  {
    hide Step, ClientRuns.TraceStep, ClientInput;
    if schedule == [] {
      Stalls.NoInputs(t);
    } else {
      var first := ClientInput(y, schedule[0]);
      ClientStep(y, schedule[0], t);
      ClientShare(Step(y, schedule[0]), schedule[1..], ClientRuns.TraceRun(t, first));
      Stalls.RunAppend(t, first, ClientInputs(Step(y, schedule[0]), schedule[1..]));
    }
  }

  /** What the server sends: messages that are as long as they say, block messages with a payload
      and CRC 0. */
  ghost function Sound(): iset<Message> {
    iset m: Message | Sized(m)
  }

  lemma {:induction false} ClientPollsSound(y: Protocol, schedule: seq<Action>)
    requires Inv(y) && WellSized(y)
    ensures Stalls.Over(ClientInputs(y, schedule), Sound())
    decreases |schedule|
  {
    hide Step, Sized, ServerProofs.Inv, ClientInv, SessionInv;
    if schedule != [] {
      var a := schedule[0];
      SessionSteps.StepInv(y, a);
      StepKeepsSized(y, a);
      ClientPollsSound(Step(y, a), schedule[1..]);
    }
  }

  lemma SoundCannotStall(maxLen: nat)
    ensures !Stalls.CanStall(Sound(), maxLen)
  {
    hide GetContinue, Gather16;
    forall m | m in Sound() ensures !ClientRuns.Corrupt(m, maxLen) {}
  }

  /** In the wired system every transfer is over within n + 5 calls: for every run, the client's
      own share of it ends in the same client, and the observer of that share counts no more. */
  lemma WiredTransfersEndInTime(start: Protocol, schedule: seq<Action>, t: ClientRuns.Trace)
    requires Initial(start)
    requires t == ClientRuns.TraceRun(ClientRuns.Observed(start.client), ClientInputs(start, schedule))
    ensures t.client == Run(start, schedule).client
    ensures ClientRuns.InTransfer(t.client) || t.client.current == Terminate ==>
      t.calls <= |t.client.original| + 5
  {
    hide Run, ClientRuns.TraceRun, ClientInputs, Stalls.CanStall, Stalls.Over;
    hide ServerProofs.Inv, ClientInv, SessionInv;
    InitialInv(start);
    ClientShare(start, schedule, ClientRuns.Observed(start.client));
    ClientPollsSound(start, schedule);
    SoundCannotStall(start.client.cfg.maxLen);
    Stalls.TransferTerminatesInTime(start.client, Sound());
    assert ClientRuns.Reached(start.client, ClientInputs(start, schedule), t);
  }

  // ---------- the server's share of a run ----------

  function ServerInput(y: Protocol, a: Action): seq<ServerRuns.Input> {
    match a
    case ServerMove(e) => [ServerRuns.Move(y.up, y.down, e)]
    case StartServer => [ServerRuns.StartCall]
    case _ => []
  }

  ghost function ServerInputs(y: Protocol, schedule: seq<Action>): seq<ServerRuns.Input>
    requires y.Valid()
    decreases |schedule|
  {
    if schedule == [] then []
    else ServerInput(y, schedule[0]) + ServerInputs(Step(y, schedule[0]), schedule[1..])
  }

  lemma {:induction false} ServerRunAppend(t: ServerRuns.Trace, a: seq<ServerRuns.Input>, b: seq<ServerRuns.Input>)
    requires t.server.Valid()
    ensures ServerRuns.TraceRun(t, a + b) == ServerRuns.TraceRun(ServerRuns.TraceRun(t, a), b)
    decreases |a|
  {
    hide ServerRuns.TraceStep;
    if a == [] {
      assert a + b == b;
    } else {
      assert (a + b)[1..] == a[1..] + b;
      ServerRunAppend(ServerRuns.TraceStep(t, a[0]), a[1..], b);
    }
  }

  lemma ServerRunOne(t: ServerRuns.Trace, i: ServerRuns.Input)
    requires t.server.Valid()
    ensures ServerRuns.TraceRun(t, []) == t
    ensures ServerRuns.TraceRun(t, [i]) == ServerRuns.TraceStep(t, i)
  {
    hide ServerRuns.TraceStep;
    assert [i][1..] == [];
  }

  /** Reading storage and cutting a frame report nothing. */
  lemma WorkIsNoReport(s: ServerFsm.Server, store: seq<byte>)
    requires s.Valid() && s.phase == ServerFsm.AtLoop && s.next in {Block, Response}
    ensures ServerFsm.Activate(s, store).notes == s.notes
  {
    hide SetContinue, SetFrameNumber, HeaderFor, Negotiate;
  }

  lemma ServerStep(y: Protocol, a: Action, t: ServerRuns.Trace)
    requires y.Valid() && t.server == y.server
    ensures var u := ServerRuns.TraceRun(t, ServerInput(y, a));
      u.server == Step(y, a).server && u.delivered == t.delivered + Reported(y, a)
  {
    hide ClientFsm.Step, ServerFsm.Activate, ServerFsm.HearRequest, ServerFsm.HearInitiate,
      ServerFsm.HearAck, ServerFsm.TryFrame, ServerFsm.TryResponse, Drained, ServerRuns.TraceRun;
    if ServerInput(y, a) != [] {
      ServerRunOne(t, ServerInput(y, a)[0]);
    } else {
      ServerRunOne(t, ServerRuns.StartCall);
    }
    assert |y.server.notes + [true]| > |y.server.notes|;
    if a.ServerMove? && y.server.phase == ServerFsm.AtLoop && y.server.next in {Block, Response} {
      WorkIsNoReport(y.server, a.e.store);
    }
  }

  /** The server of a run is the server of its own share, and so is what it delivers. */
  lemma {:induction false} ServerShare(y: Protocol, schedule: seq<Action>, t: ServerRuns.Trace)
    requires y.Valid() && t.server == y.server
    ensures var u := ServerRuns.TraceRun(t, ServerInputs(y, schedule));
      u.server == Run(y, schedule).server && u.delivered == t.delivered + Deliveries(y, schedule)
    decreases |schedule|
  {
    hide Step, ServerRuns.TraceStep, ServerInput, Reported;
    if schedule == [] {
      ServerRunOne(t, ServerRuns.StartCall);
    } else {
      var first := ServerInput(y, schedule[0]);
      ServerStep(y, schedule[0], t);
      ServerShare(Step(y, schedule[0]), schedule[1..], ServerRuns.TraceRun(t, first));
      ServerRunAppend(t, first, ServerInputs(Step(y, schedule[0]), schedule[1..]));
    }
  }

  /** All that a run ever delivers fits the server's allocation together. */
  lemma DeliveriesFit(start: Protocol, schedule: seq<Action>)
    requires Initial(start)
    ensures ServerRuns.TotalLength(Deliveries(start, schedule))
         <= start.server.Room() * start.server.cfg.blocks
  {
    hide Run, ServerRuns.TraceRun, Deliveries, ServerInputs, ServerRuns.TotalLength;
    var s := start.server;
    var t := ServerRuns.TraceRun(ServerRuns.Observed(s), ServerInputs(start, schedule));
    ServerShare(start, schedule, ServerRuns.Observed(s));
    assert ServerRuns.Reached(s, ServerInputs(start, schedule), t);
    ServerRuns.Conservation(s, ServerInputs(start, schedule), t);
    assert t.delivered == Deliveries(start, schedule);
  }
}

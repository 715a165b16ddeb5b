/** The protocol is not only safe: with parties that take turns and timers that do not fire, a
    transfer goes through, and leaves the parties ready for the next. */
module Cooperation {
  import opened Bytes
  import opened Options
  import opened Packets
  import opened Transport
  import opened Fsm
  import opened Segmentation
  import opened Protocol
  import opened SessionProofs
  import ServerFsm
  import ClientFsm
  import ServerProofs
  import SessionSteps
  import Delivery
  import ServerRuns

  const CLIENT := ClientMove(false)

  function Serve(store: seq<byte>): Action {
    ServerMove(ServerFsm.Env(false, store))
  }

  // ---------- the parties at rest ----------

  /** Nothing is queued, the server waits for a request, the client is idle. */
  predicate Quiet(y: Protocol) {
    && y.up == [] && y.down == []
    && y.server.phase == ServerFsm.AwaitRequest && !y.server.success
    && y.client.phase == ClientFsm.AtLoop && y.client.next == Idle && !y.client.busy
  }

  /** What a transfer of this storage would carry. */
  function Load(y: Protocol, store: seq<byte>): seq<byte>
    requires y.Valid()
  {
    store[..Min(|store|, y.server.Room() * Terms(y).blocks)]
  }

  /** There is something to send, and room for it on both sides. */
  predicate Feasible(y: Protocol, store: seq<byte>, dest: seq<byte>)
    requires y.Valid()
  {
    && Load(y, store) != []
    && y.client.cfg.id != 0
    && y.server.cursor + |Load(y, store)| <= |y.server.mem|
    && |Load(y, store)| <= |dest|
  }

  /** What no step of the transfer before TERMINATE touches. */
  predicate Same(y: Protocol, z: Protocol) {
    && z.server.cfg == y.server.cfg && z.client.cfg == y.client.cfg
    && z.server.notes == y.server.notes && z.client.notes == y.client.notes
    && |z.server.mem| == |y.server.mem|
  }

  // ---------- the handshake ----------

  ghost predicate Handshaking(y: Protocol, dest: seq<byte>) {
    && Inv(y) && y.drained && y.client.original == dest && y.client.busy && !y.server.success
  }

  /** The request is on its way. */
  ghost predicate Requested(y: Protocol, dest: seq<byte>) {
    && Handshaking(y, dest) && y.clientStage == Asked && y.serverStage == Unserved
    && y.up == [RequestMessage(y.client.cfg)] && y.down == []
    && y.server.phase == ServerFsm.AwaitRequest
    && y.client.phase == ClientFsm.AtLoop && y.client.next == Response
  }

  lemma Asks(y: Protocol, dest: seq<byte>) returns (z: Protocol)
    requires Inv(y) && Quiet(y) && dest != []
    ensures z == Run(y, [StartTransfer(Some(dest)), CLIENT, CLIENT])
    ensures Requested(z, dest) && Same(y, z) && z.server.cursor == y.server.cursor
  {
    hide EncodeTx, EncodeBlock, Frame, Cut, ServerProofs.Inv, ClientInv, SessionInv;
    var a := Step(y, StartTransfer(Some(dest)));
    SessionSteps.StepInv(y, StartTransfer(Some(dest)));
    var b := Step(a, CLIENT);
    SessionSteps.StepInv(a, CLIENT);
    z := Step(b, CLIENT);
    SessionSteps.StepInv(b, CLIENT);
    assert Run(y, [StartTransfer(Some(dest)), CLIENT, CLIENT]) == z by {
      hide Step;
      RunCons(y, StartTransfer(Some(dest)), [CLIENT, CLIENT]);
      RunCons(a, CLIENT, [CLIENT]);
      RunCons(b, CLIENT, []);
      assert [StartTransfer(Some(dest))] + [CLIENT, CLIENT] == [StartTransfer(Some(dest)), CLIENT, CLIENT];
      assert [CLIENT] + [CLIENT] == [CLIENT, CLIENT] && [CLIENT] + [] == [CLIENT];
    }
  }

  /** The response is on its way, and the load is read. */
  ghost predicate Answered(y: Protocol, dest: seq<byte>, load: seq<byte>) {
    && Handshaking(y, dest) && y.clientStage == Asked && y.serverStage == Offered
    && y.up == [] && y.down == [ResponseMessage(Terms(y))]
    && y.server.phase == ServerFsm.AwaitInitiate && y.server.peer == Terms(y)
    && y.server.snapshot == load && y.server.sent == 0
    && y.client.phase == ClientFsm.AtLoop && y.client.next == Response
  }

  lemma HearsAndReads(y: Protocol, dest: seq<byte>, store: seq<byte>) returns (z: Protocol)
    requires Requested(y, dest) && Feasible(y, store, dest)
    ensures z == Step(Step(y, Serve(store)), Serve(store))
    ensures Inv(z) && z.drained && Same(y, z) && z.client == y.client && !z.server.success
    ensures z.clientStage == Asked && z.serverStage == Serving && z.up == [] && z.down == []
    ensures z.server.phase == ServerFsm.SendingResponse(HeaderFor(ResponseMsg, Terms(y)))
    ensures z.server.peer == Terms(y) && z.server.snapshot == Load(y, store)
    ensures z.server.sent == 0 && z.server.cursor == y.server.cursor
  {
    hide EncodeTx, EncodeBlock, Frame, Cut, PollTx, ServerProofs.Inv, ClientInv, SessionInv,
      Negotiate;
    DeliveredTx(HeaderFor(RequestMsg, y.client.cfg), y.up, RequestMsg, y.server.cfg.maxLen);
    SessionSteps.StepInv(y, Serve(store));
    var a := Step(y, Serve(store));
    SessionSteps.StepInv(a, Serve(store));
    z := Step(a, Serve(store));
  }

  lemma SendsResponse(y: Protocol, store: seq<byte>) returns (z: Protocol)
    requires Inv(y) && y.drained && y.down == []
    requires y.server.phase == ServerFsm.SendingResponse(HeaderFor(ResponseMsg, Terms(y)))
    ensures z == Step(Step(y, Serve(store)), Serve(store))
    ensures Inv(z) && z.drained && z.client == y.client && z.clientStage == y.clientStage
    ensures z.serverStage == Offered && z.up == y.up && z.down == [ResponseMessage(Terms(y))]
    ensures z.server == y.server.(phase := ServerFsm.AwaitInitiate, next := Initiate,
                                  current := Initiate, busy := true)
  {
    hide EncodeTx, EncodeBlock, Frame, Cut, ServerProofs.Inv, ClientInv, SessionInv;
    SessionSteps.StepInv(y, Serve(store));
    var a := Step(y, Serve(store));
    SessionSteps.StepInv(a, Serve(store));
    z := Step(a, Serve(store));
  }

  lemma Answers(y: Protocol, dest: seq<byte>, store: seq<byte>) returns (z: Protocol)
    requires Requested(y, dest) && Feasible(y, store, dest)
    ensures z == Run(y, [Serve(store), Serve(store), Serve(store), Serve(store)])
    ensures Answered(z, dest, Load(y, store)) && Same(y, z) && z.server.cursor == y.server.cursor
  {
    hide EncodeTx, Inv;
    var a := HearsAndReads(y, dest, store);
    z := SendsResponse(a, store);
    RunTwice(y, Serve(store), Serve(store));
    RunTwice(a, Serve(store), Serve(store));
    RunAppend(y, [Serve(store), Serve(store)], [Serve(store), Serve(store)]);
    assert [Serve(store), Serve(store)] + [Serve(store), Serve(store)] == [Serve(store), Serve(store), Serve(store), Serve(store)];
  }

  lemma RunTwice(y: Protocol, a: Action, b: Action)
    requires y.Valid()
    ensures Run(y, [a, b]) == Step(Step(y, a), b)
  {
    hide Step;
    RunCons(y, a, [b]);
    RunCons(Step(y, a), b, []);
    assert [a] + [b] == [a, b] && [b] + [] == [b];
  }

  // ---------- the frames ----------

  /** Both parties are about to handle frame `k`, and nothing is queued. */
  ghost predicate Turn(y: Protocol, dest: seq<byte>, k: nat) {
    && Handshaking(y, dest) && y.clientStage == Initiated && y.serverStage == Streaming
    && y.up == [] && y.down == []
    && y.server.phase == ServerFsm.AtLoop && y.server.next == Block && y.server.sent == k
    && y.client.phase == ClientFsm.AtLoop && y.client.next == Block && y.client.taken == k
    && |y.server.snapshot| <= |dest|
  }

  lemma ClientTakesTerms(y: Protocol, dest: seq<byte>, load: seq<byte>) returns (z: Protocol)
    requires Answered(y, dest, load)
    ensures z == Step(Step(y, CLIENT), CLIENT)
    ensures Inv(z) && z.drained && z.server == y.server && z.serverStage == Offered
    ensures z.client == y.client.(next := Initiate, current := Response, peer := Terms(y))
    ensures z.clientStage == ClientStage.Answered && z.up == [] && z.down == []
  {
    hide EncodeTx, EncodeBlock, Frame, Cut, PollTx, ServerProofs.Inv, ClientInv, SessionInv;
    SessionSteps.StepInv(y, CLIENT);
    var a := Step(y, CLIENT);
    DeliveredTx(HeaderFor(ResponseMsg, Terms(y)), a.down, ResponseMsg, a.client.cfg.maxLen);
    SessionSteps.StepInv(a, CLIENT);
    z := Step(a, CLIENT);
  }

  lemma ClientInitiates(y: Protocol) returns (z: Protocol)
    requires Inv(y) && y.drained && y.up == [] && y.down == [] && y.client.busy
    requires y.client.phase == ClientFsm.AtLoop && y.client.next == Initiate
    requires y.client.peer == Terms(y) && y.client.cfg.id != 0
    ensures z == Step(Step(y, CLIENT), CLIENT)
    ensures Inv(z) && z.drained && z.server == y.server && z.serverStage == y.serverStage
    ensures z.client == y.client.(next := Block, current := Initiate)
    ensures z.clientStage == Initiated && z.up == [InitiateMessage(Terms(y))] && z.down == []
  {
    hide EncodeTx, EncodeBlock, Frame, Cut, ServerProofs.Inv, ClientInv, SessionInv;
    SessionSteps.StepInv(y, CLIENT);
    var a := Step(y, CLIENT);
    SessionSteps.StepInv(a, CLIENT);
    z := Step(a, CLIENT);
  }

  lemma ServerAgrees(y: Protocol, store: seq<byte>) returns (z: Protocol)
    requires Inv(y) && y.drained && y.up == [InitiateMessage(Terms(y))]
    requires y.server.phase == ServerFsm.AwaitInitiate && y.server.peer == Terms(y)
    ensures z == Step(y, Serve(store))
    ensures Inv(z) && z.drained && z.client == y.client && z.clientStage == y.clientStage
    ensures z.server == y.server.(phase := ServerFsm.AtLoop, next := Block, counter := 1)
    ensures z.serverStage == Streaming && z.up == [] && z.down == y.down
  {
    hide EncodeTx, EncodeBlock, Frame, Cut, PollTx, ServerProofs.Inv, ClientInv, SessionInv;
    DeliveredTx(HeaderFor(InitiateMsg, Terms(y)), y.up, InitiateMsg, y.server.cfg.maxLen);
    SessionSteps.StepInv(y, Serve(store));
    z := Step(y, Serve(store));
  }

  lemma Agrees(y: Protocol, dest: seq<byte>, load: seq<byte>, store: seq<byte>)
    returns (z: Protocol)
    requires Answered(y, dest, load) && |load| <= |dest| && y.client.cfg.id != 0
    ensures z == Run(y, [CLIENT, CLIENT, CLIENT, CLIENT, Serve(store)])
    ensures Turn(z, dest, 0) && Same(y, z) && z.server.snapshot == load
    ensures z.client.offset == 0 && z.client.dest == dest
    ensures z.server.cursor == y.server.cursor
  {
    hide EncodeTx, Inv;
    var a := ClientTakesTerms(y, dest, load);
    var b := ClientInitiates(a);
    z := ServerAgrees(b, store);
    FirstTurn(y);
    RunTwice(y, CLIENT, CLIENT);
    RunTwice(a, CLIENT, CLIENT);
    RunCons(b, Serve(store), []);
    assert [Serve(store)] + [] == [Serve(store)];
    RunAppend(a, [CLIENT, CLIENT], [Serve(store)]);
    RunAppend(y, [CLIENT, CLIENT], [CLIENT, CLIENT] + [Serve(store)]);
    assert [CLIENT, CLIENT] + ([CLIENT, CLIENT] + [Serve(store)]) == [CLIENT, CLIENT, CLIENT, CLIENT, Serve(store)];
  }

  lemma FirstTurn(y: Protocol)
    requires Inv(y) && y.drained && y.clientStage == Asked
    requires y.client.phase == ClientFsm.AtLoop && y.client.next == Response
    ensures y.client.taken == 0 && y.client.offset == 0 && y.client.dest == y.client.original
  {
    hide SessionInv, ServerProofs.Inv;
    assert y.client.dest[0..] == y.client.dest && y.client.original[0..] == y.client.original;
  }

  /** The frame that is the turn's business. */
  function FrameAt(y: Protocol, k: nat): BlockPacket
    requires y.Valid()
  {
    Frame(y.server.snapshot, y.server.Room(), k)
  }

  /** Where the next frame starts. */
  function After(y: Protocol, k: nat): nat
    requires y.Valid()
  {
    Cut(k + 1, y.server.Room(), |y.server.snapshot|)
  }

  lemma ServerCuts(y: Protocol, k: nat, store: seq<byte>) returns (z: Protocol)
    requires Inv(y) && y.drained && y.up == [] && y.down == [] && !y.server.success
    requires y.clientStage == Initiated && y.serverStage == Streaming
    requires y.server.phase == ServerFsm.AtLoop && y.server.next == Block && y.server.sent == k
    ensures z == Step(y, Serve(store))
    ensures Inv(z) && z.drained && z.client == y.client && z.clientStage == Initiated
    ensures z.serverStage == Streaming && z.up == [] && z.down == []
    ensures z.server.phase == ServerFsm.SendingFrame(FrameAt(y, k)) && !z.server.success
    ensures z.server.current == z.server.next == Block && z.server.sent == k
    ensures z.server.snapshot == y.server.snapshot && z.server.cfg == y.server.cfg
    ensures z.server.notes == y.server.notes && |z.server.mem| == |y.server.mem|
    ensures z.server.cursor == y.server.cursor + FrameAt(y, k).header.size
    ensures Cut(k, y.server.Room(), |y.server.snapshot|) < |y.server.snapshot|
  {
    hide EncodeTx, EncodeBlock, Frame, Cut, ClientInv, SessionInv, SetContinue, SetFrameNumber;
    SessionSteps.StepInv(y, Serve(store));
    ServerRuns.CutFrame(y.server, store);
    z := Step(y, Serve(store));
  }

  lemma ServerSends(y: Protocol, k: nat, store: seq<byte>) returns (z: Protocol)
    requires Inv(y) && y.drained && y.up == [] && y.down == [] && y.server.sent == k
    requires y.server.phase == ServerFsm.SendingFrame(FrameAt(y, k))
    requires y.server.current == y.server.next == Block
    requires Cut(k, y.server.Room(), |y.server.snapshot|) < |y.server.snapshot|
    ensures z == Step(y, Serve(store))
    ensures Inv(z) && z.drained && z.client == y.client && z.clientStage == y.clientStage
    ensures z.serverStage == y.serverStage && z.up == [] && z.down == [EncodeBlock(FrameAt(y, k))]
    ensures z.server == y.server.(sent := k + 1, phase :=
              if After(y, k) < |y.server.snapshot| then ServerFsm.AtLoop else ServerFsm.AwaitAck)
  {
    hide EncodeTx, EncodeBlock, Frame, Cut, ClientInv, SessionInv, GetContinue, ServerProofs.Inv;
    FrameFacts(y.server.snapshot, y.server.Room(), k);
    SessionSteps.StepInv(y, Serve(store));
    z := Step(y, Serve(store));
  }

  lemma ClientOpens(y: Protocol) returns (z: Protocol)
    requires Inv(y) && y.drained && y.client.phase == ClientFsm.AtLoop && y.client.next == Block
    requires y.client.busy
    ensures z == Step(y, CLIENT) && Inv(z)
    ensures z == y.(client := y.client.(phase := ClientFsm.AwaitBlock(FRESH_BLOCK), current := Block))
  {
    hide SessionInv, ServerProofs.Inv, ClientInv;
    SessionSteps.StepInv(y, CLIENT);
    z := Step(y, CLIENT);
  }

  lemma ClientStores(y: Protocol, dest: seq<byte>, k: nat) returns (z: Protocol)
    requires Inv(y) && y.drained && Compatible(y) && y.client.phase.AwaitBlock? && y.client.taken == k
    requires y.up == [] && y.down == [EncodeBlock(FrameAt(y, k))] && y.client.original == dest
    requires Cut(k, y.server.Room(), |y.server.snapshot|) < |y.server.snapshot| <= |dest|
    ensures z == Step(y, CLIENT) && Inv(z)
    ensures z.drained && z.server == y.server && z.serverStage == y.serverStage
    ensures z.clientStage == y.clientStage && z.up == [] && z.down == []
    ensures z.client.taken == k + 1 && z.client.next == Block && z.client.busy == y.client.busy
    ensures z.client.cfg == y.client.cfg && z.client.notes == y.client.notes
    ensures z.client.original == dest && z.client.peer == y.client.peer
    ensures z.client.phase ==
      if After(y, k) < |y.server.snapshot| then ClientFsm.AtLoop else ClientFsm.SendingAck
  {
    hide EncodeTx, EncodeBlock, Frame, Cut, GetContinue, ServerProofs.Inv, ClientFsm.Store,
      SessionInv, MoveClient;
    SessionSteps.StepInv(y, CLIENT);
    z := Step(y, CLIENT);
    FrameFacts(y.server.snapshot, y.server.Room(), k);
    SessionSteps.HearingIsStoring(y, false);
    StoredOffset(y);
    StoresFrame(y.client, FrameAt(y, k));
  }

  lemma StoredOffset(y: Protocol)
    requires Inv(y) && y.drained && Compatible(y) && Active(y.client)
    ensures y.client.offset == Cut(y.client.taken, y.server.Room(), |y.server.snapshot|)
  {
    hide Cut, ServerProofs.Inv, ClientAt, ServerAt, UpAt, DownAt, AckAt, ClientPhaseInv;
  }

  lemma StoresFrame(c: ClientFsm.Client, f: BlockPacket)
    requires ClientInv(c) && c.phase.AwaitBlock? && f.Valid() && f.header.size > 0
    requires c.offset + f.header.size <= |c.original|
    ensures var r := ClientFsm.Store(c, f);
      && r.taken == c.taken + 1 && r.next == Block && r.busy == c.busy && r.cfg == c.cfg
      && r.notes == c.notes && r.original == c.original && r.peer == c.peer
      && r.phase == if GetContinue(f.header.meta) then ClientFsm.AtLoop else ClientFsm.SendingAck
  {
    hide GetContinue;
  }

  /** Every frame is stored, and the last one is about to be acknowledged. */
  ghost predicate Acknowledging(y: Protocol, dest: seq<byte>) {
    && Handshaking(y, dest) && y.clientStage == Initiated && y.serverStage == Streaming
    && y.up == [] && y.down == []
    && y.server.phase == ServerFsm.AwaitAck && y.client.phase == ClientFsm.SendingAck
    && y.client.next == Block
  }

  /** One turn moves one frame from the server's buffer to the client's. */
  lemma TakeTurn(y: Protocol, dest: seq<byte>, k: nat, store: seq<byte>) returns (z: Protocol)
    requires Turn(y, dest, k) && Compatible(y)
    ensures z == Run(y, [Serve(store), Serve(store), CLIENT, CLIENT])
    ensures Same(y, z) && z.server.snapshot == y.server.snapshot
    ensures z.server.cursor == y.server.cursor + FrameAt(y, k).header.size
    ensures Cut(k, y.server.Room(), |y.server.snapshot|) < |y.server.snapshot|
    ensures if After(y, k) < |y.server.snapshot| then Turn(z, dest, k + 1) else Acknowledging(z, dest)
  {
    hide EncodeTx, EncodeBlock, Frame, Cut, Inv, Step, Run, Negotiate;
    TurnIsValid(y, dest, k);
    var a := ServerCuts(y, k, store);
    var b := ServerSends(a, k, store);
    var c := ClientOpens(b);
    z := ClientStores(c, dest, k);
    RunTwice(y, Serve(store), Serve(store));
    RunTwice(b, CLIENT, CLIENT);
    RunAppend(y, [Serve(store), Serve(store)], [CLIENT, CLIENT]);
    assert [Serve(store), Serve(store)] + [CLIENT, CLIENT] == [Serve(store), Serve(store), CLIENT, CLIENT];
  }

  /** Turns follow each other until the snapshot is through. */
  lemma {:induction false} TakeTurns(y: Protocol, dest: seq<byte>, k: nat, store: seq<byte>)
    returns (schedule: seq<Action>, z: Protocol)
    requires Turn(y, dest, k) && Compatible(y)
    ensures z == Run(y, schedule)
    ensures Same(y, z) && z.server.snapshot == y.server.snapshot && Acknowledging(z, dest)
    ensures z.server.cursor - y.server.cursor
         == |y.server.snapshot| - Cut(k, y.server.Room(), |y.server.snapshot|)
    decreases |y.server.snapshot| - Cut(k, y.server.Room(), |y.server.snapshot|)
  {
    hide Frame, Cut, Turn, Acknowledging, Step, Run, Negotiate;
    TurnIsValid(y, dest, k);
    schedule := [Serve(store), Serve(store), CLIENT, CLIENT];
    z := TakeTurn(y, dest, k, store);
    FrameFacts(y.server.snapshot, y.server.Room(), k);
    if After(y, k) < |y.server.snapshot| {
      var more, end := TakeTurns(z, dest, k + 1, store);
      RunAppend(y, schedule, more);
      schedule, z := schedule + more, end;
    }
  }

  lemma TurnIsValid(y: Protocol, dest: seq<byte>, k: nat)
    requires Turn(y, dest, k)
    ensures y.Valid() && 0 < y.server.Room() <= 250
  {
    hide Cut, SessionInv, ServerProofs.Inv, ClientInv;
  }

  // ---------- the acknowledgement ----------

  lemma ClientAcknowledges(y: Protocol, dest: seq<byte>) returns (z: Protocol)
    requires Acknowledging(y, dest) && Compatible(y)
    ensures z == Step(y, CLIENT) && Inv(z)
    ensures z.drained && z.server == y.server && z.serverStage == Streaming
    ensures z.clientStage == Initiated && z.up == [AckMessage(Terms(y))] && z.down == []
    ensures z.client == y.client.(phase := ClientFsm.AtLoop, next := Terminate, success := true,
                                  acked := true)
  {
    hide EncodeTx, EncodeBlock, Frame, Cut, ServerProofs.Inv, ClientInv, SessionInv;
    LiveTerms(y);
    SessionSteps.StepInv(y, CLIENT);
    z := Step(y, CLIENT);
  }

  /** While both are at work, both hold the terms. */
  lemma LiveTerms(y: Protocol)
    requires Inv(y) && y.drained && Compatible(y) && y.clientStage == Initiated && y.client.next == Block
    ensures y.client.peer == Terms(y)
    ensures y.server.phase == ServerFsm.AwaitAck ==>
      y.server.peer == Terms(y) && y.server.remaining == 0 && y.server.current == y.server.next == Block
  {
    hide Cut, Frame, UpAt, DownAt, StoredAt, AckAt, ClientInv, EncodeTx, EncodeBlock,
      ServerProofs.Loaded;
  }

  lemma ServerHearsAck(y: Protocol, store: seq<byte>) returns (z: Protocol)
    requires Inv(y) && y.drained && y.up == [AckMessage(Terms(y))]
    requires y.server.phase == ServerFsm.AwaitAck && y.server.peer == Terms(y)
    requires y.server.remaining == 0
    ensures z == Step(y, Serve(store)) && Inv(z)
    ensures z == y.(up := [], server := y.server.(phase := ServerFsm.AtLoop, next := Terminate,
                                                  success := true))
  {
    hide EncodeTx, EncodeBlock, Frame, Cut, PollTx, ServerProofs.Inv, ClientInv, SessionInv;
    DeliveredTx(ClientFsm.AckHeader(AckMsg, Terms(y).id), y.up, AckMsg, y.server.cfg.maxLen);
    SessionSteps.StepInv(y, Serve(store));
    z := Step(y, Serve(store));
  }

  /** Both report, clean up, and are at rest again. */
  lemma Reports(y: Protocol, store: seq<byte>) returns (z: Protocol)
    requires Inv(y) && y.up == [] && y.down == []
    requires y.server.phase == ServerFsm.AtLoop && y.server.next == Terminate && y.server.success
    requires y.client.phase == ClientFsm.AtLoop && y.client.next == Terminate && y.client.success
    ensures z == Step(Step(Step(Step(y, Serve(store)), CLIENT), Serve(store)), CLIENT) && Inv(z)
    ensures Quiet(z) && z.server.cfg == y.server.cfg && z.client.cfg == y.client.cfg
    ensures z.server.notes == y.server.notes + [true] && z.client.notes == y.client.notes + [true]
    ensures z.server.cursor == y.server.cursor && |z.server.mem| == |y.server.mem|
    ensures z.client.dest == y.client.dest && Reported(y, Serve(store)) == [y.server.snapshot]
  {
    hide ServerProofs.Inv, ClientInv, SessionInv;
    SessionSteps.StepInv(y, Serve(store));
    var a := Step(y, Serve(store));
    SessionSteps.StepInv(a, CLIENT);
    var b := Step(a, CLIENT);
    SessionSteps.StepInv(b, Serve(store));
    var c := Step(b, Serve(store));
    SessionSteps.StepInv(c, CLIENT);
    z := Step(c, CLIENT);
  }

  lemma Finishes(y: Protocol, dest: seq<byte>, store: seq<byte>) returns (z: Protocol)
    requires Acknowledging(y, dest) && Compatible(y)
    ensures z == Run(y, [CLIENT, Serve(store), Serve(store), CLIENT, Serve(store), CLIENT])
    ensures Inv(z) && Quiet(z) && z.server.cfg == y.server.cfg && z.client.cfg == y.client.cfg
    ensures z.server.notes == y.server.notes + [true] && z.client.notes == y.client.notes + [true]
    ensures z.server.cursor == y.server.cursor && |z.server.mem| == |y.server.mem|
    ensures |y.server.snapshot| <= |dest|
    ensures z.client.dest == y.server.snapshot + dest[|y.server.snapshot|..]
    ensures Deliveries(y, [CLIENT, Serve(store), Serve(store), CLIENT, Serve(store), CLIENT])
         == [y.server.snapshot]
  {
    hide EncodeTx, Inv, Step, Reported, Run, Deliveries;
    LiveTerms(y);
    var a := ClientAcknowledges(y, dest);
    Delivery.AckedIsExactCopy(a);
    var b := ServerHearsAck(a, store);
    z := Reports(b, store);
    var s := Serve(store);
    RunTwice(y, CLIENT, s);
    RunTwice(b, s, CLIENT);
    RunTwice(Step(Step(b, s), CLIENT), s, CLIENT);
    RunAppend(b, [s, CLIENT], [s, CLIENT]);
    RunAppend(y, [CLIENT, s], [s, CLIENT] + [s, CLIENT]);
    assert [CLIENT, s] + ([s, CLIENT] + [s, CLIENT]) == [CLIENT, s, s, CLIENT, s, CLIENT];
    assert [s] + [CLIENT, s, CLIENT] == [s, CLIENT] + [s, CLIENT];
    OneDelivery(b, s, [CLIENT, s, CLIENT]);
    NothingDelivered(y, [CLIENT, s]);
    DeliveriesAppend(y, [CLIENT, s], [s] + [CLIENT, s, CLIENT]);
    assert [CLIENT, s] + ([s] + [CLIENT, s, CLIENT]) == [CLIENT, s, s, CLIENT, s, CLIENT];
  }

  /** Nothing noted, nothing delivered. */
  lemma NothingDelivered(y: Protocol, schedule: seq<Action>)
    requires y.Valid() && Run(y, schedule).server.notes == y.server.notes
    ensures Deliveries(y, schedule) == []
  {
    hide Run, Deliveries;
    Delivery.DeliveriesAreNoted(y, schedule);
  }

  /** One notification more: if the first step brings it, it brings the only delivery. */
  lemma OneDelivery(y: Protocol, a: Action, rest: seq<Action>)
    requires y.Valid() && Reported(y, a) == [y.server.snapshot]
    requires Run(y, [a] + rest).server.notes == y.server.notes + [true]
    ensures Deliveries(y, [a] + rest) == [y.server.snapshot]
  {
    hide Step, Run, Reported, Deliveries;
    DeliveriesAppend(y, [a], rest);
    DeliveriesOfOne(y, a);
    Delivery.DeliveriesAreNoted(y, [a] + rest);
  }

  // ---------- main results ----------

  /** A cooperative transfer goes through. From rest, for every storage contents and every
      destination that fit, there is a schedule after which both parties have reported success
      once more, the destination is an exact copy, and the parties are at rest again. */
  lemma CooperativeTransfer(y: Protocol, dest: seq<byte>, store: seq<byte>)
    returns (schedule: seq<Action>, z: Protocol)
    requires Inv(y) && Compatible(y) && Quiet(y) && Feasible(y, store, dest)
    ensures z == Run(y, schedule)
    ensures Inv(z) && Quiet(z) && z.server.cfg == y.server.cfg && z.client.cfg == y.client.cfg
    ensures z.server.notes == y.server.notes + [true] && z.client.notes == y.client.notes + [true]
    ensures z.client.dest == Load(y, store) + dest[|Load(y, store)|..]
    ensures z.server.cursor == y.server.cursor + |Load(y, store)| && |z.server.mem| == |y.server.mem|
    ensures Deliveries(y, schedule) == [Load(y, store)]
  {
    hide EncodeTx, Inv, Step, Run, Cut, Deliveries;
    InvIsValid(y);
    var load := Load(y, store);
    var a := Asks(y, dest);
    var b := Answers(a, dest, store);
    var c := Agrees(b, dest, load, store);
    var turns, d := TakeTurns(c, dest, 0, store);
    FirstCut(c);
    z := Finishes(d, dest, store);
    var ask, answer := [StartTransfer(Some(dest)), CLIENT, CLIENT], [Serve(store), Serve(store), Serve(store), Serve(store)];
    var agree, finish := [CLIENT, CLIENT, CLIENT, CLIENT, Serve(store)], [CLIENT, Serve(store), Serve(store), CLIENT, Serve(store), CLIENT];
    RunAppend(y, ask, answer);
    RunAppend(y, ask + answer, agree);
    RunAppend(y, ask + answer + agree, turns);
    RunAppend(y, ask + answer + agree + turns, finish);
    schedule := ask + answer + agree + turns + finish;
    NothingDelivered(y, ask + answer + agree + turns);
    DeliveriesAppend(y, ask + answer + agree + turns, finish);
  }

  lemma InvIsValid(y: Protocol)
    requires Inv(y)
    ensures y.Valid()
  {
    hide SessionInv, ServerProofs.Inv, ClientInv;
  }

  lemma FirstCut(y: Protocol)
    requires y.Valid()
    ensures Cut(0, y.server.Room(), |y.server.snapshot|) == 0
  {}

  /** Freshly constructed parties get to rest once the server is started. */
  lemma FreshPartiesRest(start: Protocol) returns (z: Protocol)
    requires Initial(start)
    ensures z == Run(start, [StartServer, Serve([])])
    ensures Inv(z) && Quiet(z) && Same(start, z) && z.server.cursor == 0
  {
    hide SessionInv;
    InitialInv(start);
    SessionSteps.StepInv(start, StartServer);
    var a := Step(start, StartServer);
    SessionSteps.StepInv(a, Serve([]));
    z := Step(a, Serve([]));
    RunTwice(start, StartServer, Serve([]));
  }

  /** The bytes that a sequence of transfers takes out of the allocation. */
  function TotalLoad(y: Protocol, stores: seq<seq<byte>>): nat
    requires y.Valid()
  {
    if stores == [] then 0 else |Load(y, stores[0])| + TotalLoad(y, stores[1..])
  }

  lemma {:induction false} SameLoad(y: Protocol, z: Protocol, stores: seq<seq<byte>>)
    requires y.Valid() && z.Valid()
    requires z.server.cfg == y.server.cfg && z.client.cfg == y.client.cfg
    ensures TotalLoad(y, stores) == TotalLoad(z, stores)
  {
    if stores != [] {
      SameLoad(y, z, stores[1..]);
    }
  }

  /** What a sequence of transfers of these storages carries. */
  function Loads(y: Protocol, stores: seq<seq<byte>>): seq<seq<byte>>
    requires y.Valid()
  {
    if stores == [] then [] else [Load(y, stores[0])] + Loads(y, stores[1..])
  }

  lemma {:induction false} SameLoadsOf(y: Protocol, z: Protocol, stores: seq<seq<byte>>)
    requires y.Valid() && z.Valid()
    requires z.server.cfg == y.server.cfg && z.client.cfg == y.client.cfg
    ensures Loads(y, stores) == Loads(z, stores)
  {
    if stores != [] {
      SameLoadsOf(y, z, stores[1..]);
    }
  }

  function Successes(n: nat): seq<bool> {
    if n == 0 then [] else [true] + Successes(n - 1)
  }

  lemma OneMore(notes: seq<bool>, n: nat)
    ensures notes + [true] + Successes(n) == notes + Successes(n + 1)
  {
    assert notes + [true] + Successes(n) == notes + ([true] + Successes(n));
  }

  /** Any number of transfers can follow each other, as long as their total fits what is left
      of the server's allocation: all of them succeed, on both sides. */
  lemma {:induction false} TransfersFollow(y: Protocol, dest: seq<byte>, stores: seq<seq<byte>>)
    returns (schedule: seq<Action>, z: Protocol)
    requires Inv(y) && Compatible(y) && Quiet(y) && y.client.cfg.id != 0
    requires forall i :: 0 <= i < |stores| ==> 0 < |Load(y, stores[i])| <= |dest|
    requires y.server.cursor + TotalLoad(y, stores) <= |y.server.mem|
    ensures z == Run(y, schedule) && Inv(z) && Quiet(z)
    ensures z.server.notes == y.server.notes + Successes(|stores|)
    ensures z.client.notes == y.client.notes + Successes(|stores|)
    ensures Deliveries(y, schedule) == Loads(y, stores)
    decreases |stores|
  {
    hide Inv, Step, Quiet, Load, Reported;
    InvIsValid(y);
    if stores == [] {
      schedule, z := [], y;
    } else {
      var first, u := CooperativeTransfer(y, dest, stores[0]);
      SameLoad(y, u, stores[1..]);
      SameLoads(y, u);
      var more, end := TransfersFollow(u, dest, stores[1..]);
      RunAppend(y, first, more);
      DeliveriesAppend(y, first, more);
      SameLoadsOf(y, u, stores[1..]);
      OneMore(y.server.notes, |stores| - 1);
      OneMore(y.client.notes, |stores| - 1);
      schedule, z := first + more, end;
    }
  }

  lemma SameLoads(y: Protocol, z: Protocol)
    requires y.Valid() && z.Valid()
    requires z.server.cfg == y.server.cfg && z.client.cfg == y.client.cfg
    ensures forall s :: Load(y, s) == Load(z, s)
  {}

  /** Some run ends with that many transfers, all of them reported successful by both parties. */
  ghost predicate CanSucceed(start: Protocol, n: nat)
    requires start.Valid()
  {
    exists schedule: seq<Action> ::
      var z := Run(start, schedule);
      z.server.notes == Successes(n) && z.client.notes == Successes(n)
  }

  /** Fresh parties whose frames fit can transfer any sequence of storage contents that fits the
      allocation. */
  lemma AnyNumberSucceeds(start: Protocol, dest: seq<byte>, stores: seq<seq<byte>>)
    requires Initial(start) && Compatible(start) && start.client.cfg.id != 0
    requires forall i :: 0 <= i < |stores| ==> 0 < |Load(start, stores[i])| <= |dest|
    requires TotalLoad(start, stores) <= start.server.Room() * start.server.cfg.blocks
    ensures CanSucceed(start, |stores|)
  {
    hide Inv, Step, Quiet, Load, Run;
    var quiet := FreshPartiesRest(start);
    SameLoad(start, quiet, stores);
    SameLoads(start, quiet);
    var more, z := TransfersFollow(quiet, dest, stores);
    RunAppend(start, [StartServer, Serve([])], more);
    assert z == Run(start, [StartServer, Serve([])] + more);
  }
}

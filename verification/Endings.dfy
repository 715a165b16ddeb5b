/** Nothing lasts for ever once the timer has expired: whatever the channels hold and however full
    they are, each party outside its waiting state gives up within a stated number of steps, with
    one report. */
module Endings {
  import opened Bytes
  import opened Options
  import opened Packets
  import opened Transport
  import opened Fsm
  import opened SessionProofs
  import ServerFsm
  import ClientFsm
  import ServerProofs
  import ServerRuns
  import ClientRuns
  import Sessions

  // ---------- the client ----------

  /** A step of the client at which the timer has expired. */
  predicate ClientExpired(i: ClientRuns.Input) {
    i.Move? && i.expired
  }

  function ClientNext(c: ClientFsm.Client, i: ClientRuns.Input): (r: ClientFsm.Client)
    requires c.Valid()
    ensures r.Valid()
  {
    match i
    case StartCall(buffer) => ClientFsm.Start(c, buffer)
    case Move(rx, tx, expired) => ClientFsm.Step(c, rx, tx, expired).client
  }

  function ClientAfter(c: ClientFsm.Client, inputs: seq<ClientRuns.Input>): (r: ClientFsm.Client)
    requires c.Valid()
    ensures r.Valid()
    decreases |inputs|
  {
    if inputs == [] then c else ClientAfter(ClientNext(c, inputs[0]), inputs[1..])
  }

  /** The most steps that are left until the client is idle. A byte that is still free allows for
      one more frame, which takes two steps. */
  function ClientLeft(c: ClientFsm.Client): nat {
    match c.phase
    case AtLoop =>
      (match c.next
       case Idle => if c.busy then 1 else 0
       case Terminate => 2
       case Block => 5 + 2 * c.remaining
       case Initiate => 7 + 2 * c.remaining
       case Response => 9 + 2 * c.remaining
       case Request => 11 + 2 * c.remaining)
    case SendingRequest => 10 + 2 * c.remaining
    case AwaitResponse => 8 + 2 * c.remaining
    case SendingInitiate => 6 + 2 * c.remaining
    case AwaitBlock(p) => (if p.buffer == [] then 4 else 6) + 2 * c.remaining
    case _ => 3
  }

  /** What is reported in the rest of a transfer. */
  ghost predicate ReportsOnce(c: ClientFsm.Client, r: ClientFsm.Client) {
    if Active(c) && !Active(r) then r.notes == c.notes + [r.acked]
    else r.notes == c.notes && (!Active(c) ==> !Active(r) && r.acked == c.acked)
  }

  lemma ClientSends(c: ClientFsm.Client, rx: Channel, tx: Channel)
    requires ClientInv(c) && c.phase in {ClientFsm.SendingRequest, ClientFsm.SendingInitiate,
                                         ClientFsm.SendingAck, ClientFsm.SendingAckNot}
    ensures var r := ClientFsm.Step(c, rx, tx, true).client;
      ClientLeft(r) < ClientLeft(c) && ReportsOnce(c, r)
  {
    hide EncodeTx, Push, CanSendTx;
  }

  lemma ClientHearsResponse(c: ClientFsm.Client, rx: Channel, tx: Channel)
    requires ClientInv(c) && c.phase == ClientFsm.AwaitResponse
    ensures var r := ClientFsm.Step(c, rx, tx, true).client;
      ClientLeft(r) < ClientLeft(c) && ReportsOnce(c, r)
  {
    hide PollTx;
  }

  lemma StoreShortens(c: ClientFsm.Client, p: BlockPacket)
    requires ClientInv(c) && c.phase.AwaitBlock? && p.Valid()
    ensures var r := ClientFsm.Store(c, p);
      && ReportsOnce(c, r)
      && (r.phase in {ClientFsm.SendingAck, ClientFsm.SendingAckNot}
          || (r.phase == ClientFsm.AtLoop && r.next == Block && p.buffer != []
              && r.remaining + p.header.size == c.remaining))
  {
    hide GetContinue;
  }

  lemma ClientHearsBlock(c: ClientFsm.Client, rx: Channel, tx: Channel)
    requires ClientInv(c) && c.phase.AwaitBlock?
    ensures var r := ClientFsm.Step(c, rx, tx, true).client;
      ClientLeft(r) < ClientLeft(c) && ReportsOnce(c, r)
  {
    hide PollBlock, ClientFsm.Store;
    var got := PollBlock(rx, c.phase.packet, BlockMsg, c.cfg.maxLen);
    ClientRuns.PollOutcome(rx, c.phase.packet, c.cfg.maxLen);
    StoreShortens(c, got.packet);
  }

  lemma ClientActivates(c: ClientFsm.Client, rx: Channel, tx: Channel)
    requires ClientInv(c) && c.phase == ClientFsm.AtLoop
    ensures var r := ClientFsm.Step(c, rx, tx, true).client;
      && (ClientLeft(r) < ClientLeft(c) || (ClientLeft(c) == 0 && r == c))
      && ReportsOnce(c, r)
  {}

  lemma ClientStepShortens(c: ClientFsm.Client, rx: Channel, tx: Channel)
    requires ClientInv(c)
    ensures var r := ClientFsm.Step(c, rx, tx, true).client;
      && ClientInv(r) && ReportsOnce(c, r)
      && (ClientLeft(r) < ClientLeft(c) || (ClientLeft(c) == 0 && r == c))
  {
    hide ClientLeft, ReportsOnce, ClientFsm.Step, ClientPhaseInv;
    ClientStepInv(c, rx, tx, true);
    match c.phase
    case AtLoop => ClientActivates(c, rx, tx);
    case AwaitResponse => ClientHearsResponse(c, rx, tx);
    case AwaitBlock(_) => ClientHearsBlock(c, rx, tx);
    case _ => ClientSends(c, rx, tx);
  }

  lemma {:induction false} ClientEnds(c: ClientFsm.Client, inputs: seq<ClientRuns.Input>)
    requires ClientInv(c) && ClientLeft(c) <= |inputs|
    requires forall i :: 0 <= i < |inputs| ==> ClientExpired(inputs[i])
    ensures var r := ClientAfter(c, inputs); ClientInv(r) && ClientLeft(r) == 0 && ReportsOnce(c, r)
    decreases |inputs|
  {
    hide ClientLeft, ClientFsm.Step, ClientInv;
    assert c.Valid() by { ClientIsValid(c); }
    if inputs != [] {
      assert ClientExpired(inputs[0]);
      ClientStepShortens(c, inputs[0].rx, inputs[0].tx);
      ClientEnds(ClientFsm.Step(c, inputs[0].rx, inputs[0].tx, true).client, inputs[1..]);
    }
  }

  lemma ClientIsValid(c: ClientFsm.Client)
    requires ClientInv(c)
    ensures c.Valid()
  {}

  /** The client gives up. From every state of a transfer, with any messages arriving, any room in
      the outgoing channel or none, and the timer expired at every step: after 11 steps, and two
      more for every byte that is still free, the client is idle and not busy, and has reported
      exactly once more; true if and only if its acknowledgement was sent. */
  lemma ClientGivesUp(c: ClientFsm.Client, inputs: seq<ClientRuns.Input>)
    requires ClientInv(c) && Active(c)
    requires forall i :: 0 <= i < |inputs| ==> ClientExpired(inputs[i])
    requires |inputs| >= 11 + 2 * c.remaining
    ensures var r := ClientAfter(c, inputs);
      && r.phase == ClientFsm.AtLoop && r.current == r.next == Idle && !r.busy
      && r.notes == c.notes + [r.acked]
  {
    hide ClientPhaseInv;
    ClientEnds(c, inputs);
  }

  /** BLOCK is left with an answer: when the client goes on to TERMINATE, it has just sent an
      acknowledgement or a negative one, in the session's name; or the timer has expired over a
      channel that holds 20 messages. */
  lemma BlockEndsWithAnswer(c: ClientFsm.Client, rx: Channel, tx: Channel, expired: bool)
    requires ClientInv(c) && c.phase != ClientFsm.AtLoop && c.next == Block
    ensures var m := ClientFsm.Step(c, rx, tx, expired);
      && m.client.next in {Block, Terminate}
      && (m.client.next == Terminate ==>
            || (m.tx == tx + [AckMessage(c.peer)] && m.client.success)
            || (m.tx == tx + [AckNotMessage(c.peer)] && !m.client.success)
            || (m.tx == tx && |tx| >= 20 && expired && !m.client.success))
  {
    hide EncodeTx, PollBlock, ClientFsm.Store;
    if c.phase.AwaitBlock? {
      var got := PollBlock(rx, c.phase.packet, BlockMsg, c.cfg.maxLen);
      StoreShortens(c, got.packet);
      StoreStays(c, got.packet);
    }
  }

  lemma StoreStays(c: ClientFsm.Client, p: BlockPacket)
    requires ClientInv(c) && c.phase.AwaitBlock? && p.Valid()
    ensures ClientFsm.Store(c, p).next == Block
  {
    hide GetContinue;
  }

  /** Nothing of an earlier transfer is left in an idle client. */
  predicate IdleIsClear(c: ClientFsm.Client) {
    c.next == Idle ==>
      && c.phase == ClientFsm.AtLoop && c.peer == Config(0, 0, 0, 0) && !c.attached
      && c.offset == 0 && c.remaining == 0 && !c.success
  }

  lemma ClearStep(c: ClientFsm.Client, i: ClientRuns.Input)
    requires ClientInv(c) && IdleIsClear(c)
    ensures ClientInv(ClientNext(c, i)) && IdleIsClear(ClientNext(c, i))
  {
    hide ClientPhaseInv, ClientFsm.Step, ClientFsm.Start;
    match i
    case StartCall(buffer) =>
      ClientStartInv(c, buffer);
      StartIsClear(c, buffer);
    case Move(rx, tx, expired) =>
      ClientStepInv(c, rx, tx, expired);
      MoveIsClear(c, rx, tx, expired);
  }

  lemma StartIsClear(c: ClientFsm.Client, buffer: Option<seq<byte>>)
    requires c.Valid() && IdleIsClear(c)
    ensures IdleIsClear(ClientFsm.Start(c, buffer))
  {}

  lemma MoveIsClear(c: ClientFsm.Client, rx: Channel, tx: Channel, expired: bool)
    requires ClientInv(c) && IdleIsClear(c)
    ensures IdleIsClear(ClientFsm.Step(c, rx, tx, expired).client)
  {
    hide EncodeTx, CanSendTx, Push, PollTx, PollBlock, ClientFsm.Store;
    if c.phase.AwaitBlock? {
      StoreStays(c, PollBlock(rx, c.phase.packet, BlockMsg, c.cfg.maxLen).packet);
    }
  }

  lemma {:induction false} ClearRun(c: ClientFsm.Client, inputs: seq<ClientRuns.Input>)
    requires ClientInv(c) && IdleIsClear(c)
    ensures IdleIsClear(ClientAfter(c, inputs))
    decreases |inputs|
  {
    hide ClientPhaseInv, ClientNext, IdleIsClear;
    if inputs != [] {
      ClearStep(c, inputs[0]);
      ClearRun(ClientNext(c, inputs[0]), inputs[1..]);
    }
  }

  /** In every run of a client, whatever arrives, an idle client holds no terms, no buffer and no
      success from the transfers before. */
  lemma TransfersAreSeparate(c: ClientFsm.Client, inputs: seq<ClientRuns.Input>)
    requires ClientFsm.Initial(c)
    ensures IdleIsClear(ClientAfter(c, inputs))
  {
    ClientInitial(c);
    ClearRun(c, inputs);
  }

  // ---------- the server ----------

  function ServerNext(s: ServerFsm.Server, i: ServerRuns.Input): (r: ServerFsm.Server)
    requires s.Valid()
    ensures r.Valid()
  {
    match i
    case StartCall => ServerFsm.Start(s)
    case Move(rx, tx, e) => ServerFsm.Step(s, rx, tx, e).server
  }

  function ServerAfter(s: ServerFsm.Server, inputs: seq<ServerRuns.Input>): (r: ServerFsm.Server)
    requires s.Valid()
    ensures r.Valid()
    decreases |inputs|
  {
    if inputs == [] then s else ServerAfter(ServerNext(s, inputs[0]), inputs[1..])
  }

  predicate ServerExpired(i: ServerRuns.Input) {
    i.Move? && i.e.expired
  }

  /** The session is over: reported, and everything is cleared; or it cannot be. */
  predicate ServerEnded(s: ServerFsm.Server, r: ServerFsm.Server) {
    || r.phase == ServerFsm.Overflowed
    || (&& r.phase == ServerFsm.AtLoop && r.next == Request
        && |r.notes| == |s.notes| + 1 && r.notes[..|s.notes|] == s.notes
        && r.peer == Config(0, 0, 0, 0) && r.remaining == 0 && !r.success)
  }

  /** The most steps that are left in a session. Before the storage is read, as much may come as
      there is room behind the pointer. */
  function ServerLeft(s: ServerFsm.Server): nat
    requires s.Valid()
  {
    match s.phase
    case AtLoop =>
      (match s.next
       case Terminate => 1
       case Block => 2 + 2 * s.remaining
       case Initiate => 4 + 2 * s.remaining
       case Response => 6 + 2 * (|s.mem| - s.cursor)
       case _ => 0)
    case AwaitAck => 2
    case SendingFrame(_) => 3 + 2 * s.remaining
    case AwaitInitiate => 3 + 2 * s.remaining
    case SendingResponse(_) => 5 + 2 * s.remaining
    case _ => 0
  }

  predicate InSession(s: ServerFsm.Server) {
    !s.Ready() && s.phase != ServerFsm.Overflowed
  }

  lemma ServerSends(s: ServerFsm.Server, rx: Channel, tx: Channel, e: ServerFsm.Env)
    requires ServerProofs.Inv(s) && e.expired && (s.phase.SendingResponse? || s.phase.SendingFrame?)
    ensures var r := ServerFsm.Step(s, rx, tx, e).server;
      ServerLeft(r) < ServerLeft(s) && InSession(r) && r.notes == s.notes
  {
    hide CanSendTx, CanSendBlock, EncodeTx, EncodeBlock, Push, GetContinue, ServerProofs.Loaded;
  }

  lemma ServerHearsInitiate(s: ServerFsm.Server, rx: Channel, tx: Channel, e: ServerFsm.Env)
    requires ServerProofs.Inv(s) && e.expired && s.phase == ServerFsm.AwaitInitiate
    ensures var r := ServerFsm.Step(s, rx, tx, e).server;
      ServerLeft(r) < ServerLeft(s) && InSession(r) && r.notes == s.notes
  {
    hide PollTx, ServerProofs.PhaseInv;
  }

  lemma ServerHearsAck(s: ServerFsm.Server, rx: Channel, tx: Channel, e: ServerFsm.Env)
    requires ServerProofs.Inv(s) && e.expired && s.phase == ServerFsm.AwaitAck
    ensures var r := ServerFsm.Step(s, rx, tx, e).server;
      ServerLeft(r) < ServerLeft(s) && InSession(r) && r.notes == s.notes
  {
    hide PollTx, ServerProofs.PhaseInv, Min;
  }

  lemma ServerActivates(s: ServerFsm.Server, rx: Channel, tx: Channel, e: ServerFsm.Env)
    requires ServerProofs.Inv(s) && s.phase == ServerFsm.AtLoop && InSession(s)
    ensures var r := ServerFsm.Step(s, rx, tx, e).server;
      || (ServerLeft(r) < ServerLeft(s) && InSession(r) && r.notes == s.notes)
      || ServerEnded(s, r)
  {
    hide SetContinue, SetFrameNumber, HeaderFor, Negotiate;
  }

  lemma ServerStepShortens(s: ServerFsm.Server, rx: Channel, tx: Channel, e: ServerFsm.Env)
    requires ServerProofs.Inv(s) && e.expired && InSession(s)
    ensures var r := ServerFsm.Step(s, rx, tx, e).server;
      && ServerProofs.Inv(r)
      && ((ServerLeft(r) < ServerLeft(s) && InSession(r) && r.notes == s.notes) || ServerEnded(s, r))
  {
    hide ServerLeft, ServerEnded, ServerFsm.Step, ServerProofs.PhaseInv;
    ServerProofs.StepInv(s, rx, tx, e);
    match s.phase
    case AtLoop => ServerActivates(s, rx, tx, e);
    case AwaitInitiate => ServerHearsInitiate(s, rx, tx, e);
    case AwaitAck => ServerHearsAck(s, rx, tx, e);
    case SendingResponse(_) => ServerSends(s, rx, tx, e);
    case SendingFrame(_) => ServerSends(s, rx, tx, e);
    case AwaitRequest => assert false;
    case Overflowed => assert false;
  }

  lemma {:induction false} ServerEnds(s: ServerFsm.Server, inputs: seq<ServerRuns.Input>) returns (k: nat)
    requires ServerProofs.Inv(s) && InSession(s) && ServerLeft(s) <= |inputs|
    requires forall i :: 0 <= i < |inputs| ==> ServerExpired(inputs[i])
    ensures k <= ServerLeft(s) && ServerEnded(s, ServerAfter(s, inputs[..k]))
    decreases |inputs|
  {
    hide ServerLeft, ServerFsm.Step, ServerProofs.PhaseInv;
    SomethingLeft(s);
    var i, rest := inputs[0], inputs[1..];
    assert ServerExpired(i);
    ServerStepShortens(s, i.rx, i.tx, i.e);
    var r := ServerFsm.Step(s, i.rx, i.tx, i.e).server;
    if ServerEnded(s, r) {
      k := 1;
      assert inputs[..1][1..] == [];
    } else {
      var j := ServerEnds(r, rest);
      k := j + 1;
      assert inputs[..k][1..] == rest[..j];
    }
  }

  lemma SomethingLeft(s: ServerFsm.Server)
    requires ServerProofs.Inv(s) && InSession(s)
    ensures 0 < ServerLeft(s) <= 6 + 2 * (|s.mem| - s.cursor)
  {
    hide ServerProofs.PhaseInv;
  }

  /** The server gives up. From every state of a session, with any messages arriving, any room in
      the outgoing channel or none, anything in the storage, and the timer expired at every step:
      within 6 steps, and two more for every byte behind the pointer, the session is reported,
      exactly once, and cleared away; unless its storage read overflows. */
  lemma ServerGivesUp(s: ServerFsm.Server, inputs: seq<ServerRuns.Input>) returns (k: nat)
    requires ServerProofs.Inv(s) && InSession(s)
    requires forall i :: 0 <= i < |inputs| ==> ServerExpired(inputs[i])
    requires |inputs| >= 6 + 2 * (|s.mem| - s.cursor)
    ensures k <= 6 + 2 * (|s.mem| - s.cursor) && ServerEnded(s, ServerAfter(s, inputs[..k]))
  {
    hide ServerProofs.PhaseInv;
    SomethingLeft(s);
    k := ServerEnds(s, inputs);
  }

  lemma HearsForeign(s: ServerFsm.Server, rx: Channel, tx: Channel, e: ServerFsm.Env)
    requires ServerProofs.Inv(s) && rx != [] && Sessions.IdOf(rx[0]) != s.peer.id
    requires (s.phase == ServerFsm.AwaitInitiate && Sessions.IsMessage(rx[0], 3, s.cfg.maxLen))
             || (s.phase == ServerFsm.AwaitAck && Sessions.IsMessage(rx[0], 5, s.cfg.maxLen))
    ensures ServerFsm.Step(s, rx, tx, e).server == ServerFsm.Go(s, Terminate) && !s.success
  {
    hide PollTx, Sessions.IsMessage, Sessions.IdOf, ServerProofs.PhaseInv;
    Sessions.Heard(rx, InitiateMsg, 3, s.cfg.maxLen);
    Sessions.Heard(rx, AckMsg, 5, s.cfg.maxLen);
  }

  /** A message of the awaited type with another session's identifier ends the session: whatever
      else happens, the next activation reports it as failed and clears it away. */
  lemma ForeignMessageEndsSession(s: ServerFsm.Server, first: ServerRuns.Input, second: ServerRuns.Input)
    requires ServerProofs.Inv(s) && first.Move? && second.Move? && first.rx != []
    requires Sessions.IdOf(first.rx[0]) != s.peer.id
    requires (s.phase == ServerFsm.AwaitInitiate && Sessions.IsMessage(first.rx[0], 3, s.cfg.maxLen))
             || (s.phase == ServerFsm.AwaitAck && Sessions.IsMessage(first.rx[0], 5, s.cfg.maxLen))
    ensures var r := ServerNext(ServerNext(s, first), second);
      ServerEnded(s, r) && r.notes == s.notes + [false]
  {
    hide Sessions.IsMessage, Sessions.IdOf, ServerProofs.PhaseInv, ServerFsm.Step;
    HearsForeign(s, first.rx, first.tx, first.e);
    TerminateReports(ServerFsm.Go(s, Terminate), second.rx, second.tx, second.e);
  }

  lemma TerminateReports(s: ServerFsm.Server, rx: Channel, tx: Channel, e: ServerFsm.Env)
    requires s.Valid() && s.phase == ServerFsm.AtLoop && s.next == Terminate
    ensures var r := ServerFsm.Step(s, rx, tx, e).server;
      ServerEnded(s, r) && r.notes == s.notes + [s.success]
  {}

  /** No message that a waiting server takes at this step is a request. */
  predicate NoRequest(i: ServerRuns.Input, maxLen: nat) {
    i.Move? && i.rx != [] ==> !Sessions.IsMessage(i.rx[0], 1, maxLen)
  }

  /** Waiting for a request is different: there the timer means nothing. However often it expires,
      without a request the server waits on, and start calls change nothing. */
  lemma {:induction false} ServerWaitsOn(s: ServerFsm.Server, inputs: seq<ServerRuns.Input>)
    requires ServerProofs.Inv(s) && s.phase == ServerFsm.AwaitRequest
    requires forall i :: 0 <= i < |inputs| ==> NoRequest(inputs[i], s.cfg.maxLen)
    ensures ServerAfter(s, inputs) == s
    decreases |inputs|
  {
    hide ServerProofs.Inv, PollTx, Sessions.IsMessage;
    assert s.Valid() && s.busy by { WaitingIsBusy(s); }
    if inputs != [] {
      assert NoRequest(inputs[0], s.cfg.maxLen);
      if inputs[0].Move? {
        Sessions.Heard(inputs[0].rx, RequestMsg, 1, s.cfg.maxLen);
      }
      ServerWaitsOn(s, inputs[1..]);
    }
  }

  lemma WaitingIsBusy(s: ServerFsm.Server)
    requires ServerProofs.Inv(s) && s.phase == ServerFsm.AwaitRequest
    ensures s.Valid() && s.busy
  {}
}

/** What holds in every run, also for transfers that were not started drained: there are only
    one client and one server, so only one set of terms is ever on the wire. */
module AnyRun {
  import opened Bytes
  import opened Options
  import opened Packets
  import opened Transport
  import opened Fsm
  import opened Protocol
  import opened SessionProofs
  import ServerFsm
  import ClientFsm
  import ServerProofs
  import SessionSteps
  import Delivery
  import Wire

  /** Every queued message of a type is the given one. */
  ghost predicate Only(q: Channel, t: MsgType, m: Message) {
    forall i :: 0 <= i < |q| && At(q[i], 0) == TypeCode(t) ==> q[i] == m
  }

  /** The server has offered the terms, or is about to. */
  predicate InSession(s: ServerFsm.Server) {
    s.phase.SendingResponse? || s.phase == ServerFsm.AwaitInitiate || s.InBlock()
    || (s.phase == ServerFsm.AtLoop && s.next == Initiate)
  }

  ghost predicate ServerTerms(s: ServerFsm.Server, client: Config) {
    var terms := Negotiate(client, s.cfg);
    && s.peer in {NO_CONFIG, client, terms}
    && (s.phase == ServerFsm.AtLoop && s.next == Response ==> s.peer == client)
    && (InSession(s) ==> s.peer == terms && terms.blocks > 0)
    && (s.phase.SendingResponse? ==> s.phase.response == HeaderFor(ResponseMsg, terms))
  }

  ghost predicate ClientTerms(c: ClientFsm.Client, terms: Config) {
    && c.peer in {NO_CONFIG, terms}
    && (c.next in {Initiate, Block} ==> c.peer == terms && terms.blocks > 0)
  }

  /** Requests carry the client's configuration, responses the negotiated terms, of which the
      block count is not zero. */
  ghost predicate TermsInv(y: Protocol) {
    && Only(y.up, RequestMsg, RequestMessage(y.client.cfg))
    && Only(y.down, ResponseMsg, ResponseMessage(Terms(y)))
    && (Terms(y).blocks == 0 ==> Lacks(y.down, ResponseMsg))
    && ServerTerms(y.server, y.client.cfg)
    && ClientTerms(y.client, Terms(y))
  }

  lemma OnlyRest(q: Channel, t: MsgType, m: Message)
    requires Only(q, t, m)
    ensures Only(Rest(q), t, m)
  {}

  lemma OnlyPush(q: Channel, h: TxHeader, t: MsgType, m: Message)
    requires Only(q, t, m) && t !in {Unassigned, AckNotMsg}
    requires h.msgType == t ==> EncodeTx(h) == m
    ensures Only(Push(q, EncodeTx(h)), t, m)
  {
    TypeCodesDiffer(h.msgType, t);
    TypeCodesDiffer(Unassigned, t);
  }

  lemma OnlyHeard(q: Channel, h: TxHeader, maxLen: nat)
    requires Only(q, h.msgType, EncodeTx(h)) && h.msgType !in {Unassigned, AckNotMsg} && h.crc == 0
    requires TX_HEADER_SIZE <= maxLen
    ensures PollTx(q, h.msgType, maxLen) == None || PollTx(q, h.msgType, maxLen) == Some(h)
    ensures Lacks(q, h.msgType) ==> PollTx(q, h.msgType, maxLen) == None
  {
    hide EncodeTx, ReadTx;
    if q != [] && Matches(q[0], h.msgType, maxLen) {
      DeliveredTx(h, q, h.msgType, maxLen);
    }
  }

  // ---------- the server moves ----------

  lemma FillTerms(s: ServerFsm.Server, store: seq<byte>, client: Config)
    requires s.Valid() && s.peer == Negotiate(client, s.cfg)
    ensures var r := ServerFsm.Fill(s, store);
      r.peer == s.peer && r.cfg == s.cfg
      && (r.phase in {ServerFsm.AtLoop, ServerFsm.Overflowed} || r.phase.SendingResponse?)
      && (r.phase == ServerFsm.AtLoop ==> r.next == Terminate)
      && (r.phase.SendingResponse? ==>
            s.peer.blocks > 0 && r.phase.response == HeaderFor(ResponseMsg, s.peer))
  {
    if s.peer.blocks == 0 {
      assert s.Room() * s.peer.blocks == 0;
    }
  }

  lemma ActivationKeepsTerms(s: ServerFsm.Server, store: seq<byte>, client: Config)
    requires ServerProofs.Inv(s) && s.phase == ServerFsm.AtLoop && ServerTerms(s, client)
    ensures ServerTerms(ServerFsm.Activate(s, store), client)
  {
    hide SetContinue, SetFrameNumber, ServerProofs.PhaseInv, ServerFsm.Fill, HeaderFor, Negotiate;
    if s.next == Response {
      var agreed := s.(current := Response, busy := true, peer := Negotiate(s.peer, s.cfg));
      FillTerms(agreed, store, client);
    }
  }

  lemma HearingKeepsTerms(s: ServerFsm.Server, rx: Channel, e: Env, client: Config)
    requires ServerProofs.Inv(s) && ServerTerms(s, client)
    requires Only(rx, RequestMsg, RequestMessage(client))
    ensures s.phase == ServerFsm.AwaitRequest ==> ServerTerms(ServerFsm.HearRequest(s, rx), client)
    ensures s.phase == ServerFsm.AwaitInitiate ==>
      ServerTerms(ServerFsm.HearInitiate(s, rx, e.expired), client)
    ensures s.phase == ServerFsm.AwaitAck ==> ServerTerms(ServerFsm.HearAck(s, rx, e), client)
  {
    hide EncodeTx, PollTx, ServerProofs.PhaseInv, Only, Negotiate;
    OnlyHeard(rx, HeaderFor(RequestMsg, client), s.cfg.maxLen);
    assert ConfigOf(HeaderFor(RequestMsg, client)) == client;
  }

  lemma ServerKeepsTerms(s: ServerFsm.Server, rx: Channel, tx: Channel, e: Env, client: Config)
    requires ServerProofs.Inv(s) && ServerTerms(s, client)
    requires Only(rx, RequestMsg, RequestMessage(client))
    ensures ServerTerms(ServerFsm.Step(s, rx, tx, e).server, client)
  {
    hide EncodeTx, EncodeBlock, CanSendTx, CanSendBlock, Push, GetContinue, ServerProofs.Loaded,
      ServerFsm.Activate, ServerFsm.HearRequest, ServerFsm.HearInitiate, ServerFsm.HearAck, Only,
      Negotiate, HeaderFor;
    match s.phase
    case AtLoop => ActivationKeepsTerms(s, e.store, client);
    case SendingResponse(_) =>
    case SendingFrame(_) =>
    case Overflowed =>
    case _ => HearingKeepsTerms(s, rx, e, client);
  }

  lemma ServerKeepsMessages(s: ServerFsm.Server, rx: Channel, tx: Channel, e: Env, client: Config)
    requires ServerProofs.Inv(s) && ServerTerms(s, client)
    requires Only(tx, ResponseMsg, ResponseMessage(Negotiate(client, s.cfg)))
    requires Negotiate(client, s.cfg).blocks == 0 ==> Lacks(tx, ResponseMsg)
    ensures var after := ServerFsm.Step(s, rx, tx, e).tx;
      && Only(after, ResponseMsg, ResponseMessage(Negotiate(client, s.cfg)))
      && (Negotiate(client, s.cfg).blocks == 0 ==> Lacks(after, ResponseMsg))
  {
    hide EncodeTx, EncodeBlock, ServerFsm.Step, Only, Lacks, Push, Negotiate;
    Wire.ServerAdds(s, rx, tx, e);
    if s.phase.SendingResponse? {
      OnlyPush(tx, s.phase.response, ResponseMsg, ResponseMessage(Negotiate(client, s.cfg)));
    } else if s.phase.SendingFrame? && s.phase.frame.header.msgType == BlockMsg
              && s.phase.frame.header.size > 0 {
      FramePush(tx, s.phase.frame, ResponseMessage(Negotiate(client, s.cfg)));
    }
  }

  lemma FramePush(q: Channel, f: BlockPacket, m: Message)
    requires f.Exact() && f.header.msgType == BlockMsg && f.header.size > 0
    ensures Only(q, ResponseMsg, m) ==> Only(Push(q, EncodeBlock(f)), ResponseMsg, m)
    ensures Lacks(q, ResponseMsg) ==> Lacks(Push(q, EncodeBlock(f)), ResponseMsg)
  {
    TypeCodesDiffer(BlockMsg, ResponseMsg);
  }

  // ---------- the client moves ----------

  lemma ClientKeepsTerms(c: ClientFsm.Client, rx: Channel, tx: Channel, expired: bool, terms: Config)
    requires ClientInv(c) && ClientTerms(c, terms) && Only(rx, ResponseMsg, ResponseMessage(terms))
    requires terms.blocks == 0 ==> Lacks(rx, ResponseMsg)
    ensures ClientTerms(ClientFsm.Step(c, rx, tx, expired).client, terms)
  {
    hide EncodeTx, PollTx, PollBlock, CanSendTx, Push, GetContinue, Only, Lacks;
    if c.phase == ClientFsm.AwaitResponse {
      OnlyHeard(rx, HeaderFor(ResponseMsg, terms), c.cfg.maxLen);
      assert ConfigOf(HeaderFor(ResponseMsg, terms)) == terms;
    }
  }

  lemma ClientKeepsMessages(c: ClientFsm.Client, rx: Channel, tx: Channel, expired: bool)
    requires c.Valid() && Only(tx, RequestMsg, RequestMessage(c.cfg))
    ensures Only(ClientFsm.Step(c, rx, tx, expired).tx, RequestMsg, RequestMessage(c.cfg))
  {
    hide EncodeTx, ClientFsm.Step, Only, Push;
    Wire.ClientAdds(c, rx, tx, expired);
    var m := RequestMessage(c.cfg);
    OnlyPush(tx, HeaderFor(RequestMsg, c.cfg), RequestMsg, m);
    OnlyPush(tx, HeaderFor(InitiateMsg, c.peer), RequestMsg, m);
    OnlyPush(tx, ClientFsm.AckHeader(AckMsg, c.peer.id), RequestMsg, m);
    OnlyPush(tx, ClientFsm.AckHeader(AckNotMsg, c.peer.id), RequestMsg, m);
  }

  // ---------- every run ----------

  lemma StepTerms(y: Protocol, a: Action)
    requires Inv(y) && TermsInv(y)
    ensures TermsInv(Step(y, a))
  {
    hide ServerFsm.Step, ClientFsm.Step, ServerProofs.Inv, ClientInv, SessionInv, Only, Lacks,
      EncodeTx, Negotiate;
    match a
    case ServerMove(e) =>
      ServerKeepsTerms(y.server, y.up, y.down, e, y.client.cfg);
      ServerKeepsMessages(y.server, y.up, y.down, e, y.client.cfg);
      Wire.ServerTakes(y.server, y.up, y.down, e);
      OnlyRest(y.up, RequestMsg, RequestMessage(y.client.cfg));
    case ClientMove(expired) =>
      ClientKeepsTerms(y.client, y.down, y.up, expired, Terms(y));
      ClientKeepsMessages(y.client, y.down, y.up, expired);
      Wire.ClientTakes(y.client, y.down, y.up, expired);
      OnlyRest(y.down, ResponseMsg, ResponseMessage(Terms(y)));
      if Lacks(y.down, ResponseMsg) {
        SessionSteps.LacksRest(y.down, ResponseMsg);
      }
    case _ =>
  }

  lemma {:induction false} RunTerms(y: Protocol, schedule: seq<Action>)
    requires Inv(y) && TermsInv(y)
    ensures TermsInv(Run(y, schedule))
    decreases |schedule|
  {
    hide TermsInv, Step, ServerProofs.Inv, ClientInv, SessionInv;
    if schedule != [] {
      StepTerms(y, schedule[0]);
      SessionSteps.StepInv(y, schedule[0]);
      RunTerms(Step(y, schedule[0]), schedule[1..]);
    }
  }

  /** What an agreement on terms means: the smaller block count and packet length, the larger
      timeout, the client's identifier. */
  predicate Agreed(terms: Config, client: Config, server: Config) {
    && terms.id == client.id
    && terms.blocks == Min(client.blocks, server.blocks)
    && terms.maxLen == Min(client.maxLen, server.maxLen)
    && terms.timeout >= client.timeout && terms.timeout >= server.timeout
    && terms.timeout in {client.timeout, server.timeout}
  }

  ghost predicate AgreementIn(y: Protocol) {
    && (y.client.next in {Initiate, Block} ==> Agreed(y.client.peer, y.client.cfg, y.server.cfg))
    && (InSession(y.server) ==> Agreed(y.server.peer, y.client.cfg, y.server.cfg))
    && (y.client.next in {Initiate, Block} && InSession(y.server) ==>
          y.client.peer == y.server.peer)
    && (y.client.next == Block ==> y.client.peer.id != 0)
  }

  lemma TermsAgree(y: Protocol)
    requires Inv(y) && TermsInv(y)
    ensures AgreementIn(y)
  {
    hide ServerProofs.Inv, SessionInv, Only, Lacks, EncodeTx, ClientPhaseInv;
  }

  /** Negotiation agreement. In every run, however transfers are started and whatever the
      configurations: a client that works with the server's answer and a server in a session
      hold the same terms, which are the negotiated ones; and in BLOCK the identifier is not 0. */
  lemma NegotiationAgreement(start: Protocol, schedule: seq<Action>, y: Protocol)
    requires Delivery.Reached(start, schedule, y)
    ensures AgreementIn(y)
  {
    hide ServerProofs.Inv, ClientInv, SessionInv, TermsInv, AgreementIn;
    InitialInv(start);
    InitialTerms(start);
    SessionSteps.RunInv(start, schedule);
    RunTerms(start, schedule);
    TermsAgree(y);
  }

  ghost predicate AlwaysOneSetOfTerms(start: Protocol)
    requires start.Valid()
  {
    forall schedule: seq<Action> :: TermsInv(Run(start, schedule))
  }

  /** One set of terms. In every run whatsoever, every queued request carries the client's
      configuration and every queued response the negotiated terms; and these are all that
      either party ever holds of the other. */
  lemma OneSetOfTerms(start: Protocol)
    requires Initial(start)
    ensures AlwaysOneSetOfTerms(start)
  {
    hide ServerProofs.Inv, ClientInv, SessionInv, TermsInv, Run;
    InitialInv(start);
    InitialTerms(start);
    forall schedule: seq<Action> ensures TermsInv(Run(start, schedule)) {
      RunTerms(start, schedule);
    }
  }

  lemma InitialTerms(start: Protocol)
    requires Initial(start)
    ensures TermsInv(start)
  {}

  // ---------- configurations without any success ----------

  /** The client's identifier is zero, or there is nothing to negotiate. */
  predicate Hopeless(y: Protocol) {
    y.client.cfg.id == 0 || Terms(y).blocks == 0
  }

  lemma SuccessNeedsSendingAck(c: ClientFsm.Client, rx: Channel, tx: Channel, expired: bool)
    requires c.Valid() && c.phase != ClientFsm.SendingAck && !c.success
    ensures !ClientFsm.Step(c, rx, tx, expired).client.success
  {
    hide EncodeTx, PollTx, PollBlock, CanSendTx, Push, GetContinue;
  }

  lemma HopelessClientHasNoBlock(y: Protocol)
    requires Inv(y) && TermsInv(y) && Hopeless(y)
    ensures y.client.phase != ClientFsm.SendingAck
  {
    hide ServerProofs.Inv, SessionInv, Only, Lacks, EncodeTx;
  }

  lemma SuccessNeedsAck(s: ServerFsm.Server, rx: Channel, tx: Channel, e: Env)
    requires s.Valid() && Lacks(rx, AckMsg) && !s.success
    ensures !ServerFsm.Step(s, rx, tx, e).server.success
  {
    hide EncodeTx, EncodeBlock, PollTx, CanSendTx, CanSendBlock, Push, GetContinue, SetContinue,
      SetFrameNumber, Lacks;
    SessionSteps.PollLacking(rx, AckMsg, s.cfg.maxLen);
  }

  lemma NoAckAdded(c: ClientFsm.Client, rx: Channel, tx: Channel, expired: bool)
    requires c.Valid() && c.phase != ClientFsm.SendingAck && Lacks(tx, AckMsg)
    ensures Lacks(ClientFsm.Step(c, rx, tx, expired).tx, AckMsg)
  {
    hide EncodeTx, ClientFsm.Step, Lacks;
    Wire.ClientAdds(c, rx, tx, expired);
    SessionSteps.LacksAppend(tx, HeaderFor(RequestMsg, c.cfg), AckMsg);
    SessionSteps.LacksAppend(tx, HeaderFor(InitiateMsg, c.peer), AckMsg);
    SessionSteps.LacksAppend(tx, ClientFsm.AckHeader(AckNotMsg, c.peer.id), AckMsg);
  }

  /** Neither party has had, or will have, anything to report. */
  ghost predicate NoSuccess(y: Protocol) {
    !y.client.success && !y.server.success && Lacks(y.up, AckMsg)
  }

  lemma NoSuccessStep(y: Protocol, a: Action)
    requires Inv(y) && TermsInv(y) && Hopeless(y) && NoSuccess(y)
    ensures NoSuccess(Step(y, a)) && Hopeless(Step(y, a))
  {
    hide TermsInv, ServerProofs.Inv, ClientInv, SessionInv, ServerFsm.Step, ClientFsm.Step, Lacks,
      Negotiate;
    HopelessClientHasNoBlock(y);
    match a
    case ServerMove(e) =>
      SuccessNeedsAck(y.server, y.up, y.down, e);
      Wire.ServerTakes(y.server, y.up, y.down, e);
      SessionSteps.LacksRest(y.up, AckMsg);
    case ClientMove(expired) =>
      SuccessNeedsSendingAck(y.client, y.down, y.up, expired);
      NoAckAdded(y.client, y.down, y.up, expired);
    case _ =>
  }

  lemma {:induction false} HopelessRun(y: Protocol, schedule: seq<Action>)
    requires Inv(y) && TermsInv(y) && Hopeless(y) && NoSuccess(y)
    ensures NoSuccess(Run(y, schedule))
    decreases |schedule|
  {
    hide TermsInv, ServerProofs.Inv, ClientInv, SessionInv, Step, NoSuccess, Hopeless;
    if schedule != [] {
      var a := schedule[0];
      StepTerms(y, a);
      SessionSteps.StepInv(y, a);
      NoSuccessStep(y, a);
      HopelessRun(Step(y, a), schedule[1..]);
    }
  }

  ghost predicate NeverSucceeds(start: Protocol)
    requires start.Valid()
  {
    forall schedule: seq<Action>, a: Action ::
      var y := Run(start, schedule); Step(y, a).client.notes != y.client.notes + [true]
  }

  ghost predicate ServerNeverSucceeds(start: Protocol)
    requires start.Valid()
  {
    forall schedule: seq<Action>, a: Action ::
      var y := Run(start, schedule); Step(y, a).server.notes != y.server.notes + [true]
  }

  lemma NotTrue(notes: seq<bool>)
    ensures notes + [false] != notes + [true] && notes != notes + [true]
  {
    assert (notes + [false])[|notes|] != (notes + [true])[|notes|];
    assert |notes + [true]| > |notes|;
  }

  lemma NoReport(y: Protocol, a: Action)
    requires y.Valid() && NoSuccess(y)
    ensures Step(y, a).client.notes != y.client.notes + [true]
    ensures Step(y, a).server.notes != y.server.notes + [true]
  {
    hide ServerFsm.Step, ClientFsm.Step, Lacks;
    NotTrue(y.client.notes);
    NotTrue(y.server.notes);
    match a
    case ClientMove(expired) => Delivery.ClientReport(y.client, y.down, y.up, expired);
    case ServerMove(e) => Delivery.ServerReport(y.server, y.up, y.down, e);
    case _ =>
  }

  lemma HopelessNoReport(start: Protocol, schedule: seq<Action>, a: Action)
    requires Initial(start) && Hopeless(start)
    ensures var y := Run(start, schedule);
      && Step(y, a).client.notes != y.client.notes + [true]
      && Step(y, a).server.notes != y.server.notes + [true]
  {
    hide ServerProofs.Inv, ClientInv, SessionInv, TermsInv, Run, Step, Hopeless;
    InitialInv(start);
    InitialTerms(start);
    HopelessRun(start, schedule);
    NoReport(Run(start, schedule), a);
  }

  /** Hopeless parties: the client never reports success. */
  lemma HopelessNeverSucceeds(start: Protocol)
    requires Initial(start) && Hopeless(start)
    ensures NeverSucceeds(start)
  {
    hide Run, Step, Hopeless;
    forall schedule: seq<Action>, a: Action
      ensures Step(Run(start, schedule), a).client.notes != Run(start, schedule).client.notes + [true]
    {
      HopelessNoReport(start, schedule, a);
    }
  }

  /** Nor does the server. */
  lemma HopelessServerNeverSucceeds(start: Protocol)
    requires Initial(start) && Hopeless(start)
    ensures ServerNeverSucceeds(start)
  {
    hide Run, Step, Hopeless;
    forall schedule: seq<Action>, a: Action
      ensures Step(Run(start, schedule), a).server.notes != Run(start, schedule).server.notes + [true]
    {
      HopelessNoReport(start, schedule, a);
    }
  }
}

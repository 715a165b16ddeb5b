/** What can be queued: every message is exactly as long as its header says. */
module Wire {
  import opened Bytes
  import opened Packets
  import opened Transport
  import opened Fsm
  import opened Segmentation
  import opened Protocol
  import ServerFsm
  import ClientFsm
  import ServerProofs
  import opened SessionProofs
  import SessionSteps
  import Delivery

  /** A message is as long as its type and its size byte say; block messages have a payload and
      CRC 0, and only they have a payload. */
  ghost predicate Sized(m: Message) {
    && |m| == Extent(m)
    && (if At(m, 0) == TypeCode(BlockMsg) then
          ReadBlockHeader(m).crc == 0 && ReadBlockHeader(m).size > 0
        else |m| == TX_HEADER_SIZE)
  }

  ghost predicate AllSized(q: Channel) {
    forall i :: 0 <= i < |q| ==> Sized(q[i])
  }

  lemma FrameIsSized(p: BlockPacket)
    requires p.Exact() && p.header.size > 0 && p.header.msgType == BlockMsg && p.header.crc == 0
    ensures Sized(EncodeBlock(p))
  {
    hide Gather16;
    ByteRoundTrip(p.header.size);
    BlockRoundTrip(p, FRESH_BLOCK);
    assert ReadBlockHeader(EncodeBlock(p)) == ReadBlock(FRESH_BLOCK, EncodeBlock(p)).header;
  }

  lemma TxIsSized(h: TxHeader)
    requires h.size == 0 && h.msgType != BlockMsg
    ensures Sized(EncodeTx(h))
  {
    TypeCodesDiffer(h.msgType, BlockMsg);
    ByteRoundTrip(0);
  }

  /** What the server adds to its outgoing channel in a step. */
  lemma ServerAdds(s: ServerFsm.Server, rx: Channel, tx: Channel, e: Env)
    requires ServerProofs.Inv(s)
    ensures var after := ServerFsm.Step(s, rx, tx, e).tx;
      || after == tx
      || (s.phase.SendingResponse? && after == Push(tx, EncodeTx(HeaderFor(ResponseMsg, s.peer))))
      || (s.phase.SendingFrame? && s.phase.frame.Exact() && s.phase.frame.header.size > 0
          && s.phase.frame.header.msgType == BlockMsg && s.phase.frame.header.crc == 0
          && after == Push(tx, EncodeBlock(s.phase.frame)))
  {
    hide CanSendTx, CanSendBlock, EncodeTx, EncodeBlock, Push, PollTx, SetContinue, SetFrameNumber,
      GetContinue, Cut, Frame, ServerProofs.Loaded, ServerFsm.Activate;
    if s.phase.SendingFrame? {
      FrameFacts(s.snapshot, s.Room(), s.sent);
    }
  }

  lemma PushKeepsSized(q: Channel, m: Message)
    requires AllSized(q) && Sized(m)
    ensures AllSized(Push(q, m))
  {
    hide Sized;
  }

  lemma ServerKeepsSized(s: ServerFsm.Server, rx: Channel, tx: Channel, e: Env)
    requires ServerProofs.Inv(s) && AllSized(tx)
    ensures AllSized(ServerFsm.Step(s, rx, tx, e).tx)
  {
    hide EncodeTx, EncodeBlock, Sized, ServerProofs.Inv, ServerFsm.Step, ServerFsm.Server.Valid,
      AllSized, Push;
    ServerAdds(s, rx, tx, e);
    TxIsSized(HeaderFor(ResponseMsg, s.peer));
    PushKeepsSized(tx, EncodeTx(HeaderFor(ResponseMsg, s.peer)));
    if s.phase.SendingFrame? {
      var f := s.phase.frame;
      if f.Exact() && f.header.size > 0 && f.header.msgType == BlockMsg && f.header.crc == 0 {
        FrameIsSized(f);
        PushKeepsSized(tx, EncodeBlock(f));
      }
    }
  }

  // ---------- what the client adds, and what either party takes ----------

  lemma ClientAdds(c: ClientFsm.Client, rx: Channel, tx: Channel, expired: bool)
    requires c.Valid()
    ensures var after := ClientFsm.Step(c, rx, tx, expired).tx;
      || after == tx
      || after == Push(tx, RequestMessage(c.cfg))
      || after == Push(tx, InitiateMessage(c.peer))
      || (c.phase == ClientFsm.SendingAck && after == Push(tx, AckMessage(c.peer)))
      || after == Push(tx, AckNotMessage(c.peer))
  {
    hide EncodeTx, PollTx, PollBlock, CanSendTx, Push, ClientFsm.HearBlock, ClientFsm.HearResponse,
      ClientFsm.Activate;
  }

  lemma ClientKeepsSized(c: ClientFsm.Client, rx: Channel, tx: Channel, expired: bool)
    requires c.Valid() && AllSized(tx)
    ensures AllSized(ClientFsm.Step(c, rx, tx, expired).tx)
  {
    hide EncodeTx, Sized, ClientFsm.Step, AllSized, Push;
    ClientAdds(c, rx, tx, expired);
    TxIsSized(HeaderFor(RequestMsg, c.cfg));
    PushKeepsSized(tx, RequestMessage(c.cfg));
    TxIsSized(HeaderFor(InitiateMsg, c.peer));
    PushKeepsSized(tx, InitiateMessage(c.peer));
    TxIsSized(ClientFsm.AckHeader(AckMsg, c.peer.id));
    PushKeepsSized(tx, AckMessage(c.peer));
    TxIsSized(ClientFsm.AckHeader(AckNotMsg, c.peer.id));
    PushKeepsSized(tx, AckNotMessage(c.peer));
  }

  lemma ServerTakes(s: ServerFsm.Server, rx: Channel, tx: Channel, e: Env)
    requires s.Valid()
    ensures ServerFsm.Step(s, rx, tx, e).rx in {rx, Rest(rx)}
  {
    hide EncodeTx, EncodeBlock, CanSendTx, CanSendBlock, Push, PollTx, ServerFsm.HearRequest,
      ServerFsm.HearInitiate, ServerFsm.HearAck, ServerFsm.Activate, GetContinue;
  }

  lemma ClientTakes(c: ClientFsm.Client, rx: Channel, tx: Channel, expired: bool)
    requires c.Valid()
    ensures ClientFsm.Step(c, rx, tx, expired).rx in {rx, Rest(rx)}
  {
    hide CanSendTx, EncodeTx, Push, PollTx, PollBlock, ClientFsm.Store, ClientFsm.Activate;
  }

  lemma RestKeepsSized(q: Channel)
    requires AllSized(q)
    ensures AllSized(Rest(q))
  {
    hide Sized;
  }

  /** Both channels. */
  ghost predicate WellSized(y: Protocol) {
    AllSized(y.up) && AllSized(y.down)
  }

  lemma StepKeepsSized(y: Protocol, a: Action)
    requires Inv(y) && WellSized(y)
    ensures WellSized(Step(y, a))
  {
    hide Sized, ServerProofs.Inv, ServerFsm.Step, ClientFsm.Step, SessionInv, ClientInv, AllSized;
    RestKeepsSized(y.up);
    RestKeepsSized(y.down);
    match a
    case ServerMove(e) =>
      ServerKeepsSized(y.server, y.up, y.down, e);
      ServerTakes(y.server, y.up, y.down, e);
    case ClientMove(expired) =>
      ClientKeepsSized(y.client, y.down, y.up, expired);
      ClientTakes(y.client, y.down, y.up, expired);
    case _ =>
  }

  lemma {:induction false} RunKeepsSized(y: Protocol, schedule: seq<Action>)
    requires Inv(y) && WellSized(y)
    ensures WellSized(Run(y, schedule))
    decreases |schedule|
  {
    hide SessionInv, ServerProofs.Inv, ClientInv, WellSized, Step;
    if schedule != [] {
      StepKeepsSized(y, schedule[0]);
      SessionSteps.StepInv(y, schedule[0]);
      RunKeepsSized(Step(y, schedule[0]), schedule[1..]);
    }
  }

  lemma SizedFits(q: Channel, maxLen: nat)
    requires AllSized(q)
    ensures SizeFits(q, maxLen)
  {
    if q != [] {
      assert Sized(q[0]);
    }
  }

  /** No over-read: in every reachable state, whatever message is next for either party, the
      header and the payload its size byte announces lie inside that party's receive buffer. */
  lemma NoOverread(start: Protocol, schedule: seq<Action>, y: Protocol)
    requires Delivery.Reached(start, schedule, y)
    ensures SizeFits(y.down, y.client.cfg.maxLen) && SizeFits(y.up, y.server.cfg.maxLen)
  {
    hide Inv;
    InitialInv(start);
    RunKeepsSized(start, schedule);
    SizedFits(y.down, y.client.cfg.maxLen);
    SizedFits(y.up, y.server.cfg.maxLen);
  }

  /** Transaction messages never announce a payload: eleven bytes, of which the last is 0. */
  lemma NoTxPayload(start: Protocol, schedule: seq<Action>, y: Protocol, m: Message)
    requires Delivery.Reached(start, schedule, y) && (m in y.up || m in y.down)
    requires At(m, 0) != TypeCode(BlockMsg)
    ensures |m| == TX_HEADER_SIZE && At(m, 10) == ToByte(0)
  {
    hide Inv;
    InitialInv(start);
    RunKeepsSized(start, schedule);
    assert Sized(m);
  }
}

/** Each step of either party keeps the session invariant. */
module SessionSteps {
  import opened Bytes
  import opened Options
  import opened Packets
  import opened Transport
  import opened Fsm
  import opened Segmentation
  import opened Protocol
  import opened SessionProofs
  import ServerFsm
  import ClientFsm
  import ServerProofs

  // ---------- channel shapes ----------

  lemma LacksRest(q: Channel, t: MsgType)
    requires Lacks(q, t)
    ensures Lacks(Rest(q), t)
  {}

  lemma LacksAppend(q: Channel, h: TxHeader, t: MsgType)
    requires Lacks(q, t) && h.msgType != t && t != Unassigned
    ensures Lacks(q + [EncodeTx(h)], t)
  {
    TypeCodesDiffer(h.msgType, t);
    TypeCodesDiffer(Unassigned, t);
  }

  lemma EndsInAppend(q: Channel, m: Message, t: MsgType)
    requires Lacks(q, t)
    ensures EndsIn(q + [m], m, t)
  {
    assert (q + [m])[..|q|] == q;
  }

  /** Polling for the type of the last message drops what is in front of it, then takes it. */
  lemma PollEndsIn(q: Channel, h: TxHeader, maxLen: nat)
    requires EndsIn(q, EncodeTx(h), h.msgType) && TX_HEADER_SIZE <= maxLen
    requires h.crc == 0 && h.msgType !in {Unassigned, AckNotMsg}
    ensures q != []
    ensures |q| == 1 ==> PollTx(q, h.msgType, maxLen) == Some(h) && Rest(q) == []
    ensures |q| > 1 ==> PollTx(q, h.msgType, maxLen) == None
                        && EndsIn(Rest(q), EncodeTx(h), h.msgType)
  {
    hide EncodeTx, ReadTx;
    if |q| == 1 {
      DeliveredTx(h, q, h.msgType, maxLen);
    } else {
      var front := q[..|q| - 1];
      assert At(front[0], 0) != TypeCode(h.msgType);
      LackedIsDropped(q, h.msgType, maxLen);
      assert q[1..][..|q| - 2] == front[1..];
    }
  }

  lemma PollLacking(q: Channel, want: MsgType, maxLen: nat)
    requires Lacks(q, want)
    ensures PollTx(q, want, maxLen) == None
    ensures Lacks(Rest(q), want)
  {
    if q != [] {
      LackedIsDropped(q, want, maxLen);
    }
  }

  lemma FramedRest(q: Channel, data: seq<byte>, p: nat, from: nat, to: nat)
    requires p <= 255 && q != [] && Framed(q, data, p, from, to)
    ensures Framed(Rest(q), data, p, from + 1, to)
  {
    hide EncodeBlock, Frame;
    forall i | 0 <= i < |q| - 1
      ensures Rest(q)[i] == EncodeBlock(Frame(data, p, from + 1 + i))
    {
      assert Rest(q)[i] == q[i + 1];
      assert from + 1 + i == from + (i + 1);
    }
  }

  lemma FramedPush(q: Channel, data: seq<byte>, p: nat, from: nat, to: nat)
    requires p <= 255 && Framed(q, data, p, from, to)
    ensures Framed(q + [EncodeBlock(Frame(data, p, to))], data, p, from, to + 1)
  {
    hide EncodeBlock, Frame;
  }

  // ---------- the client moves ----------

  lemma ClientActivateOutcome(c: ClientFsm.Client)
    requires c.Valid() && c.phase == ClientFsm.AtLoop
    ensures var r := ClientFsm.Activate(c);
      && r.cfg == c.cfg && r.taken == c.taken && r.acked == c.acked
      && r.dest == c.dest && r.original == c.original
      && (Active(r) ==> r.offset == c.offset && r.peer == c.peer)
      && (match c.next
          case Idle => r.phase == ClientFsm.AtLoop && r.next == Idle
          case Request => r.phase == ClientFsm.SendingRequest && r.next == Request
          case Response => r.phase == ClientFsm.AwaitResponse && r.next == Response
          case Initiate =>
            || (r.phase == ClientFsm.SendingInitiate && r.next == Initiate)
            || (r.phase == ClientFsm.AtLoop && r.next == Terminate)
          case Block => r.phase.AwaitBlock? && r.next == Block
          case Terminate => r.phase == ClientFsm.AtLoop && r.next == Idle)
  {}

  lemma ClientActivates(y: Protocol, expired: bool)
    requires Inv(y) && Claimed(y) && y.client.phase == ClientFsm.AtLoop
    ensures SessionInv(MoveClient(y, expired))
  {
    hide EncodeTx, EncodeBlock, Frame, Cut, ServerProofs.Inv, ServerAt, ClientInv, Lacks, Framed,
      EndsIn, UpInSession, Lost, ClientFsm.Activate;
    WorkingClient(y);
    ClientActivateOutcome(y.client);
  }

  /** An attempt to send appends the message and goes on, or leaves the channels alone. */
  lemma SendOutcome(c: ClientFsm.Client, h: TxHeader, sent: ClientFsm.Client, rx: Channel, tx: Channel,
                    expired: bool)
    requires c.Valid() && sent.Valid() && sent.cfg == c.cfg
    ensures var m := ClientFsm.TrySend(c, h, sent, rx, tx, expired);
      && m.rx == rx
      && (|| (m.tx == tx && (m.client == c || m.client == ClientFsm.Go(c, Terminate)))
          || (m.tx == tx + [EncodeTx(h)] && m.client == sent))
  {
    hide EncodeTx;
  }

  lemma ClientAsks(y: Protocol, expired: bool)
    requires Inv(y) && Claimed(y) && y.client.phase == ClientFsm.SendingRequest
    ensures SessionInv(MoveClient(y, expired))
  {
    hide EncodeTx, EncodeBlock, Frame, Cut, ServerProofs.Inv, ServerAt, ClientInv, Lacks, Framed,
      EndsIn, Negotiate, HeaderFor, Compatible, Forward, Safe, UpInSession, ClientFsm.TrySend;
    WorkingClient(y);
    SendOutcome(y.client, HeaderFor(RequestMsg, y.client.cfg), ClientFsm.Go(y.client, Response),
                y.down, y.up, expired);
    if y.serverStage == Unserved {
      EndsInAppend(y.up, RequestMessage(y.client.cfg), RequestMsg);
    }
  }

  lemma ClientHearsResponse(y: Protocol, expired: bool)
    requires Inv(y) && Claimed(y) && y.client.phase == ClientFsm.AwaitResponse
    ensures SessionInv(MoveClient(y, expired))
  {
    hide EncodeTx, EncodeBlock, Frame, Cut, PollTx, ServerProofs.Inv, ServerAt, ClientInv, Lacks,
      EndsIn, Negotiate, Compatible, Forward, Safe, UpInSession;
    WorkingClient(y);
    if y.serverStage == Offered {
      PollEndsIn(y.down, HeaderFor(ResponseMsg, Terms(y)), y.client.cfg.maxLen);
    } else {
      PollLacking(y.down, ResponseMsg, y.client.cfg.maxLen);
    }
  }

  lemma ClientInitiates(y: Protocol, expired: bool)
    requires Inv(y) && Claimed(y) && y.client.phase == ClientFsm.SendingInitiate
    ensures SessionInv(MoveClient(y, expired))
  {
    hide EncodeTx, EncodeBlock, Frame, Cut, ServerProofs.Inv, ClientInv, Framed, ServerAt,
      ClientFsm.TrySend;
    WorkingClient(y);
    SendOutcome(y.client, HeaderFor(InitiateMsg, y.client.peer), ClientFsm.Go(y.client, Block),
                y.down, y.up, expired);
    if Lacks(y.up, RequestMsg) {
      LacksAppend(y.up, HeaderFor(InitiateMsg, Terms(y)), RequestMsg);
    }
  }

  /** The frame the client waits for is not too long for its receive buffer. */
  predicate NextFits(y: Protocol)
    requires y.Valid()
  {
    PacketSize(Frame(y.server.snapshot, y.server.Room(), y.client.taken)) <= y.client.cfg.maxLen
  }

  lemma QueuedFrames(y: Protocol)
    requires Inv(y) && Claimed(y) && y.client.phase.AwaitBlock? && y.down != []
    ensures var c, s := y.client, y.server;
      && Safe(y) && c.cfg.id != 0 && 0 < s.Room() <= 250
      && Framed(y.down, s.snapshot, s.Room(), c.taken, s.sent)
      && Cut(s.sent - 1, s.Room(), |s.snapshot|) < |s.snapshot| <= s.Room() * Terms(y).blocks
  {
    hide EncodeTx, EncodeBlock, Frame, Cut, ServerProofs.PhaseInv;
  }

  /** Otherwise the configuration limits the session to one frame, and this is it. */
  lemma OversizeIsAlone(y: Protocol)
    requires Inv(y) && Claimed(y) && y.client.phase.AwaitBlock? && y.down != [] && !NextFits(y)
    ensures !Compatible(y) && Rest(y.down) == [] && y.client.taken == 0 && y.server.sent == 1
    ensures Cut(1, y.server.Room(), |y.server.snapshot|) == |y.server.snapshot|
    ensures PollBlock(y.down, y.client.phase.packet, BlockMsg, y.client.cfg.maxLen)
         == BlockPoll(y.client.phase.packet, false)
  {
    hide SessionInv, ClientInv, ServerProofs.Inv, EncodeTx, Frame, ReadBlock, Cut;
    QueuedFrames(y);
    var c, s := y.client, y.server;
    var p, total := s.Room(), |s.snapshot|;
    CutMonotone(c.taken, s.sent - 1, p, total);
    FrameFacts(s.snapshot, p, c.taken);
    assert Terms(y).blocks <= 1;
    OneFrame(p, total, Terms(y).blocks);
    if c.taken > 0 {
      CutMonotone(1, c.taken, p, total);
    }
    if s.sent > 1 {
      CutMonotone(1, s.sent - 1, p, total);
    }
    assert y.down[0] == EncodeBlock(Frame(s.snapshot, p, c.taken + 0));
    assert |y.down[0]| > c.cfg.maxLen;
  }

  lemma OneFrame(p: nat, total: nat, blocks: nat)
    requires blocks <= 1 && total <= p * blocks
    ensures Cut(1, p, total) == total
  {
    assert Cut(0, p, total) == 0;
    assert p * blocks <= p;
  }

  /** The next queued message is the next frame of the snapshot, and the poll accepts it. */
  lemma NextFrame(y: Protocol)
    requires Inv(y) && Claimed(y) && y.client.phase.AwaitBlock? && y.down != []
    requires NextFits(y)
    ensures var c, s := y.client, y.server;
      var f := Frame(s.snapshot, s.Room(), c.taken);
      && c.taken < s.sent
      && Cut(c.taken, s.Room(), |s.snapshot|) < |s.snapshot|
      && PollBlock(y.down, c.phase.packet, BlockMsg, c.cfg.maxLen) == BlockPoll(f, true)
      && Framed(Rest(y.down), s.snapshot, s.Room(), c.taken + 1, s.sent)
  {
    hide EncodeTx, EncodeBlock, Frame, Cut, PollBlock;
    var c, s := y.client, y.server;
    CutMonotone(c.taken, s.sent - 1, s.Room(), |s.snapshot|);
    FrameFacts(s.snapshot, s.Room(), c.taken);
    FramedRest(y.down, s.snapshot, s.Room(), c.taken, s.sent);
    assert y.down[0] == EncodeBlock(Frame(s.snapshot, s.Room(), c.taken + 0));
    DeliveredBlock(Frame(s.snapshot, s.Room(), c.taken), c.phase.packet, y.down, c.cfg.maxLen);
  }

  /** Storing the next frame extends the stored prefix by exactly that frame. */
  lemma StoreFrame(c: ClientFsm.Client, snapshot: seq<byte>, p: nat)
    requires ClientInv(c) && c.phase.AwaitBlock? && c.next == Block && StoredAt(c, snapshot, p)
    requires 0 < p <= 250 && Cut(c.taken, p, |snapshot|) < |snapshot|
    ensures var r := ClientFsm.Store(c, Frame(snapshot, p, c.taken));
      && StoredAt(r, snapshot, p)
      && (r.phase == ClientFsm.SendingAck ==> Cut(r.taken, p, |snapshot|) == |snapshot|)
  {
    hide Frame, Cut, GetContinue, ClientPhaseInv;
    FrameFacts(snapshot, p, c.taken);
    var f := Frame(snapshot, p, c.taken);
    if ClientFsm.Fits(c, f) {
      SpliceExtends(c.dest, c.original, snapshot, Cut(c.taken, p, |snapshot|), f.buffer);
    }
  }

  /** Writing the next piece of the snapshot behind the stored prefix lengthens the prefix. */
  lemma SpliceExtends(dest: seq<byte>, original: seq<byte>, snapshot: seq<byte>, cut: nat,
                      piece: seq<byte>)
    requires cut + |piece| <= |snapshot| && cut + |piece| <= |original|
    requires dest == snapshot[..cut] + original[cut..]
    requires piece == snapshot[cut..cut + |piece|]
    ensures var n := |piece|;
      dest[..cut] + piece[..n] + dest[cut + n..] == snapshot[..cut + n] + original[cut + n..]
  {
    var n := |piece|;
    assert dest[..cut] == snapshot[..cut];
    assert dest[cut + n..] == original[cut + n..];
    assert snapshot[..cut] + snapshot[cut..cut + n] == snapshot[..cut + n];
    assert piece[..n] == piece;
  }

  lemma StoreOutcome(c: ClientFsm.Client, p: BlockPacket)
    requires c.Valid() && p.Valid() && c.current == c.next == Block
    ensures var r := ClientFsm.Store(c, p);
      && r.next == Block && r.peer == c.peer && r.acked == c.acked
      && r.phase in {ClientFsm.AtLoop, ClientFsm.SendingAck, ClientFsm.SendingAckNot}
      && r.taken == c.taken + if r.phase == ClientFsm.SendingAckNot then 0 else 1
  {}

  lemma ClientHearsNothing(y: Protocol, expired: bool)
    requires Inv(y) && Claimed(y) && y.client.phase.AwaitBlock? && y.down == []
    ensures SessionInv(MoveClient(y, expired))
  {
    hide EncodeTx, EncodeBlock, Frame, Cut, PollBlock, ServerProofs.Inv, ClientInv, ServerAt,
      ClientFsm.Store;
    WorkingClient(y);
    NothingQueued(y.client.phase.packet, BlockMsg, y.client.cfg.maxLen);
  }

  /** A queued message is the next frame, so the move is to store that frame. */
  lemma HearingIsStoring(y: Protocol, expired: bool)
    requires Inv(y) && Claimed(y) && y.client.phase.AwaitBlock? && y.down != [] && NextFits(y)
    ensures var f := Frame(y.server.snapshot, y.server.Room(), y.client.taken);
      MoveClient(y, expired)
        == y.(client := ClientFsm.Store(y.client, f), down := Rest(y.down))
  {
    hide ClientFsm.Store, Frame, PollBlock, SessionInv, ServerProofs.Inv, ClientInv;
    NextFrame(y);
  }

  lemma ClientDropsFrame(y: Protocol, expired: bool)
    requires Inv(y) && Claimed(y) && y.client.phase.AwaitBlock? && y.down != [] && !NextFits(y)
    ensures SessionInv(MoveClient(y, expired))
  {
    hide EncodeTx, EncodeBlock, Frame, Cut, PollBlock, ServerProofs.Inv, ClientInv, ServerAt,
      ClientFsm.Store, Framed, Lacks, UpInSession;
    WorkingClient(y);
    OversizeIsAlone(y);
  }

  lemma ClientHearsFrame(y: Protocol, expired: bool)
    requires Inv(y) && Claimed(y) && y.client.phase.AwaitBlock? && y.down != [] && NextFits(y)
    ensures SessionInv(MoveClient(y, expired))
  {
    hide EncodeTx, EncodeBlock, Frame, Cut, PollBlock, ServerProofs.Inv, ClientInv, GetContinue,
      ServerAt, ClientFsm.Store, MoveClient, Lacks, Framed;
    WorkingClient(y);
    NextFrame(y);
    HearingIsStoring(y, expired);
    var c, snapshot, p := y.client, y.server.snapshot, y.server.Room();
    StoreFrame(c, snapshot, p);
    StoreOutcome(c, Frame(snapshot, p, c.taken));
  }

  /** Facts about the parties' own states that the steps below need without their reasons. */
  lemma WorkingClient(y: Protocol)
    requires Inv(y) && Claimed(y)
    ensures 0 < y.server.Room() <= 250 && ClientInv(y.client)
    ensures y.client.phase != ClientFsm.AtLoop ==> y.client.current == y.client.next
    ensures y.client.phase == ClientFsm.SendingRequest ==> y.client.next == Request
    ensures y.client.phase == ClientFsm.AwaitResponse ==> y.client.next == Response
    ensures y.client.phase == ClientFsm.SendingInitiate ==> y.client.next == Initiate
    ensures (y.client.phase in {ClientFsm.SendingAck, ClientFsm.SendingAckNot}
             || y.client.phase.AwaitBlock?) ==> y.client.next == Block
    ensures y.serverStage == Offered ==> y.server.sent == 0
    ensures y.clientStage != Initiated ==>
      y.client.taken == 0 && !y.client.acked && y.client.phase != ClientFsm.SendingAck
  {
    hide EncodeTx, EncodeBlock, Frame, Cut;
  }

  lemma ClientAcknowledges(y: Protocol, expired: bool)
    requires Inv(y) && Claimed(y) && y.client.phase == ClientFsm.SendingAck
    ensures SessionInv(MoveClient(y, expired))
  {
    hide EncodeTx, EncodeBlock, Frame, Cut, ServerProofs.Inv, ClientInv, Framed, ServerAt,
      Negotiate, Compatible, Lost, Forward, Safe, ClientFsm.TrySend;
    WorkingClient(y);
    var c := y.client;
    SendOutcome(c, ClientFsm.AckHeader(AckMsg, c.peer.id),
                ClientFsm.Go(c.(success := true, acked := true), Terminate), y.down, y.up, expired);
    if Lacks(y.up, RequestMsg) {
      LacksAppend(y.up, ClientFsm.AckHeader(AckMsg, Terms(y).id), RequestMsg);
    }
  }

  lemma ClientRefuses(y: Protocol, expired: bool)
    requires Inv(y) && Claimed(y) && y.client.phase == ClientFsm.SendingAckNot
    ensures SessionInv(MoveClient(y, expired))
  {
    hide EncodeTx, EncodeBlock, Frame, Cut, ServerProofs.Inv, ClientInv, Framed, ServerAt,
      Negotiate, Compatible, Lost, Forward, Safe, ClientFsm.TrySend;
    WorkingClient(y);
    SendOutcome(y.client, ClientFsm.AckHeader(AckNotMsg, y.client.peer.id),
                ClientFsm.Go(y.client, Terminate), y.down, y.up, expired);
    if Lacks(y.up, RequestMsg) {
      LacksAppend(y.up, ClientFsm.AckHeader(AckNotMsg, Terms(y).id), RequestMsg);
    }
  }

  // ---------- the server moves ----------

  /** What the server's own invariant says about it, phase by phase. */
  lemma WorkingServer(y: Protocol)
    requires Inv(y) && Claimed(y)
    ensures y.server.success ==> y.server.phase == ServerFsm.AtLoop && y.server.next == Terminate
    ensures y.server.phase != ServerFsm.AtLoop ==> y.server.current == y.server.next
    ensures y.server.phase.SendingResponse? ==>
      y.server.next == Response && y.server.sent == 0
      && |y.server.snapshot| <= y.server.Room() * y.server.peer.blocks
      && y.server.phase.response == HeaderFor(ResponseMsg, y.server.peer)
    ensures y.server.phase == ServerFsm.AwaitInitiate ==> y.server.next == Initiate
    ensures y.server.phase == ServerFsm.AwaitAck ==> y.server.next == Block && y.server.remaining == 0
    ensures y.server.phase.SendingFrame? ==>
      && y.server.next == Block
      && y.server.phase.frame == Frame(y.server.snapshot, y.server.Room(), y.server.sent)
      && Cut(y.server.sent, y.server.Room(), |y.server.snapshot|) < |y.server.snapshot|
  {
    hide EncodeTx, EncodeBlock, Frame, Cut, SessionInv;
  }

  lemma ActivateOutcome(s: ServerFsm.Server, store: seq<byte>)
    requires s.Valid() && s.phase == ServerFsm.AtLoop
    ensures var r := ServerFsm.Activate(s, store);
      && (s.next in {Idle, Request, Terminate} ==> r.Ready())
      && (s.next == Response ==>
            || Gone(r)
            || (r.phase.SendingResponse? && r.peer == Negotiate(s.peer, s.cfg)))
      && (s.next == Initiate ==> r.phase == ServerFsm.AwaitInitiate && r.peer == s.peer)
      && (s.next == Block ==> r.phase.SendingFrame? && r.peer == s.peer)
      && (s.next != Response ==> r.snapshot == s.snapshot && r.sent == s.sent)
      && (r.success ==> s.success)
  {
    hide SetContinue, SetFrameNumber;
  }

  lemma ServerActivates(y: Protocol, e: Env)
    requires Inv(y) && Claimed(y) && y.server.phase == ServerFsm.AtLoop
    ensures SessionInv(MoveServer(y, e))
  {
    hide EncodeTx, EncodeBlock, Frame, ServerProofs.Inv, ClientInv, Lacks, Framed, EndsIn,
      ServerFsm.Activate, ClientAt, Forward, Safe, ServerFsm.Server.Valid;
    WorkingServer(y);
    WorkingClient(y);
    ActivateOutcome(y.server, e.store);
  }

  lemma ServerHearsRequest(y: Protocol, e: Env)
    requires Inv(y) && Claimed(y) && y.server.phase == ServerFsm.AwaitRequest
    ensures SessionInv(MoveServer(y, e))
  {
    hide EncodeTx, EncodeBlock, Frame, Cut, PollTx, ServerProofs.Inv, ClientInv, Lacks, Framed,
      EndsIn, ClientAt, StoredAt, Forward, Safe, UpInSession;
    WorkingServer(y);
    WorkingClient(y);
    if y.clientStage == Asked && y.serverStage == Unserved {
      PollEndsIn(y.up, HeaderFor(RequestMsg, y.client.cfg), y.server.cfg.maxLen);
      LacksNone(RequestMsg);
    } else {
      PollLacking(y.up, RequestMsg, y.server.cfg.maxLen);
    }
  }

  lemma LacksNone(t: MsgType)
    ensures Lacks([], t)
  {}

  lemma ResponseOutcome(s: ServerFsm.Server, h: TxHeader, rx: Channel, tx: Channel, expired: bool)
    requires s.Valid()
    ensures var m := ServerFsm.TryResponse(s, h, rx, tx, expired);
      && m.rx == rx
      && (|| (m.tx == tx && (m.server == s || m.server == ServerFsm.Go(s, Terminate)))
          || (m.tx == tx + [EncodeTx(h)] && m.server == ServerFsm.Go(s, Initiate)))
  {
    hide EncodeTx;
  }

  lemma ServerResponds(y: Protocol, e: Env)
    requires Inv(y) && Claimed(y) && y.server.phase.SendingResponse?
    ensures SessionInv(MoveServer(y, e))
  {
    hide EncodeTx, EncodeBlock, Frame, Cut, ServerProofs.Inv, ClientInv, Lacks, Framed, EndsIn,
      ClientAt, StoredAt, ServerFsm.TryResponse, ServerFsm.Server.Valid, Negotiate, HeaderFor,
      Compatible;
    WorkingServer(y);
    WorkingClient(y);
    ResponseOutcome(y.server, y.server.phase.response, y.up, y.down, e.expired);
    if y.serverStage == Serving {
      EndsInAppend(y.down, ResponseMessage(Terms(y)), ResponseMsg);
    }
  }

  /** What is queued, if anything, is the initiate message of this session; it is accepted. */
  lemma InitiateOutcome(y: Protocol, e: Env)
    requires y.Valid() && y.server.phase == ServerFsm.AwaitInitiate
    requires y.server.peer == Terms(y)
    requires y.up == [] || y.up[0] == InitiateMessage(Terms(y))
    ensures var s, r := y.server, ServerFsm.HearInitiate(y.server, y.up, e.expired);
      if y.up == [] then r == s || r == ServerFsm.Go(s, Terminate)
      else r == ServerFsm.Go(s.(counter := 1), Block)
  {
    hide EncodeTx, PollTx;
    if y.up == [] {
      NothingHeard(InitiateMsg, y.server.cfg.maxLen);
    } else {
      DeliveredTx(HeaderFor(InitiateMsg, Terms(y)), y.up, InitiateMsg, y.server.cfg.maxLen);
    }
  }

  lemma ServerHearsInitiate(y: Protocol, e: Env)
    requires Inv(y) && Claimed(y) && y.server.phase == ServerFsm.AwaitInitiate
    ensures SessionInv(MoveServer(y, e))
  {
    hide EncodeTx, EncodeBlock, Frame, Cut, ServerProofs.Inv, ClientInv, Lacks, Framed, EndsIn,
      ClientAt, StoredAt, ServerFsm.HearInitiate, ServerFsm.Server.Valid, Negotiate, HeaderFor,
      Compatible;
    WorkingServer(y);
    WorkingClient(y);
    InitiateOutcome(y, e);
    LacksRest(y.up, RequestMsg);
  }

  lemma NothingHeard(want: MsgType, maxLen: nat)
    ensures PollTx([], want, maxLen) == None
  {}

  lemma FrameOutcome(s: ServerFsm.Server, f: BlockPacket, rx: Channel, tx: Channel, expired: bool)
    requires s.Valid() && f.Exact() && s.phase == ServerFsm.SendingFrame(f)
    requires s.current == s.next == Block
    ensures var m := ServerFsm.TryFrame(s, f, rx, tx, expired);
      && m.rx == rx && m.server.snapshot == s.snapshot && m.server.peer == s.peer
      && m.server.success == s.success
      && (|| (m.tx == tx && m.server.sent == s.sent && (m.server == s || Gone(m.server)))
          || (m.tx == tx + [EncodeBlock(f)] && m.server.sent == s.sent + 1
              && (m.server.phase == ServerFsm.AwaitAck
                  || (m.server.phase == ServerFsm.AtLoop && m.server.next == Block))))
  {
    hide EncodeBlock, GetContinue;
  }

  lemma ServerSendsFrame(y: Protocol, e: Env)
    requires Inv(y) && Claimed(y) && y.server.phase.SendingFrame?
    ensures SessionInv(MoveServer(y, e))
  {
    hide EncodeTx, EncodeBlock, Frame, Cut, ServerProofs.Inv, ClientInv, Lacks, Framed, EndsIn,
      ServerFsm.TryFrame, ClientAt, StoredAt, AckAt, ServerFsm.Server.Valid, Negotiate, HeaderFor,
      Compatible, UpInSession, Listening, Forward, Safe, Active;
    WorkingServer(y);
    WorkingClient(y);
    FrameOutcome(y.server, y.server.phase.frame, y.up, y.down, e.expired);
    if Framed(y.down, y.server.snapshot, y.server.Room(), y.client.taken, y.server.sent) {
      FramedPush(y.down, y.server.snapshot, y.server.Room(), y.client.taken, y.server.sent);
    }
  }

  /** Polling for the acknowledgement ends the session or changes nothing; it brings success
      only if the acknowledgement was there. */
  lemma AckOutcome(s: ServerFsm.Server, up: Channel, e: Env, acked: bool, terms: Config)
    requires s.Valid() && s.phase == ServerFsm.AwaitAck && !s.success
    requires if acked then up == [AckMessage(terms)] else up == [] || up == [AckNotMessage(terms)]
    ensures var r := ServerFsm.HearAck(s, up, e);
      && (acked ==> r == ServerFsm.Go(s.(success := r.success), Terminate))
      && (!acked ==> r == s || r == ServerFsm.Go(s, Terminate))
  {
    hide EncodeTx, PollTx;
    if up == [] {
      NothingHeard(AckMsg, s.cfg.maxLen);
    } else {
      DeliveredTx(ClientFsm.AckHeader(if acked then AckMsg else AckNotMsg, terms.id), up, AckMsg,
                  s.cfg.maxLen);
    }
  }

  lemma ServerHearsAck(y: Protocol, e: Env)
    requires Inv(y) && Claimed(y) && y.server.phase == ServerFsm.AwaitAck
    ensures SessionInv(MoveServer(y, e))
  {
    hide EncodeTx, EncodeBlock, Frame, Cut, ServerFsm.HearAck, ServerProofs.Inv, ClientInv, Lacks,
      Framed, EndsIn, ClientAt, StoredAt, DownAt, AckAt;
    WorkingServer(y);
    LacksRest(y.up, RequestMsg);
    AckOutcome(y.server, y.up, e, y.client.acked, Terms(y));
  }

  // ---------- all steps ----------

  lemma ClientMoveKeepsSession(y: Protocol, expired: bool)
    requires Inv(y) && Claimed(y)
    ensures SessionInv(MoveClient(y, expired))
  {
    hide SessionInv, MoveClient, ServerProofs.Inv, ClientInv, Frame;
    match y.client.phase
    case AtLoop => ClientActivates(y, expired);
    case SendingRequest => ClientAsks(y, expired);
    case AwaitResponse => ClientHearsResponse(y, expired);
    case SendingInitiate => ClientInitiates(y, expired);
    case AwaitBlock(_) =>
      if y.down == [] {
        ClientHearsNothing(y, expired);
      } else if NextFits(y) {
        ClientHearsFrame(y, expired);
      } else {
        ClientDropsFrame(y, expired);
      }
    case SendingAck => ClientAcknowledges(y, expired);
    case SendingAckNot => ClientRefuses(y, expired);
  }

  lemma ServerMoveKeepsSession(y: Protocol, e: Env)
    requires Inv(y) && Claimed(y)
    ensures SessionInv(MoveServer(y, e))
  {
    match y.server.phase
    case AtLoop => ServerActivates(y, e);
    case AwaitRequest => ServerHearsRequest(y, e);
    case SendingResponse(_) => ServerResponds(y, e);
    case AwaitInitiate => ServerHearsInitiate(y, e);
    case SendingFrame(_) => ServerSendsFrame(y, e);
    case AwaitAck => ServerHearsAck(y, e);
    case Overflowed => assert MoveServer(y, e) == y;
  }

  lemma ServerStartKeepsSession(y: Protocol)
    requires Inv(y) && Claimed(y)
    ensures SessionInv(y.(server := ServerFsm.Start(y.server)))
  {
    hide EncodeTx, EncodeBlock, Frame, Cut, ClientInv, Lacks, Framed, EndsIn, ClientAt, StoredAt,
      AckAt, DownAt, UpAt;
    assert Gone(ServerFsm.Start(y.server)) == Gone(y.server);
  }

  lemma ForwardStep(c: ClientFsm.Client, rx: Channel, tx: Channel, expired: bool, stage: ClientStage)
    requires ClientInv(c) && Forward(c, stage)
    ensures var r := ClientFsm.Step(c, rx, tx, expired).client;
      Forward(r, ClientProgress(c, r, stage))
      && (stage == Initiated ==> ClientProgress(c, r, stage) == Initiated)
  {
    hide EncodeTx, CanSendTx, Push, PollTx, PollBlock, ClientFsm.Store;
    if c.phase.AwaitBlock? {
      StoreOutcome(c, PollBlock(rx, c.phase.packet, BlockMsg, c.cfg.maxLen).packet);
    }
  }

  /** Every action keeps the invariant. */
  lemma StepInv(y: Protocol, a: Action)
    requires Inv(y)
    ensures Inv(Step(y, a))
  {
    hide SessionInv, ServerProofs.Inv, ClientInv, ServerFsm.Step, ClientFsm.Step, Forward;
    match a
    case ServerMove(e) =>
      ServerProofs.StepInv(y.server, y.up, y.down, e);
      if Claimed(y) {
        ServerMoveKeepsSession(y, e);
      }
    case ClientMove(expired) =>
      ClientStepInv(y.client, y.down, y.up, expired);
      ForwardStep(y.client, y.down, y.up, expired, y.clientStage);
      if Claimed(y) {
        ClientMoveKeepsSession(y, expired);
      }
    case StartServer =>
      ServerProofs.StartInv(y.server);
      if Claimed(y) {
        ServerStartKeepsSession(y);
      }
    case StartTransfer(buffer) =>
      BeginInv(y, buffer);
  }

  /** So does every run. */
  lemma {:induction false} RunInv(y: Protocol, schedule: seq<Action>)
    requires Inv(y)
    ensures Inv(Run(y, schedule))
    decreases |schedule|
  {
    hide SessionInv, Step;
    if schedule != [] {
      StepInv(y, schedule[0]);
      RunInv(Step(y, schedule[0]), schedule[1..]);
    }
  }
}

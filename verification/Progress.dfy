/** How a transfer that nobody has given up comes on: as long as no timer fires, every step keeps it
    on its way and reduces what is left to do, unless the party has to wait for the other. */
module Progress {
  import opened Bytes
  import opened Options
  import opened Packets
  import opened Transport
  import opened Fsm
  import opened Segmentation
  import opened Protocol
  import opened SessionProofs
  import opened Cooperation
  import ServerFsm
  import ClientFsm
  import ServerProofs
  import SessionSteps
  import Delivery

  /** What a transfer starts from: the destination, the storage contents that may be offered, and
      the notifications made before. */
  datatype Deal = Deal(dest: seq<byte>, stores: iset<seq<byte>>, serverNotes: seq<bool>,
                       clientNotes: seq<bool>)

  // ---------- transfers that nobody has given up ----------

  /** The storage has not been read yet. */
  predicate Unread(y: Protocol) {
    y.serverStage == Unserved || (y.serverStage == Serving && y.server.phase == ServerFsm.AtLoop)
  }

  ghost predicate LoadedFrom(y: Protocol, stores: iset<seq<byte>>)
    requires y.Valid()
  {
    exists store :: store in stores && y.server.snapshot == Load(y, store)
  }

  ghost predicate Supplied(y: Protocol, d: Deal)
    requires y.Valid()
  {
    if Unread(y) then forall store :: store in d.stores ==> Feasible(y, store, d.dest)
    else LoadedFrom(y, d.stores) && 0 < |y.server.snapshot| <= |d.dest|
  }

  /** The server is at the state that its stage stands for, or has succeeded. */
  predicate ServerOn(s: ServerFsm.Server, stage: ServerStage, up: Channel, acked: bool, blocks: nat,
                     notes: seq<bool>) {
    match stage
    case Unserved => s.Ready() && s.next == Request && s.notes == notes
    case Serving =>
      && ((s.phase == ServerFsm.AtLoop && s.next == Response) || s.phase.SendingResponse?)
      && s.notes == notes
    case Offered =>
      && ((s.phase == ServerFsm.AtLoop && s.next == Initiate) || s.phase == ServerFsm.AwaitInitiate)
      && s.notes == notes
    case Streaming =>
      if s.InBlock() then s.sent <= blocks && s.notes == notes
      else
        && acked && up == []
        && (|| (s.phase == ServerFsm.AtLoop && s.next == Terminate && s.success && s.notes == notes)
            || (s.Ready() && s.next == Request && s.notes == notes + [true]))
  }

  /** So is the client; and in BLOCK, it waits for a frame exactly when one is to come. */
  predicate ClientOn(c: ClientFsm.Client, stage: ClientStage, down: Channel, s: ServerFsm.Server,
                     notes: seq<bool>)
    requires s.Valid()
  {
    match stage
    case NotAsked => c.next == Request && c.notes == notes
    case Asked => c.next == Response && c.notes == notes
    case Answered => c.next == Initiate && c.notes == notes
    case Initiated =>
      if c.next == Block && c.phase != ClientFsm.SendingAck then
        && c.phase != ClientFsm.SendingAckNot && c.notes == notes
        && Cut(c.taken, s.Room(), |s.snapshot|) < |s.snapshot|
      else
        && down == [] && (s.InBlock() ==> s.phase == ServerFsm.AwaitAck)
        && (if c.next == Idle then c.acked && c.notes == notes + [true]
            else c.notes == notes && (c.next == Terminate ==> c.success && c.acked))
  }

  ghost predicate Live(y: Protocol, d: Deal) {
    && Inv(y) && y.drained && Compatible(y) && y.client.cfg.id != 0 && y.client.original == d.dest
    && ServerOn(y.server, y.serverStage, y.up, y.client.acked, Terms(y).blocks, d.serverNotes)
    && ClientOn(y.client, y.clientStage, y.down, y.server, d.clientNotes)
    && Supplied(y, d)
  }

  // ---------- how much is left to do ----------

  /** Steps the server still has to make; sending a message counts twice. */
  function ServerLeft(s: ServerFsm.Server, stage: ServerStage, blocks: nat): nat {
    match stage
    case Unserved => 3 * blocks + if s.phase == ServerFsm.AtLoop then 10 else 9
    case Serving => 3 * blocks + if s.phase == ServerFsm.AtLoop then 8 else 7
    case Offered => 3 * blocks + if s.phase == ServerFsm.AtLoop then 5 else 4
    case Streaming =>
      if s.InBlock() then
        3 * (if s.sent <= blocks then blocks - s.sent else 0) + if s.phase.SendingFrame? then 2 else 3
      else if s.phase == ServerFsm.AtLoop then if s.next == Terminate then 2 else 1
      else 0
  }

  function ClientLeft(c: ClientFsm.Client, stage: ClientStage, blocks: nat): nat {
    match stage
    case NotAsked => 2 * blocks + if c.phase == ClientFsm.AtLoop then 13 else 12
    case Asked => 2 * blocks + if c.phase == ClientFsm.AtLoop then 10 else 9
    case Answered => 2 * blocks + if c.phase == ClientFsm.AtLoop then 8 else 7
    case Initiated =>
      if c.next == Block && c.phase != ClientFsm.SendingAck then
        2 * (if c.taken <= blocks then blocks - c.taken else 0)
          + if c.phase == ClientFsm.AtLoop then 5 else 4
      else if c.next == Block then 4
      else if c.next == Terminate then 2
      else if c.busy then 1 else 0
  }

  /** What is left to do, with the messages that are still to be taken off a queue. */
  function Work(y: Protocol): nat {
    ServerLeft(y.server, y.serverStage, Terms(y).blocks)
      + ClientLeft(y.client, y.clientStage, Terms(y).blocks) + |y.up| + |y.down|
  }

  /** The server can do nothing until the client does. */
  predicate ServerWaits(y: Protocol) {
    match y.server.phase
    case AwaitRequest => y.up == []
    case AwaitInitiate => y.up == []
    case AwaitAck => y.up == []
    case SendingResponse(_) => |y.down| >= CAPACITY
    case SendingFrame(_) => |y.down| >= CAPACITY
    case _ => false
  }

  predicate ClientWaits(y: Protocol) {
    match y.client.phase
    case AtLoop => y.client.next == Idle && !y.client.busy
    case AwaitResponse => y.down == []
    case AwaitBlock(_) => y.down == []
    case _ => |y.up| >= CAPACITY
  }

  /** A step keeps the transfer alive, and brings it on unless the party has to wait. */
  ghost predicate Advances(y: Protocol, z: Protocol, d: Deal, waits: bool) {
    Live(z, d) && (if z == y then waits else Work(z) < Work(y))
  }

  // ---------- what the invariant says about a transfer that is alive ----------

  /** Where the parties can be, and what is queued for them. */
  lemma Together(y: Protocol, d: Deal)
    requires Live(y, d)
    ensures InStep(y.clientStage, y.serverStage) && Claimed(y)
    ensures y.client.acked || y.client.phase == ClientFsm.SendingAck ==> y.serverStage == Streaming
    ensures y.clientStage == Initiated ==> y.client.next in {Block, Terminate, Idle}
    ensures y.clientStage == NotAsked ==> Lacks(y.up, RequestMsg) && Lacks(y.down, ResponseMsg)
    ensures y.clientStage == Asked && y.serverStage == Unserved ==>
      EndsIn(y.up, RequestMessage(y.client.cfg), RequestMsg) && Lacks(y.down, ResponseMsg)
    ensures y.clientStage == Asked && y.serverStage == Serving ==> y.up == [] && Lacks(y.down, ResponseMsg)
    ensures y.clientStage == Asked && y.serverStage == Offered ==>
      y.up == [] && EndsIn(y.down, ResponseMessage(Terms(y)), ResponseMsg)
    ensures y.clientStage == Answered ==> y.up == []
    ensures y.clientStage == Initiated && y.serverStage == Offered ==> y.up == [InitiateMessage(Terms(y))]
    ensures y.clientStage == Initiated && y.serverStage == Streaming && y.server.InBlock() ==>
      y.up == if y.client.acked then [AckMessage(Terms(y))] else []
  {
    hide EncodeTx, EncodeBlock, Frame, Cut, ServerProofs.Inv, ClientInv, Lacks, Framed, EndsIn,
      Negotiate, HeaderFor, StoredAt, Lost, ServerFsm.Server.Valid;
    AckedStage(y);
    SessionSteps.WorkingClient(y);
  }

  lemma AckedStage(y: Protocol)
    requires Inv(y) && Claimed(y)
    ensures y.client.acked || y.client.phase == ClientFsm.SendingAck ==> y.serverStage == Streaming
  {
    hide EncodeTx, EncodeBlock, Frame, Cut, ServerProofs.Inv, ClientInv, ClientAt, ServerAt, UpAt, DownAt,
      StoredAt, Negotiate;
  }

  /** The frames on their way, while the client listens. */
  lemma Frames(y: Protocol, d: Deal)
    requires Live(y, d) && y.clientStage in {Answered, Initiated}
    requires y.clientStage == Initiated ==> y.client.next == Block
    ensures y.client.taken + |y.down| == y.server.sent
    ensures y.serverStage == Offered ==> y.server.sent == 0
    ensures y.client.taken <= y.server.sent
  {
    hide EncodeTx, EncodeBlock, Frame, Cut, ServerProofs.Inv, ClientInv, Lacks, EndsIn,
      Negotiate, HeaderFor, StoredAt, Lost, UpAt, ServerFsm.Server.Valid, Supplied, ServerOn;
  }

  /** Steps that read nothing and cut nothing leave the supply alone. */
  lemma SameSupply(y: Protocol, z: Protocol, d: Deal)
    requires y.Valid() && z.Valid() && Supplied(y, d)
    requires z.server.cfg == y.server.cfg && z.client.cfg == y.client.cfg
    requires Unread(z) ==> Unread(y) && z.server.cursor == y.server.cursor && |z.server.mem| == |y.server.mem|
    requires !Unread(z) ==> !Unread(y) && z.server.snapshot == y.server.snapshot
    ensures Supplied(z, d)
  {
    hide ServerFsm.Server.Valid;
    SameLoads(y, z);
  }

  // ---------- the server's steps ----------

  lemma ServerHearsRequest(y: Protocol, d: Deal, e: Env)
    requires Live(y, d) && y.server.phase == ServerFsm.AwaitRequest && !e.expired
    ensures Advances(y, MoveServer(y, e), d, ServerWaits(y))
  {
    hide EncodeTx, EncodeBlock, Frame, Cut, PollTx, Inv, Lacks, EndsIn, Negotiate, Supplied;
    InvIsValid(y);
    SessionSteps.StepInv(y, ServerMove(e));
    Together(y, d);
    var z := MoveServer(y, e);
    if y.clientStage == Asked && y.serverStage == Unserved {
      SessionSteps.PollEndsIn(y.up, HeaderFor(RequestMsg, y.client.cfg), y.server.cfg.maxLen);
    } else if y.up == [] {
      SessionSteps.NothingHeard(RequestMsg, y.server.cfg.maxLen);
    } else {
      SessionSteps.PollLacking(y.up, RequestMsg, y.server.cfg.maxLen);
    }
    SameSupply(y, z, d);
  }

  /** RESPONSE with storage contents that the transfer can carry. */
  lemma Reads(s: ServerFsm.Server, store: seq<byte>, client: Config)
    requires ServerProofs.Inv(s) && s.phase == ServerFsm.AtLoop && s.next == Response && s.peer == client
    requires var n := Min(|store|, s.Room() * Negotiate(client, s.cfg).blocks);
      0 < n && s.cursor + n <= |s.mem|
    ensures var r := ServerFsm.Activate(s, store);
      && r.phase.SendingResponse? && r.next == Response && r.notes == s.notes
      && r.snapshot == store[..Min(|store|, s.Room() * Negotiate(client, s.cfg).blocks)]
  {
    hide Negotiate, HeaderFor;
  }

  lemma ServerReads(y: Protocol, d: Deal, e: Env)
    requires Live(y, d) && y.server.phase == ServerFsm.AtLoop && y.serverStage == Serving
    requires e.store in d.stores
    ensures Advances(y, MoveServer(y, e), d, ServerWaits(y))
  {
    hide EncodeTx, EncodeBlock, Frame, Cut, Inv, Negotiate, ServerFsm.Activate, ServerProofs.Inv, Lacks, EndsIn;
    InvIsValid(y);
    SessionSteps.StepInv(y, ServerMove(e));
    Together(y, d);
    ServesClient(y);
    var z := MoveServer(y, e);
    assert Feasible(y, e.store, d.dest);
    Reads(y.server, e.store, y.client.cfg);
    assert z.server.snapshot == Load(z, e.store);
  }

  lemma ServesClient(y: Protocol)
    requires Inv(y) && Claimed(y) && y.serverStage == Serving
    requires y.server.phase == ServerFsm.AtLoop && y.server.next == Response
    ensures y.server.peer == y.client.cfg && ServerProofs.Inv(y.server)
  {
    hide EncodeTx, EncodeBlock, Frame, Cut, ServerProofs.Inv, ClientInv, ClientAt, UpAt, DownAt,
      StoredAt, AckAt, Negotiate;
  }

  /** Activations of the other states. */
  lemma ActivateCases(s: ServerFsm.Server, store: seq<byte>)
    requires ServerProofs.Inv(s) && s.phase == ServerFsm.AtLoop && s.next !in {Idle, Response}
    ensures var r := ServerFsm.Activate(s, store);
      && r.snapshot == s.snapshot && r.sent == s.sent
      && (s.next != Block ==> r.cursor == s.cursor && |r.mem| == |s.mem|)
      && r.notes == (if s.next == Terminate then s.notes + [s.success] else s.notes)
      && match s.next
         case Request => r.phase == ServerFsm.AwaitRequest && r.next == Request
         case Initiate => r.phase == ServerFsm.AwaitInitiate && r.next == Initiate
         case Block => r.phase.SendingFrame? && r.next == Block
         case Terminate => r.phase == ServerFsm.AtLoop && r.next == Request
  {
    hide SetContinue, SetFrameNumber, ServerProofs.PhaseInv;
  }

  lemma ServerActivates(y: Protocol, d: Deal, e: Env)
    requires Live(y, d) && y.server.phase == ServerFsm.AtLoop && y.serverStage != Serving
    ensures Advances(y, MoveServer(y, e), d, ServerWaits(y))
  {
    hide EncodeTx, EncodeBlock, Frame, Cut, Inv, Negotiate, ServerFsm.Activate, ServerProofs.Inv, Supplied;
    InvIsValid(y);
    SessionSteps.StepInv(y, ServerMove(e));
    ServerOwn(y);
    var z := MoveServer(y, e);
    ActivateCases(y.server, e.store);
    SameSupply(y, z, d);
  }

  lemma ServerOwn(y: Protocol)
    requires Inv(y)
    ensures ServerProofs.Inv(y.server)
  {
    hide ServerProofs.Inv, ClientInv, SessionInv;
  }

  /** Without expiry, an attempt to send succeeds exactly when there is room in the queue. */
  lemma ResponseOffered(s: ServerFsm.Server, h: TxHeader, rx: Channel, tx: Channel)
    requires s.Valid()
    ensures ServerFsm.TryResponse(s, h, rx, tx, false)
         == if |tx| < CAPACITY then ServerFsm.Moved(ServerFsm.Go(s, Initiate), rx, tx + [EncodeTx(h)])
            else ServerFsm.Moved(s, rx, tx)
  {
    hide EncodeTx;
  }

  lemma ServerResponds(y: Protocol, d: Deal, e: Env)
    requires Live(y, d) && y.server.phase.SendingResponse? && !e.expired
    ensures Advances(y, MoveServer(y, e), d, ServerWaits(y))
  {
    hide EncodeTx, EncodeBlock, Frame, Cut, Inv, Negotiate, Supplied, ServerFsm.TryResponse, Lacks, EndsIn;
    InvIsValid(y);
    SessionSteps.StepInv(y, ServerMove(e));
    Together(y, d);
    var z := MoveServer(y, e);
    ResponseOffered(y.server, y.server.phase.response, y.up, y.down);
    SameSupply(y, z, d);
  }

  lemma ServerHearsInitiate(y: Protocol, d: Deal, e: Env)
    requires Live(y, d) && y.server.phase == ServerFsm.AwaitInitiate && !e.expired
    ensures Advances(y, MoveServer(y, e), d, ServerWaits(y))
  {
    hide EncodeTx, EncodeBlock, Frame, Cut, Inv, Negotiate, Supplied, ServerFsm.HearInitiate, PollTx,
      EndsIn, Lacks;
    InvIsValid(y);
    SessionSteps.StepInv(y, ServerMove(e));
    Together(y, d);
    ServerAgreed(y, d);
    var z := MoveServer(y, e);
    SessionSteps.InitiateOutcome(y, e);
    NoInitiate(y.server);
    SameSupply(y, z, d);
  }

  lemma NoInitiate(s: ServerFsm.Server)
    requires s.Valid()
    ensures ServerFsm.HearInitiate(s, [], false) == s
  {}

  /** What the server holds while the initiate message is awaited. */
  lemma ServerAgreed(y: Protocol, d: Deal)
    requires Live(y, d) && y.server.phase == ServerFsm.AwaitInitiate
    ensures y.serverStage == Offered && y.server.peer == Terms(y) && y.server.sent == 0
  {
    hide EncodeTx, EncodeBlock, Frame, Cut, ServerProofs.Inv, ClientInv, ClientAt, UpAt, DownAt, StoredAt,
      AckAt, Negotiate, Supplied;
  }

  lemma FrameOffered(s: ServerFsm.Server, f: BlockPacket, rx: Channel, tx: Channel)
    requires s.Valid() && f.Exact() && s.current == Block
    requires f.header.size > 0 && PacketSize(f) <= s.cfg.maxLen
    ensures var m := ServerFsm.TryFrame(s, f, rx, tx, false);
      if |tx| < CAPACITY then
        && m.rx == rx && m.tx == tx + [EncodeBlock(f)]
        && m.server == s.(sent := s.sent + 1, phase := m.server.phase,
                          next := if m.server.phase == ServerFsm.AwaitAck then s.next else Block)
        && m.server.phase in {ServerFsm.AtLoop, ServerFsm.AwaitAck}
      else m == ServerFsm.Moved(s, rx, tx)
  {
    hide GetContinue;
  }

  /** There is a frame left to send, within the negotiated number. */
  lemma FrameWithinLimit(y: Protocol, d: Deal)
    requires Live(y, d) && y.server.phase.SendingFrame?
    ensures y.serverStage == Streaming && y.server.sent < Terms(y).blocks
    ensures y.server.current == y.server.next == Block
    ensures var f := y.server.phase.frame; f.header.size > 0 && PacketSize(f) <= y.server.cfg.maxLen
  {
    hide EncodeTx, EncodeBlock, Frame, Cut, ServerProofs.Inv, ClientInv, ClientAt, UpAt, DownAt, StoredAt,
      AckAt, Negotiate, Supplied;
    SessionSteps.WorkingServer(y);
    SessionSteps.WorkingClient(y);
    var p, total, k := y.server.Room(), |y.server.snapshot|, y.server.sent;
    FrameFacts(y.server.snapshot, p, k);
    CutIsProduct(k, p, total);
    if k >= Terms(y).blocks {
      MulMonotone(Terms(y).blocks, k, p);
    }
  }

  lemma ServerSendsFrame(y: Protocol, d: Deal, e: Env)
    requires Live(y, d) && y.server.phase.SendingFrame? && !e.expired
    ensures Advances(y, MoveServer(y, e), d, ServerWaits(y))
  {
    hide EncodeTx, EncodeBlock, Frame, Cut, Inv, Negotiate, Supplied, ServerFsm.TryFrame;
    InvIsValid(y);
    SessionSteps.StepInv(y, ServerMove(e));
    FrameWithinLimit(y, d);
    var z := MoveServer(y, e);
    FrameOffered(y.server, y.server.phase.frame, y.up, y.down);
    SameSupply(y, z, d);
  }

  lemma AckHeard(s: ServerFsm.Server, up: Channel, e: Env, terms: Config)
    requires s.Valid() && s.peer == terms && s.remaining == 0 && !e.expired
    requires up == [] || up == [AckMessage(terms)]
    ensures ServerFsm.HearAck(s, up, e)
         == if up == [] then s else ServerFsm.Go(s.(success := true), Terminate)
  {
    hide EncodeTx, PollTx;
    if up == [] {
      SessionSteps.NothingHeard(AckMsg, s.cfg.maxLen);
    } else {
      DeliveredTx(ClientFsm.AckHeader(AckMsg, terms.id), up, AckMsg, s.cfg.maxLen);
    }
  }

  lemma AllStreamed(y: Protocol, d: Deal)
    requires Live(y, d) && y.server.phase == ServerFsm.AwaitAck
    ensures y.serverStage == Streaming && y.clientStage == Initiated && y.server.peer == Terms(y)
    ensures y.server.remaining == 0 && y.server.next == Block
    ensures Cut(y.server.sent, y.server.Room(), |y.server.snapshot|) == |y.server.snapshot|
  {
    hide EncodeTx, EncodeBlock, Frame, Cut, ServerProofs.Inv, ClientInv, ClientAt, UpAt, DownAt, StoredAt,
      AckAt, Negotiate, Supplied;
    SessionSteps.WorkingServer(y);
    ServerOwn(y);
    AllCut(y.server);
  }

  /** In BLOCK, everything has been sent exactly when the acknowledgement is awaited. */
  lemma AllCut(s: ServerFsm.Server)
    requires ServerProofs.Inv(s) && s.InBlock()
    ensures Cut(s.sent, s.Room(), |s.snapshot|) == |s.snapshot| <==> s.phase == ServerFsm.AwaitAck
  {
    hide Frame, Cut;
  }

  lemma ServerHearsAck(y: Protocol, d: Deal, e: Env)
    requires Live(y, d) && y.server.phase == ServerFsm.AwaitAck && !e.expired
    ensures Advances(y, MoveServer(y, e), d, ServerWaits(y))
  {
    hide EncodeTx, EncodeBlock, Frame, Cut, Inv, Negotiate, Supplied, ServerFsm.HearAck, Lacks, EndsIn;
    InvIsValid(y);
    SessionSteps.StepInv(y, ServerMove(e));
    Together(y, d);
    AllStreamed(y, d);
    var z := MoveServer(y, e);
    AckHeard(y.server, y.up, e, Terms(y));
    SameSupply(y, z, d);
  }

  // ---------- the client's steps ----------

  /** The client's stage, from where its activation is suspended. */
  lemma ClientPlace(y: Protocol)
    requires Inv(y) && Claimed(y)
    ensures ClientInv(y.client)
    ensures y.client.phase == ClientFsm.SendingRequest ==> y.clientStage == NotAsked
    ensures y.client.phase == ClientFsm.AwaitResponse ==> y.clientStage == Asked
    ensures y.client.phase == ClientFsm.SendingInitiate ==>
      y.clientStage == ClientStage.Answered && y.client.taken == 0 && y.client.peer == Terms(y)
    ensures y.client.phase.AwaitBlock? || y.client.phase == ClientFsm.SendingAck ==>
      y.clientStage == Initiated && y.client.next == Block && y.client.peer == Terms(y) && !y.client.acked
    ensures y.clientStage == ClientStage.Answered && y.client.next == Initiate ==> y.client.peer == Terms(y)
    ensures y.client.phase == ClientFsm.SendingAckNot ==> y.clientStage == Initiated && y.client.next == Block
  {
    hide EncodeTx, EncodeBlock, Frame, Cut, ServerProofs.Inv, ServerAt, UpAt, DownAt, StoredAt, AckAt,
      Negotiate;
    SessionSteps.WorkingClient(y);
  }

  lemma ActivateClientCases(c: ClientFsm.Client)
    requires ClientInv(c) && c.phase == ClientFsm.AtLoop
    ensures var r := ClientFsm.Activate(c);
      && r.original == c.original && r.taken == c.taken && r.acked == c.acked
      && r.notes == (if c.next == Terminate then c.notes + [c.success] else c.notes)
      && match c.next
         case Idle => r.phase == ClientFsm.AtLoop && r.next == Idle && !r.busy && (!c.busy ==> r == c)
         case Request => r.phase == ClientFsm.SendingRequest && r.next == Request
         case Response => r.phase == ClientFsm.AwaitResponse && r.next == Response
         case Initiate => c.peer.id != 0 ==> r.phase == ClientFsm.SendingInitiate && r.next == Initiate
         case Block => r.phase.AwaitBlock? && r.next == Block
         case Terminate => r.phase == ClientFsm.AtLoop && r.next == Idle
  {
    hide ClientPhaseInv;
  }

  lemma ClientActivates(y: Protocol, d: Deal)
    requires Live(y, d) && y.client.phase == ClientFsm.AtLoop
    ensures Advances(y, MoveClient(y, false), d, ClientWaits(y))
  {
    hide EncodeTx, EncodeBlock, Frame, Cut, Inv, Supplied, ClientFsm.Activate, ClientInv, Lacks, EndsIn;
    InvIsValid(y);
    SessionSteps.StepInv(y, ClientMove(false));
    Together(y, d);
    ClientPlace(y);
    var z := MoveClient(y, false);
    ActivateClientCases(y.client);
    SameSupply(y, z, d);
  }

  lemma SendTried(c: ClientFsm.Client, h: TxHeader, sent: ClientFsm.Client, rx: Channel, tx: Channel)
    requires c.Valid() && sent.Valid() && sent.cfg == c.cfg
    ensures ClientFsm.TrySend(c, h, sent, rx, tx, false)
         == if |tx| < CAPACITY then ClientFsm.Moved(sent, rx, tx + [EncodeTx(h)])
            else ClientFsm.Moved(c, rx, tx)
  {
    hide EncodeTx;
  }

  lemma ClientAsks(y: Protocol, d: Deal)
    requires Live(y, d) && y.client.phase == ClientFsm.SendingRequest
    ensures Advances(y, MoveClient(y, false), d, ClientWaits(y))
  {
    hide EncodeTx, EncodeBlock, Frame, Cut, Inv, Supplied, ClientFsm.TrySend, ClientInv, Lacks, EndsIn,
      Negotiate;
    InvIsValid(y);
    SessionSteps.StepInv(y, ClientMove(false));
    Together(y, d);
    ClientPlace(y);
    var c, z := y.client, MoveClient(y, false);
    SendTried(c, HeaderFor(RequestMsg, c.cfg), ClientFsm.Go(c, Response), y.down, y.up);
    SameSupply(y, z, d);
  }

  lemma ClientHearsResponse(y: Protocol, d: Deal)
    requires Live(y, d) && y.client.phase == ClientFsm.AwaitResponse
    ensures Advances(y, MoveClient(y, false), d, ClientWaits(y))
  {
    hide EncodeTx, EncodeBlock, Frame, Cut, Inv, Supplied, PollTx, ClientInv, Lacks, EndsIn, Negotiate;
    InvIsValid(y);
    SessionSteps.StepInv(y, ClientMove(false));
    Together(y, d);
    ClientPlace(y);
    var z := MoveClient(y, false);
    if y.serverStage == Offered {
      SessionSteps.PollEndsIn(y.down, HeaderFor(ResponseMsg, Terms(y)), y.client.cfg.maxLen);
    } else if y.down == [] {
      SessionSteps.NothingHeard(ResponseMsg, y.client.cfg.maxLen);
    } else {
      SessionSteps.PollLacking(y.down, ResponseMsg, y.client.cfg.maxLen);
    }
    SameSupply(y, z, d);
  }

  lemma ClientInitiates(y: Protocol, d: Deal)
    requires Live(y, d) && y.client.phase == ClientFsm.SendingInitiate
    ensures Advances(y, MoveClient(y, false), d, ClientWaits(y))
  {
    hide EncodeTx, EncodeBlock, Frame, Cut, Inv, ClientFsm.TrySend, ClientInv, Lacks, EndsIn, Negotiate,
      Feasible;
    InvIsValid(y);
    SessionSteps.StepInv(y, ClientMove(false));
    Together(y, d);
    ClientPlace(y);
    FirstCut(y);
    var c, z := y.client, MoveClient(y, false);
    SendTried(c, HeaderFor(InitiateMsg, c.peer), ClientFsm.Go(c, Block), y.down, y.up);
    SameSupply(y, z, d);
  }

  lemma ClientAcknowledges(y: Protocol, d: Deal)
    requires Live(y, d) && y.client.phase == ClientFsm.SendingAck
    ensures Advances(y, MoveClient(y, false), d, ClientWaits(y))
  {
    hide EncodeTx, EncodeBlock, Frame, Cut, Inv, Supplied, ClientFsm.TrySend, ClientInv, Lacks, EndsIn,
      Negotiate;
    InvIsValid(y);
    SessionSteps.StepInv(y, ClientMove(false));
    Together(y, d);
    ClientPlace(y);
    var c, z := y.client, MoveClient(y, false);
    SendTried(c, ClientFsm.AckHeader(AckMsg, c.peer.id),
              ClientFsm.Go(c.(success := true, acked := true), Terminate), y.down, y.up);
    SameSupply(y, z, d);
  }

  lemma ClientHearsNothing(y: Protocol, d: Deal)
    requires Live(y, d) && y.client.phase.AwaitBlock? && y.down == []
    ensures Advances(y, MoveClient(y, false), d, ClientWaits(y))
  {
    hide EncodeTx, EncodeBlock, Frame, Cut, Inv, PollBlock, ClientFsm.Store;
    InvIsValid(y);
    NothingQueued(y.client.phase.packet, BlockMsg, y.client.cfg.maxLen);
    var c := y.client;
    assert c.(phase := ClientFsm.AwaitBlock(c.phase.packet)) == c;
    assert MoveClient(y, false) == y;
  }

  /** The frame is stored: there is room for it, and it says whether another one follows. */
  lemma FrameIsTaken(y: Protocol, d: Deal)
    requires Live(y, d) && y.client.phase.AwaitBlock? && y.down != []
    ensures var c, p, total := y.client, y.server.Room(), |y.server.snapshot|;
      var z := MoveClient(y, false);
      && z == y.(client := z.client, down := Rest(y.down))
      && z.client.taken == c.taken + 1 && z.client.next == Block && z.client.cfg == c.cfg
      && z.client.notes == c.notes && z.client.original == c.original && z.client.acked == c.acked
      && z.client.phase == (if Cut(c.taken + 1, p, total) < total then ClientFsm.AtLoop else ClientFsm.SendingAck)
      && y.clientStage == Initiated && y.serverStage == Streaming && c.taken < y.server.sent
      && y.server.InBlock() && y.client.next == Block
  {
    hide EncodeTx, EncodeBlock, Frame, Cut, Inv, ClientFsm.Store, MoveClient, ClientInv, Lacks, EndsIn,
      PollBlock, Feasible, Negotiate;
    InvIsValid(y);
    Together(y, d);
    ClientPlace(y);
    Frames(y, d);
    NextFrameFits(y, d);
    SessionSteps.NextFrame(y);
    SessionSteps.HearingIsStoring(y, false);
    StoredOffset(y);
    var f := FrameAt(y, y.client.taken);
    FrameFacts(y.server.snapshot, y.server.Room(), y.client.taken);
    StoresFrame(y.client, f);
    StoringKeepsAcked(y.client, f);
  }

  lemma StoringKeepsAcked(c: ClientFsm.Client, f: BlockPacket)
    requires c.Valid() && f.Valid()
    ensures ClientFsm.Store(c, f).acked == c.acked
  {
    hide GetContinue;
  }

  lemma NextFrameFits(y: Protocol, d: Deal)
    requires Live(y, d) && y.client.phase.AwaitBlock? && y.down != []
    ensures SessionSteps.NextFits(y) && 0 < y.server.Room() <= 250
    ensures Cut(y.client.taken, y.server.Room(), |y.server.snapshot|) < |y.server.snapshot|
  {
    hide EncodeTx, EncodeBlock, Frame, Cut, Inv, ClientInv, Supplied, ServerOn;
    InvIsValid(y);
    ClientPlace(y);
    SessionSteps.WorkingClient(y);
    FrameFacts(y.server.snapshot, y.server.Room(), y.client.taken);
  }

  /** When the last frame has been taken, nothing is queued and the server waits. */
  lemma LastFrame(y: Protocol, d: Deal)
    requires Live(y, d) && y.client.phase.AwaitBlock? && y.down != []
    requires y.serverStage == Streaming && y.server.InBlock() && y.client.taken < y.server.sent
    requires var p, total := y.server.Room(), |y.server.snapshot|; Cut(y.client.taken + 1, p, total) == total
    ensures Rest(y.down) == [] && y.server.phase == ServerFsm.AwaitAck
  {
    hide EncodeTx, EncodeBlock, Frame, Cut, Inv, ClientInv, Supplied, ServerOn, ServerProofs.PhaseInv;
    ClientPlace(y);
    Frames(y, d);
    ServerOwn(y);
    var s, p, total := y.server, y.server.Room(), |y.server.snapshot|;
    InvIsValid(y);
    if s.sent > y.client.taken + 1 {
      CutMonotone(y.client.taken + 1, s.sent - 1, p, total);
    }
    AllCut(s);
  }

  lemma ClientHearsFrame(y: Protocol, d: Deal)
    requires Live(y, d) && y.client.phase.AwaitBlock? && y.down != []
    ensures Advances(y, MoveClient(y, false), d, ClientWaits(y))
  {
    hide EncodeTx, EncodeBlock, Frame, Cut, Inv, Supplied, MoveClient, Negotiate;
    InvIsValid(y);
    SessionSteps.StepInv(y, ClientMove(false));
    FrameIsTaken(y, d);
    var z, p, total := MoveClient(y, false), y.server.Room(), |y.server.snapshot|;
    if Cut(y.client.taken + 1, p, total) == total {
      LastFrame(y, d);
    }
    SameSupply(y, z, d);
  }

  // ---------- every step ----------

  lemma ServerAdvances(y: Protocol, d: Deal, e: Env)
    requires Live(y, d) && !e.expired && e.store in d.stores
    ensures Advances(y, MoveServer(y, e), d, ServerWaits(y))
  {
    hide Advances, MoveServer, Inv, Supplied, ClientOn, Terms, Compatible;
    InvIsValid(y);
    match y.server.phase
    case AtLoop =>
      if y.serverStage == Serving {
        ServerReads(y, d, e);
      } else {
        ServerActivates(y, d, e);
      }
    case AwaitRequest => ServerHearsRequest(y, d, e);
    case SendingResponse(_) => ServerResponds(y, d, e);
    case AwaitInitiate => ServerHearsInitiate(y, d, e);
    case SendingFrame(_) => ServerSendsFrame(y, d, e);
    case AwaitAck => ServerHearsAck(y, d, e);
    case Overflowed => assert false;
  }

  lemma ClientAdvances(y: Protocol, d: Deal)
    requires Live(y, d)
    ensures Advances(y, MoveClient(y, false), d, ClientWaits(y))
  {
    hide Advances, MoveClient, Inv, Supplied, ServerOn, Terms, Cut, Lacks, EndsIn;
    InvIsValid(y);
    match y.client.phase
    case AtLoop => ClientActivates(y, d);
    case SendingRequest => ClientAsks(y, d);
    case AwaitResponse => ClientHearsResponse(y, d);
    case SendingInitiate => ClientInitiates(y, d);
    case AwaitBlock(_) =>
      if y.down == [] {
        ClientHearsNothing(y, d);
      } else {
        ClientHearsFrame(y, d);
      }
    case SendingAck => ClientAcknowledges(y, d);
    case SendingAckNot =>
      Together(y, d);
      ClientPlace(y);
      assert false;
  }

  lemma NotEmpty(q: Channel, m: Message, t: MsgType)
    requires EndsIn(q, m, t)
    ensures q != []
  {}

  /** The parties never wait for each other: if both have to wait, there is nothing left to do. */
  lemma NoDeadlock(y: Protocol, d: Deal)
    requires Live(y, d) && ServerWaits(y) && ClientWaits(y)
    ensures Work(y) == 0
  {
    hide EncodeTx, EncodeBlock, Frame, Cut, Inv, Supplied, ClientInv, Lacks, EndsIn, Negotiate;
    InvIsValid(y);
    Together(y, d);
    ClientPlace(y);
    if y.clientStage == Asked && y.serverStage == Unserved {
      NotEmpty(y.up, RequestMessage(y.client.cfg), RequestMsg);
    } else if y.clientStage == Asked && y.serverStage == Offered {
      NotEmpty(y.down, ResponseMessage(Terms(y)), ResponseMsg);
    } else if y.client.phase.AwaitBlock? && y.server.phase == ServerFsm.AwaitAck {
      AllStreamed(y, d);
      Frames(y, d);
    }
  }

  /** Both parties have reported success and are at rest; the destination is a copy. */
  lemma DoneIsSuccess(y: Protocol, d: Deal)
    requires Live(y, d) && Work(y) == 0
    ensures Quiet(y) && y.server.notes == d.serverNotes + [true]
    ensures y.client.notes == d.clientNotes + [true]
    ensures LoadedFrom(y, d.stores) && Delivery.ExactCopy(y.client, y.server.snapshot)
    ensures y.client.original == d.dest
  {
    hide EncodeTx, EncodeBlock, Frame, Cut, Inv, ClientInv, Lacks, EndsIn, Negotiate, Feasible;
    InvIsValid(y);
    Together(y, d);
    ClientPlace(y);
    NothingPending(y);
    Delivery.AckedIsExactCopy(y);
  }

  lemma NothingPending(y: Protocol)
    requires Inv(y)
    ensures y.server.success ==> y.server.phase == ServerFsm.AtLoop
    ensures y.client.phase != ClientFsm.AtLoop ==> y.client.next != Idle
  {
    hide SessionInv, ServerProofs.PhaseInv, Cut;
  }

  lemma LiveIsValid(y: Protocol, d: Deal)
    requires Live(y, d)
    ensures y.Valid()
  {
    hide ServerProofs.Inv, ClientInv, SessionInv;
  }
}

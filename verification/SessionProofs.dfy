/** The invariant of a drained transfer, over every interleaving and every timeout. */
module SessionProofs {
  import opened Bytes
  import opened Options
  import opened Packets
  import opened Transport
  import opened Fsm
  import opened Segmentation
  import opened Protocol
  import ServerFsm
  import ClientFsm
  import ServerProofs

  // ---------- the client on its own ----------

  /** A transfer is under way: started and not yet cleaned up. */
  predicate Active(c: ClientFsm.Client) {
    c.next != Idle
  }

  ghost predicate ClientPhaseInv(c: ClientFsm.Client) {
    match c.phase
    case AtLoop => c.next in {Request, Response, Initiate} ==> c.offset == 0 && c.taken == 0 && !c.acked
    case SendingRequest => c.current == c.next == Request && c.offset == 0 && c.taken == 0
    case AwaitResponse => c.current == c.next == Response && c.offset == 0 && c.taken == 0
    case SendingInitiate =>
      c.current == c.next == Initiate && c.offset == 0 && c.taken == 0 && c.peer.id != 0
    case AwaitBlock(_) => c.current == c.next == Block
    case SendingAck => c.current == c.next == Block
    case SendingAckNot => c.current == c.next == Block
  }

  /** Kept in every run of the client, against any channel contents. */
  ghost predicate ClientInv(c: ClientFsm.Client) {
    && c.Valid()
    && c.busy == (c.current != Idle)
    && (c.current == Idle ==> c.phase == ClientFsm.AtLoop && c.next in {Idle, Request})
    && |c.dest| == |c.original|
    && (Active(c) ==>
         && c.attached && c.dest != []
         && c.offset + c.remaining == |c.dest|
         && c.dest[c.offset..] == c.original[c.offset..])
    && (c.success ==> c.acked && c.phase == ClientFsm.AtLoop && c.next == Terminate)
    && (c.acked && Active(c) ==> c.success)
    && (c.acked && !Active(c) ==> c.notes != [] && c.notes[|c.notes| - 1])
    && (c.next == Block ==> c.peer.id != 0)
    && ClientPhaseInv(c)
  }

  lemma ClientInitial(c: ClientFsm.Client)
    requires ClientFsm.Initial(c)
    ensures ClientInv(c)
  {}

  lemma StoreInv(c: ClientFsm.Client, p: BlockPacket)
    requires ClientInv(c) && c.phase.AwaitBlock? && p.Valid()
    ensures ClientInv(ClientFsm.Store(c, p))
  {
    hide GetContinue;
    var r := ClientFsm.Store(c, p);
    if ClientFsm.Fits(c, p) {
      assert r.dest[r.offset..] == c.dest[c.offset..][p.header.size..];
    }
  }

  lemma ClientStepInv(c: ClientFsm.Client, rx: Channel, tx: Channel, expired: bool)
    requires ClientInv(c)
    ensures ClientInv(ClientFsm.Step(c, rx, tx, expired).client)
  {
    hide CanSendTx, EncodeTx, Push, PollTx, PollBlock, ClientFsm.Store;
    if c.phase.AwaitBlock? {
      var got := PollBlock(rx, c.phase.packet, BlockMsg, c.cfg.maxLen);
      StoreInv(c, got.packet);
    }
  }

  lemma ClientStartInv(c: ClientFsm.Client, buffer: Option<seq<byte>>)
    requires ClientInv(c)
    ensures ClientInv(ClientFsm.Start(c, buffer))
  {}

  // ---------- the two parties together ----------

  /** The terms every session of these two parties settles on. */
  function Terms(y: Protocol): Config {
    Negotiate(y.client.cfg, y.server.cfg)
  }

  function RequestMessage(client: Config): Message {
    EncodeTx(HeaderFor(RequestMsg, client))
  }

  function ResponseMessage(terms: Config): Message {
    EncodeTx(HeaderFor(ResponseMsg, terms))
  }

  function InitiateMessage(terms: Config): Message {
    EncodeTx(HeaderFor(InitiateMsg, terms))
  }

  function AckMessage(terms: Config): Message {
    EncodeTx(ClientFsm.AckHeader(AckMsg, terms.id))
  }

  function AckNotMessage(terms: Config): Message {
    EncodeTx(ClientFsm.AckHeader(AckNotMsg, terms.id))
  }

  /** A message at the end of the channel, behind others that do not have its type. */
  ghost predicate EndsIn(q: Channel, m: Message, t: MsgType) {
    q != [] && q[|q| - 1] == m && Lacks(q[..|q| - 1], t)
  }

  /** Queued frames `from..to` of the snapshot, encoded. */
  ghost predicate Framed(q: Channel, data: seq<byte>, p: nat, from: nat, to: nat)
    requires p <= 255
  {
    && from + |q| == to
    && forall i :: 0 <= i < |q| ==> q[i] == EncodeBlock(Frame(data, p, from + i))
  }

  /** The server is no longer serving the transfer. */
  predicate Gone(s: ServerFsm.Server) {
    s.Ready() || s.phase == ServerFsm.Overflowed
    || (s.phase == ServerFsm.AtLoop && s.next == Terminate)
  }

  predicate Between(c: ClientFsm.Client, working: State) {
    c.phase == ClientFsm.AtLoop && c.next in {working, Terminate, Idle}
  }

  ghost predicate ClientAt(c: ClientFsm.Client, stage: ClientStage, terms: Config) {
    match stage
    case NotAsked =>
      (Between(c, Request) || c.phase == ClientFsm.SendingRequest) && c.taken == 0 && !c.acked
    case Asked =>
      (Between(c, Response) || c.phase == ClientFsm.AwaitResponse) && c.taken == 0 && !c.acked
    case Answered =>
      && (Between(c, Initiate) || c.phase == ClientFsm.SendingInitiate)
      && c.taken == 0 && !c.acked
      && (c.next == Initiate ==> c.peer == terms)
    case Initiated =>
      && (Between(c, Block) || c.phase.AwaitBlock? || c.phase == ClientFsm.SendingAck
          || c.phase == ClientFsm.SendingAckNot)
      && (c.next == Block ==> c.peer == terms && !c.acked)
  }

  ghost predicate ServerAt(s: ServerFsm.Server, stage: ServerStage, client: Config) {
    match stage
    case Unserved => s.Ready()
    case Serving =>
      || Gone(s)
      || (s.phase == ServerFsm.AtLoop && s.next == Response && s.peer == client)
      || (s.phase.SendingResponse? && s.peer == Negotiate(client, s.cfg))
    case Offered =>
      && s.sent == 0
      && (Gone(s)
          || (((s.phase == ServerFsm.AtLoop && s.next == Initiate) || s.phase == ServerFsm.AwaitInitiate)
              && s.peer == Negotiate(client, s.cfg)))
    case Streaming =>
      || Gone(s)
      || (((s.phase == ServerFsm.AtLoop && s.next == Block) || s.phase.SendingFrame?
           || s.phase == ServerFsm.AwaitAck)
          && s.peer == Negotiate(client, s.cfg))
  }

  /** No party is ahead of what the other has sent it. */
  predicate InStep(client: ClientStage, server: ServerStage) {
    && (server != Unserved ==> client != NotAsked)
    && (client in {Answered, Initiated} ==> server in {Offered, Streaming})
    && (server == Streaming ==> client == Initiated)
  }

  /** What is queued for a server that is in an agreed session. */
  predicate UpInSession(up: Channel, server: ServerStage, working: bool, acked: bool, terms: Config) {
    if server == Offered then
      || up == [InitiateMessage(terms)]
      || (!working && up == [InitiateMessage(terms), AckNotMessage(terms)])
    else if acked then up == [AckMessage(terms)]
    else up == [] || (!working && up == [AckNotMessage(terms)])
  }

  ghost predicate UpAt(up: Channel, client: ClientStage, server: ServerStage, gone: bool,
                       c: ClientFsm.Client, terms: Config) {
    if client == Asked && server == Unserved then EndsIn(up, RequestMessage(c.cfg), RequestMsg)
    else
      && Lacks(up, RequestMsg)
      && (client in {Asked, Answered} ==> up == [])
      && (client == Initiated && !gone ==> UpInSession(up, server, c.next == Block, c.acked, terms))
  }

  /** The client still accepts frames, or has just accepted the last one. */
  predicate Listening(c: ClientFsm.Client) {
    c.next in {Initiate, Block} && c.phase != ClientFsm.SendingAckNot
  }

  /** The only frame of the session was too long for the client's receive buffer. */
  ghost predicate Lost(down: Channel, snapshot: seq<byte>, p: nat, taken: nat, sent: nat) {
    down == [] && taken == 0 && sent == 1 && Cut(1, p, |snapshot|) == |snapshot|
  }

  ghost predicate DownAt(down: Channel, client: ClientStage, server: ServerStage, fits: bool,
                         c: ClientFsm.Client, snapshot: seq<byte>, p: nat, sent: nat, terms: Config)
    requires p <= 255
  {
    if client in {Answered, Initiated} then
      Listening(c) ==>
        || Framed(down, snapshot, p, c.taken, sent)
        || (!fits && Lost(down, snapshot, p, c.taken, sent))
    else if server == Offered then EndsIn(down, ResponseMessage(terms), ResponseMsg)
    else Lacks(down, ResponseMsg)
  }

  /** Everything the client has stored is the beginning of the snapshot; the rest of the
      destination is untouched. */
  ghost predicate StoredAt(c: ClientFsm.Client, snapshot: seq<byte>, p: nat) {
    var cut := Cut(c.taken, p, |snapshot|);
    && cut <= |c.original|
    && c.dest == snapshot[..cut] + c.original[cut..]
    && (Active(c) ==> c.offset == cut)
  }

  /** An acknowledgement is on its way or sent only when the whole snapshot is stored. */
  ghost predicate AckAt(c: ClientFsm.Client, client: ClientStage, server: ServerStage,
                        snapshot: seq<byte>, p: nat) {
    c.acked || c.phase == ClientFsm.SendingAck ==>
      && client == Initiated && server == Streaming
      && c.taken > 0 && Cut(c.taken - 1, p, |snapshot|) < |snapshot|
      && Cut(c.taken, p, |snapshot|) == |snapshot|
  }

  /** Frames of the server fit the client's receive buffer. */
  predicate Compatible(y: Protocol) {
    y.server.cfg.maxLen <= y.client.cfg.maxLen
  }

  /** Configurations under which no frame in front of another can get lost: frames fit, or a
      transfer is a single frame, or (with identifier 0) no transfer gets that far. */
  predicate Safe(y: Protocol) {
    Compatible(y) || Terms(y).blocks <= 1 || y.client.cfg.id == 0
  }

  ghost predicate SessionInv(y: Protocol)
    requires y.Valid()
  {
    var s, c, cs, ss, terms := y.server, y.client, y.clientStage, y.serverStage, Terms(y);
    && InStep(cs, ss)
    && ClientAt(c, cs, terms)
    && ServerAt(s, ss, c.cfg)
    && UpAt(y.up, cs, ss, Gone(s), c, terms)
    && DownAt(y.down, cs, ss, Compatible(y), c, s.snapshot, s.Room(), s.sent, terms)
    && (ss in {Offered, Streaming} ==> |s.snapshot| <= s.Room() * terms.blocks)
    && StoredAt(c, s.snapshot, s.Room())
    && AckAt(c, cs, ss, s.snapshot, s.Room())
    && (s.success ==> c.acked)
  }

  /** The session invariant is claimed for drained transfers; with unsafe configurations, only
      until frames can flow. */
  predicate Claimed(y: Protocol) {
    y.drained && (Safe(y) || y.clientStage != Initiated)
  }

  /** Once the initiate message is sent, the client does not go back. */
  predicate Forward(c: ClientFsm.Client, stage: ClientStage) {
    stage == Initiated ==>
      || c.phase.AwaitBlock? || c.phase in {ClientFsm.SendingAck, ClientFsm.SendingAckNot}
      || Between(c, Block)
  }

  ghost predicate Inv(y: Protocol) {
    && y.Valid()
    && ServerProofs.Inv(y.server) && ClientInv(y.client) && Forward(y.client, y.clientStage)
    && (Claimed(y) ==> SessionInv(y))
  }

  lemma InitialInv(y: Protocol)
    requires Initial(y)
    ensures Inv(y)
  {}

  /** A drained start puts both parties at the beginning of a session, whatever happened
      before it. */
  lemma BeginInv(y: Protocol, buffer: Option<seq<byte>>)
    requires Inv(y)
    ensures Inv(Begin(y, buffer))
  {
    ClientStartInv(y.client, buffer);
  }
}

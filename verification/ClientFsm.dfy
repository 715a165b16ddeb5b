/** The client's state machine on values, split into steps like the server's. */
module ClientFsm {
  import opened Bytes
  import opened Options
  import opened Packets
  import opened Transport
  import opened Fsm

  datatype Phase =
    | AtLoop
    | SendingRequest
    | AwaitResponse
    | SendingInitiate
    | AwaitBlock(packet: BlockPacket)  // the packet object lives for the whole activation
    | SendingAck
    | SendingAckNot

  datatype Client = Client(
    cfg: Config,          // `clientConfig`: own configuration, fixed
    current: State,
    next: State,
    phase: Phase,
    busy: bool,
    peer: Config,         // `serverConfig`: what the server answered
    attached: bool,       // `internalBuffer` is not null
    dest: seq<byte>,      // the memory handed to `startNewTransfer`
    offset: nat,          // how far `internalBuffer` has been advanced into it
    remaining: nat,       // `internalBufferLen`
    success: bool,
    notes: seq<bool>,     // calls of the notify callback
    original: seq<byte>,  // history: `dest` when the transfer was started
    taken: nat,           // history: frames stored in this transfer
    acked: bool           // history: a BLOCK_ACK was sent in this transfer
  ) {
    /** The packet size fits a header, the write window is inside the destination. */
    predicate Valid() {
      && TX_HEADER_SIZE <= cfg.maxLen
      && offset + remaining <= |dest|
      && (phase.AwaitBlock? ==> phase.packet.Valid())
    }
  }

  predicate Initial(c: Client) {
    && c.Valid()
    && c.current == Idle && c.next == Idle && c.phase == AtLoop && !c.busy
    && c.peer == NO_CONFIG && !c.attached && c.dest == [] && c.offset == 0 && c.remaining == 0
    && !c.success && c.notes == [] && c.original == [] && c.taken == 0 && !c.acked
  }

  function Go(c: Client, next: State): Client {
    c.(phase := AtLoop, next := next)
  }

  function Cleaned(c: Client): Client {
    c.(success := false, peer := NO_CONFIG, attached := false, offset := 0, remaining := 0)
  }

  function Activate(c0: Client): (r: Client)
    requires c0.Valid()
    ensures r.Valid() && r.cfg == c0.cfg
  {
    var c := c0.(current := c0.next, busy := c0.busy || c0.next != Idle);
    match c.current
    case Idle => c.(busy := false)
    case Request => c.(phase := SendingRequest)
    case Response => c.(phase := AwaitResponse)
    case Initiate => if c.peer.id != 0 then c.(phase := SendingInitiate) else Go(c, Terminate)
    case Block => c.(phase := AwaitBlock(FRESH_BLOCK))
    case Terminate =>
      Go(Cleaned(c.(notes := c.notes + [c.success])), Idle)
  }

  /** A frame can be stored: there is a destination, a payload, and room for it. */
  predicate Fits(c: Client, p: BlockPacket) {
    c.attached && p.buffer != [] && p.header.size <= c.remaining
  }

  /** The payload is copied to the pointer, and the pointer is advanced. */
  function Stored(c: Client, p: BlockPacket): (r: Client)
    requires c.Valid() && p.Valid() && p.header.size <= c.remaining
    ensures r.Valid() && r.cfg == c.cfg
  {
    var n := p.header.size;
    c.(dest := c.dest[..c.offset] + p.buffer[..n] + c.dest[c.offset + n..],
       offset := c.offset + n, remaining := c.remaining - n, taken := c.taken + 1)
  }

  /** BLOCK, after a frame was accepted. */
  function Store(c: Client, p: BlockPacket): (r: Client)
    requires c.Valid() && p.Valid()
    ensures r.Valid() && r.cfg == c.cfg
  {
    if !Fits(c, p) then c.(phase := SendingAckNot)
    else if GetContinue(p.header.meta) then Go(Stored(c, p), c.current)
    else Stored(c, p).(phase := SendingAck)
  }

  /** Acknowledgements carry nothing but a type and the transaction ID. */
  function AckHeader(t: MsgType, id: bv32): TxHeader {
    HeaderFor(t, NO_CONFIG.(id := id))
  }

  datatype Moved = Moved(client: Client, rx: Channel, tx: Channel)

  /** One attempt to send: on success go on as `sent`, on expiry give up, else retry. */
  function TrySend(c: Client, h: TxHeader, sent: Client, rx: Channel, tx: Channel,
                   expired: bool): (r: Moved)
    requires c.Valid() && sent.Valid() && sent.cfg == c.cfg
    ensures r.client.Valid() && r.client.cfg == c.cfg
  {
    if CanSendTx(tx, h, c.cfg.maxLen) then Moved(sent, rx, Push(tx, EncodeTx(h)))
    else Moved(if expired then Go(c, Terminate) else c, rx, tx)
  }

  function HearResponse(c: Client, rx: Channel, expired: bool): (r: Client)
    requires c.Valid()
    ensures r.Valid() && r.cfg == c.cfg
  {
    var got := PollTx(rx, ResponseMsg, c.cfg.maxLen);
    if got.Some? then Go(c.(peer := ConfigOf(got.value)), Initiate)
    else if expired then Go(c, Terminate) else c
  }

  function HearBlock(c: Client, rx: Channel, expired: bool): (r: Client)
    requires c.Valid() && c.phase.AwaitBlock?
    ensures r.Valid() && r.cfg == c.cfg
  {
    var got := PollBlock(rx, c.phase.packet, BlockMsg, c.cfg.maxLen);
    if got.accepted then Store(c, got.packet)
    else if expired then c.(phase := SendingAckNot)
    else c.(phase := AwaitBlock(got.packet))
  }

  function Step(c: Client, rx: Channel, tx: Channel, expired: bool): (r: Moved)
    requires c.Valid()
    ensures r.client.Valid() && r.client.cfg == c.cfg
  {
    match c.phase
    case AtLoop => Moved(Activate(c), rx, tx)
    case SendingRequest =>
      TrySend(c, HeaderFor(RequestMsg, c.cfg), Go(c, Response), rx, tx, expired)
    case AwaitResponse => Moved(HearResponse(c, rx, expired), Rest(rx), tx)
    case SendingInitiate =>
      TrySend(c, HeaderFor(InitiateMsg, c.peer), Go(c, Block), rx, tx, expired)
    case AwaitBlock(_) => Moved(HearBlock(c, rx, expired), Rest(rx), tx)
    case SendingAck =>
      TrySend(c, AckHeader(AckMsg, c.peer.id), Go(c.(success := true, acked := true), Terminate),
              rx, tx, expired)
    case SendingAckNot =>
      TrySend(c, AckHeader(AckNotMsg, c.peer.id), Go(c, Terminate), rx, tx, expired)
  }

  /** `startNewTransfer` is refused without a buffer, with size zero and while busy. */
  predicate Startable(c: Client, buffer: Option<seq<byte>>) {
    buffer.Some? && buffer.value != [] && !c.busy
  }

  function Start(c: Client, buffer: Option<seq<byte>>): (r: Client)
    requires c.Valid()
    ensures r.Valid() && r.cfg == c.cfg
  {
    if !Startable(c, buffer) then c
    else c.(attached := true, dest := buffer.value, offset := 0, remaining := |buffer.value|,
            next := Request, original := buffer.value, taken := 0, acked := false)
  }
}

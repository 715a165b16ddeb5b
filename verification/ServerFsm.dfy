/** The server's state machine on values. `FSMLoop` runs one activation of the current state;
    an activation's do-while loops are split so that each step is the activation's start, one
    attempt to send, or one poll. */
module ServerFsm {
  import opened Bytes
  import opened Options
  import opened Packets
  import opened Transport
  import opened Fsm

  /** Where an activation is suspended; AtLoop is between two activations. */
  datatype Phase =
    | AtLoop
    | AwaitRequest
    | SendingResponse(response: TxHeader)
    | AwaitInitiate
    | SendingFrame(frame: BlockPacket)
    | AwaitAck
    | Overflowed  // the storage read ran past the allocation: undefined from here on

  /** What the outside decides in a step: whether the timer has expired, and what the storage
      callback has to offer. */
  datatype Env = Env(expired: bool, store: seq<byte>)

  datatype Server = Server(
    cfg: Config,          // own configuration, fixed
    current: State,
    next: State,
    phase: Phase,
    busy: bool,
    peer: Config,         // `clientConfig`: as requested, then as negotiated
    counter: nat,         // `internal_counter`, 32 bits
    mem: seq<byte>,       // the allocation behind `internalBuffer`
    cursor: nat,          // how far `internalBuffer` has been advanced into it
    remaining: nat,       // `internalBufferLen`
    success: bool,
    notes: seq<bool>,     // calls of the notify callback
    snapshot: seq<byte>,  // history: what the latest storage read returned
    sent: nat             // history: frames sent since that read
  ) {
    /** Payload bytes per frame. */
    function Room(): int {
      cfg.maxLen - BLOCK_HEADER_SIZE
    }

    /** The packet size fits a header, the read window is inside the allocation. */
    predicate Valid() {
      && TX_HEADER_SIZE <= cfg.maxLen
      && cursor + remaining <= |mem|
      && (phase.SendingFrame? ==> phase.frame.Exact())
    }

    /** In BLOCK: about to cut a frame, sending one, or waiting to be acknowledged. */
    predicate InBlock() {
      phase.SendingFrame? || phase == AwaitAck || (phase == AtLoop && next == Block)
    }

    /** Waiting for a request, or about to. */
    predicate Ready() {
      phase == AwaitRequest || (phase == AtLoop && next in {Idle, Request})
    }
  }

  /** A constructed server; the allocation is uninitialised memory of P * blocks bytes. */
  predicate Initial(s: Server) {
    && s.Valid()
    && s.current == Idle && s.next == Idle && s.phase == AtLoop && !s.busy
    && s.peer == NO_CONFIG && s.counter == 1
    && |s.mem| == s.Room() * s.cfg.blocks && s.cursor == 0 && s.remaining == 0
    && !s.success && s.notes == [] && s.snapshot == [] && s.sent == 0
  }

  function Go(s: Server, next: State): Server {
    s.(phase := AtLoop, next := next)
  }

  function Cleaned(s: Server): Server {
    s.(success := false, peer := NO_CONFIG, remaining := 0)
  }

  /** RESPONSE, once the terms are settled: read from storage what a whole transfer can carry. */
  function Fill(s: Server, store: seq<byte>): (r: Server)
    requires s.Valid()
    ensures r.Valid() && r.cfg == s.cfg
  {
    var n := Min(|store|, s.Room() * s.peer.blocks);
    if s.cursor + n > |s.mem| then s.(phase := Overflowed)
    else
      var read := s.(remaining := n, snapshot := store[..n], sent := 0,
                     mem := s.mem[..s.cursor] + store[..n] + s.mem[s.cursor + n..]);
      if n == 0 then Go(read, Terminate)
      else read.(phase := SendingResponse(HeaderFor(ResponseMsg, s.peer)))
  }

  function Respond(s: Server, store: seq<byte>): (r: Server)
    requires s.Valid()
    ensures r.Valid() && r.cfg == s.cfg
  {
    Fill(s.(peer := Negotiate(s.peer, s.cfg)), store)
  }

  /** BLOCK: cut the next frame off the buffer. */
  function BuildFrame(s: Server): (r: Server)
    requires s.Valid()
    ensures r.Valid() && r.cfg == s.cfg
  {
    var number: u8 := s.counter % 256;
    var n := Min(s.Room(), s.remaining);
    var left := s.remaining - n;
    var more := !(number >= s.peer.blocks || left == 0);
    var meta := SetContinue(SetFrameNumber(0, number), more);
    var frame := BlockPacket(BlockHeader(BlockMsg, meta, 0, n), s.mem[s.cursor..s.cursor + n]);
    s.(counter := (s.counter + 1) % 0x1_0000_0000, remaining := left, cursor := s.cursor + n,
       phase := SendingFrame(frame))
  }

  /** Start of an activation: the state change is taken over, then the state's own work up to
      its first send or poll. */
  function Activate(s0: Server, store: seq<byte>): (r: Server)
    requires s0.Valid()
    ensures r.Valid() && r.cfg == s0.cfg
  {
    var s := s0.(current := s0.next, busy := s0.busy || s0.next != Idle);
    match s.current
    case Idle => Cleaned(s).(busy := false)
    case Request => s.(phase := AwaitRequest)
    case Response => Respond(s, store)
    case Initiate => s.(phase := AwaitInitiate)
    case Block => BuildFrame(s)
    case Terminate => Go(Cleaned(s.(notes := s.notes + [s.success])), Request)
  }

  /** The server, its incoming channel and its outgoing channel after a step. */
  datatype Moved = Moved(server: Server, rx: Channel, tx: Channel)

  /** One attempt to send the response: on success go on, on expiry give up, else retry. */
  function TryResponse(s: Server, h: TxHeader, rx: Channel, tx: Channel, expired: bool): (r: Moved)
    requires s.Valid()
    ensures r.server.Valid() && r.server.cfg == s.cfg
  {
    if CanSendTx(tx, h, s.cfg.maxLen) then Moved(Go(s, Initiate), rx, Push(tx, EncodeTx(h)))
    else Moved(if expired then Go(s, Terminate) else s, rx, tx)
  }

  /** One attempt to send a frame; after the last frame the acknowledgement is awaited. */
  function TryFrame(s: Server, f: BlockPacket, rx: Channel, tx: Channel, expired: bool): (r: Moved)
    requires s.Valid() && f.Exact()
    ensures r.server.Valid() && r.server.cfg == s.cfg
  {
    if CanSendBlock(tx, f, s.cfg.maxLen) then
      var done := s.(sent := s.sent + 1);
      Moved(if GetContinue(f.header.meta) then Go(done, s.current) else done.(phase := AwaitAck),
            rx, Push(tx, EncodeBlock(f)))
    else Moved(if expired then Go(s, Terminate) else s, rx, tx)
  }

  /** REQUEST has no timeout: the server waits for ever. */
  function HearRequest(s: Server, rx: Channel): (r: Server)
    requires s.Valid()
    ensures r.Valid() && r.cfg == s.cfg
  {
    var got := PollTx(rx, RequestMsg, s.cfg.maxLen);
    if got.Some? then Go(s.(peer := ConfigOf(got.value)), Response) else s
  }

  function HearInitiate(s: Server, rx: Channel, expired: bool): (r: Server)
    requires s.Valid()
    ensures r.Valid() && r.cfg == s.cfg
  {
    var got := PollTx(rx, InitiateMsg, s.cfg.maxLen);
    if got.Some? then
      if got.value.id == s.peer.id then Go(s.(counter := 1), Block) else Go(s, Terminate)
    else if expired then Go(s, Terminate) else s
  }

  /** The erase call passes the length that is left, and the result is compared with it. */
  function HearAck(s: Server, rx: Channel, e: Env): (r: Server)
    requires s.Valid()
    ensures r.Valid() && r.cfg == s.cfg
  {
    var got := PollTx(rx, AckMsg, s.cfg.maxLen);
    if got.Some? then
      var erased := Min(|e.store|, s.remaining);
      Go(s.(success := s.success || (got.value.id == s.peer.id && erased == s.remaining)),
         Terminate)
    else if e.expired then Go(s, Terminate) else s
  }

  function Step(s: Server, rx: Channel, tx: Channel, e: Env): (r: Moved)
    requires s.Valid()
    ensures r.server.Valid() && r.server.cfg == s.cfg
  {
    match s.phase
    case AtLoop => Moved(Activate(s, e.store), rx, tx)
    case AwaitRequest => Moved(HearRequest(s, rx), Rest(rx), tx)
    case SendingResponse(h) => TryResponse(s, h, rx, tx, e.expired)
    case AwaitInitiate => Moved(HearInitiate(s, rx, e.expired), Rest(rx), tx)
    case SendingFrame(f) => TryFrame(s, f, rx, tx, e.expired)
    case AwaitAck => Moved(HearAck(s, rx, e), Rest(rx), tx)
    case Overflowed => Moved(s, rx, tx)
  }

  /** `startServer`: refused while busy. */
  function Start(s: Server): (r: Server)
    requires s.Valid()
    ensures r.Valid() && r.cfg == s.cfg
  {
    if s.busy then s else s.(next := Request)
  }
}

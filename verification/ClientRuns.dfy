/** Whole runs of the client against an arbitrary environment: any channel contents at every
    step, any timeouts, `startNewTransfer` called at any moment. */
module ClientRuns {
  import opened Bytes
  import opened Options
  import opened Packets
  import opened Transport
  import opened Fsm
  import opened ClientFsm
  import opened SessionProofs

  datatype Input = Move(rx: Channel, tx: Channel, expired: bool) | StartCall(buffer: Option<seq<byte>>)

  /** A client and what an observer of its calls and messages has counted. */
  datatype Trace = Trace(
    client: Client,
    entries: nat,         // REQUEST activations so far
    ackSent: bool,        // a message of type BLOCK_ACK was sent since the latest of them
    outcomes: seq<bool>,  // that observation, for every transfer that was terminated
    calls: nat,           // FSMLoop calls of the latest transfer
    rejected: bool,       // the running activation has received a payload with a bad CRC
    stalls: nat           // activations that stayed in BLOCK without storing a byte
  )

  function Observed(c: Client): Trace {
    Trace(c, 0, false, [], 0, false, 0)
  }

  /** A block message with a payload that the CRC check rejects. */
  predicate Corrupt(m: Message, maxLen: nat) {
    && Matches(m, BlockMsg, maxLen) && ReadBlockHeader(m).crc != GenerateCrc(m)
    && ReadBlockHeader(m).size > 0
  }

  /** A block message without a payload that passes the CRC check and says "continue". */
  predicate EmptyMore(m: Message, maxLen: nat) {
    && Matches(m, BlockMsg, maxLen) && ReadBlockHeader(m).crc == GenerateCrc(m)
    && ReadBlockHeader(m).size == 0 && GetContinue(ReadBlockHeader(m).meta)
  }

  /** The message a step put on the channel is an acknowledgement. */
  predicate PushedAck(before: Channel, after: Channel) {
    |after| == |before| + 1 && At(after[|before|], 0) == TypeCode(AckMsg)
  }

  function TraceStep(t: Trace, i: Input): (r: Trace)
    requires t.client.Valid()
    ensures r.client.Valid()
  {
    match i
    case StartCall(buffer) => t.(client := Start(t.client, buffer))
    case Move(rx, tx, expired) =>
      var c, m := t.client, Step(t.client, rx, tx, expired);
      if c.phase != AtLoop then
        t.(client := m.client,
           ackSent := t.ackSent || PushedAck(tx, m.tx),
           rejected := t.rejected
             || (c.phase.AwaitBlock? && rx != [] && Corrupt(rx[0], c.cfg.maxLen)),
           stalls := t.stalls + if Stays(c, m.client) then 1 else 0)
      else if c.next == Idle then t.(client := m.client, rejected := false)
      else if c.next == Request then
        t.(client := m.client, entries := t.entries + 1, ackSent := false, calls := 1,
           rejected := false, stalls := 0)
      else
        t.(client := m.client, calls := t.calls + 1, rejected := false,
           outcomes := if c.next == Terminate then t.outcomes + [t.ackSent] else t.outcomes)
  }

  /** A step that ends an activation of BLOCK, with BLOCK to follow and nothing stored. */
  predicate Stays(c: Client, r: Client) {
    c.phase.AwaitBlock? && r.phase == AtLoop && r.next == Block && r.offset == c.offset
  }

  function TraceRun(t: Trace, inputs: seq<Input>): (r: Trace)
    requires t.client.Valid()
    ensures r.client.Valid()
    decreases |inputs|
  {
    if inputs == [] then t else TraceRun(TraceStep(t, inputs[0]), inputs[1..])
  }

  ghost predicate Reached(c: Client, inputs: seq<Input>, t: Trace) {
    Initial(c) && t == TraceRun(Observed(c), inputs)
  }

  /** REQUEST has been entered and TERMINATE has not. */
  predicate InTransfer(c: Client) {
    c.current in {Request, Response, Initiate, Block}
  }

  /** FSMLoop calls used so far, by the state reached: each activation in BLOCK that stays there
      has used up a byte of the destination, or is counted as a stall. */
  predicate CallsAt(t: Trace) {
    var c := t.client;
    match c.phase
    case SendingRequest => t.calls == 1 && t.stalls == 0
    case AwaitResponse => t.calls == 2 && t.stalls == 0
    case SendingInitiate => t.calls == 3 && t.stalls == 0
    case AwaitBlock(_) => t.calls <= 4 + c.offset + t.stalls
    case SendingAck => t.calls <= 4 + c.offset + t.stalls
    case SendingAckNot => t.calls <= 4 + c.offset + t.stalls
    case AtLoop =>
      && (c.next == Response ==> t.calls == 1 && t.stalls == 0)
      && (c.next == Initiate ==> t.calls == 2 && t.stalls == 0)
      && (c.next == Block ==> t.calls <= 3 + c.offset + t.stalls)
      && (c.next == Terminate ==> t.calls <= 4 + c.offset + t.stalls)
      && (c.current == Terminate ==> t.calls <= 5 + |c.original| + t.stalls)
  }

  predicate Counted(t: Trace) {
    var c := t.client;
    && t.outcomes == c.notes
    && t.entries == |c.notes| + (if InTransfer(c) then 1 else 0)
    && (InTransfer(c) ==> t.ackSent == c.acked)
    && (c.next == Idle ==> c.current in {Idle, Terminate})
    && (c.next == Request ==> c.current == Idle || c.phase == SendingRequest)
    && (c.next in {Response, Initiate, Block, Terminate} ==> InTransfer(c))
  }

  /** The packet object holds a buffer exactly when this activation has rejected a payload. */
  predicate Residue(t: Trace) {
    t.client.phase.AwaitBlock? ==> (t.client.phase.packet.buffer != [] <==> t.rejected)
  }

  ghost predicate TraceInv(t: Trace) {
    ClientInv(t.client) && Counted(t) && CallsAt(t) && Residue(t)
  }

  // ---------- what single steps do ----------

  lemma WhatIsSent(h: TxHeader, tx: Channel)
    requires Accepts(tx, EncodeTx(h))
    ensures PushedAck(tx, Push(tx, EncodeTx(h))) <==> h.msgType == AckMsg
  {
    TypeCodesDiffer(h.msgType, AckMsg);
    TypeCodesDiffer(Unassigned, AckMsg);
  }

  lemma SendingStep(t: Trace, rx: Channel, tx: Channel, expired: bool)
    requires TraceInv(t)
    requires t.client.phase in {SendingRequest, SendingInitiate, SendingAck, SendingAckNot}
    ensures TraceInv(TraceStep(t, Move(rx, tx, expired)))
  {
    hide EncodeTx, PushedAck;
    var c := t.client;
    ClientStepInv(c, rx, tx, expired);
    var h := if c.phase == SendingRequest then HeaderFor(RequestMsg, c.cfg)
             else if c.phase == SendingInitiate then HeaderFor(InitiateMsg, c.peer)
             else AckHeader(if c.phase == SendingAck then AckMsg else AckNotMsg, c.peer.id);
    if Accepts(tx, EncodeTx(h)) {
      WhatIsSent(h, tx);
    }
    NothingSent(tx);
  }

  lemma NothingSent(tx: Channel)
    ensures !PushedAck(tx, tx)
  {}

  lemma StoreCounts(c: Client, p: BlockPacket)
    requires ClientInv(c) && c.phase.AwaitBlock? && p.Valid()
    ensures var r := Store(c, p);
      && r.current == Block && r.next == Block && r.notes == c.notes && r.acked == c.acked
      && r.original == c.original
      && (if !Fits(c, p) then r.phase == SendingAckNot && r.offset == c.offset
          else r.phase == (if GetContinue(p.header.meta) then AtLoop else SendingAck)
               && r.offset == c.offset + p.header.size)
  {
    hide GetContinue;
  }

  /** What a poll does to the packet object, in terms of the message it takes. */
  lemma PollOutcome(q: Channel, p: BlockPacket, maxLen: nat)
    requires p.Valid()
    ensures var r := PollBlock(q, p, BlockMsg, maxLen);
      && (!r.accepted ==>
            (r.packet.buffer != [] <==> p.buffer != [] || (q != [] && Corrupt(q[0], maxLen))))
      && (r.accepted && r.packet.header.size == 0 ==> r.packet.buffer == p.buffer)
      && (r.accepted && r.packet.header.size == 0 && GetContinue(r.packet.header.meta)
          <==> q != [] && EmptyMore(q[0], maxLen))
  {
    hide Gather16, FromByte, GetContinue;
  }

  /** One poll in BLOCK: when it makes the activation stay without storing a byte, and what it
      leaves in the packet object. */
  lemma HearBlockOutcome(c: Client, rx: Channel, expired: bool)
    requires ClientInv(c) && c.phase.AwaitBlock?
    ensures var r := HearBlock(c, rx, expired);
      && (Stays(c, r) <==> rx != [] && EmptyMore(rx[0], c.cfg.maxLen) && c.phase.packet.buffer != [])
      && (r.phase.AwaitBlock? ==>
            (r.phase.packet.buffer != []
             <==> c.phase.packet.buffer != [] || (rx != [] && Corrupt(rx[0], c.cfg.maxLen))))
      && r.current == Block && r.next == Block && r.notes == c.notes && r.acked == c.acked
      && r.original == c.original && c.offset <= r.offset
      && (r.phase == AtLoop ==> Stays(c, r) || r.offset > c.offset)
      && r.phase !in {SendingRequest, AwaitResponse, SendingInitiate}
  {
    hide PollBlock, Store, GetContinue, Corrupt, EmptyMore;
    var got := PollBlock(rx, c.phase.packet, BlockMsg, c.cfg.maxLen);
    PollOutcome(rx, c.phase.packet, c.cfg.maxLen);
    StoreCounts(c, got.packet);
  }

  lemma HearingStep(t: Trace, rx: Channel, tx: Channel, expired: bool)
    requires TraceInv(t) && t.client.phase.AwaitBlock?
    ensures TraceInv(TraceStep(t, Move(rx, tx, expired)))
  {
    hide EncodeTx, PushedAck, HearBlock, Corrupt, EmptyMore;
    ClientStepInv(t.client, rx, tx, expired);
    NothingSent(tx);
    HearBlockOutcome(t.client, rx, expired);
  }

  lemma HearingResponseStep(t: Trace, rx: Channel, tx: Channel, expired: bool)
    requires TraceInv(t) && t.client.phase == AwaitResponse
    ensures TraceInv(TraceStep(t, Move(rx, tx, expired)))
  {
    hide EncodeTx, PushedAck, PollTx, Corrupt;
    ClientStepInv(t.client, rx, tx, expired);
    NothingSent(tx);
  }

  lemma ActivateCounts(c: Client)
    requires ClientInv(c) && c.phase == AtLoop
    ensures var r := Activate(c);
      && r.current == c.next && r.original == c.original
      && r.phase == (match c.next
                     case Request => SendingRequest
                     case Response => AwaitResponse
                     case Initiate => if c.peer.id != 0 then SendingInitiate else AtLoop
                     case Block => AwaitBlock(FRESH_BLOCK)
                     case _ => AtLoop)
      && r.next == (if c.next == Terminate then Idle
                    else if c.next == Initiate && c.peer.id == 0 then Terminate else c.next)
      && r.notes == (if c.next == Terminate then c.notes + [c.success] else c.notes)
      && (c.next != Terminate ==> r.offset == c.offset && r.acked == c.acked)
  {
    hide ClientPhaseInv;
  }

  lemma ActivatingStep(t: Trace, rx: Channel, tx: Channel, expired: bool)
    requires TraceInv(t) && t.client.phase == AtLoop
    ensures TraceInv(TraceStep(t, Move(rx, tx, expired)))
  {
    hide Activate;
    var c := t.client;
    ClientStepInv(c, rx, tx, expired);
    ActivateCounts(c);
  }

  lemma TraceStepInv(t: Trace, i: Input)
    requires TraceInv(t)
    ensures TraceInv(TraceStep(t, i))
  {
    hide TraceStep, TraceInv;
    match i
    case StartCall(buffer) => StartingStep(t, buffer);
    case Move(rx, tx, expired) =>
      match t.client.phase
      case AtLoop => ActivatingStep(t, rx, tx, expired);
      case AwaitBlock(_) => HearingStep(t, rx, tx, expired);
      case AwaitResponse => HearingResponseStep(t, rx, tx, expired);
      case _ => SendingStep(t, rx, tx, expired);
  }

  lemma StartingStep(t: Trace, buffer: Option<seq<byte>>)
    requires TraceInv(t)
    ensures TraceInv(TraceStep(t, StartCall(buffer)))
  {
    ClientStartInv(t.client, buffer);
  }

  lemma {:induction false} TraceRunInv(t: Trace, inputs: seq<Input>)
    requires TraceInv(t)
    ensures TraceInv(TraceRun(t, inputs))
    decreases |inputs|
  {
    hide TraceStep, Counted, CallsAt, Residue, ClientPhaseInv;
    if inputs != [] {
      TraceStepInv(t, inputs[0]);
      TraceRunInv(TraceStep(t, inputs[0]), inputs[1..]);
    }
  }

  lemma ReachedInv(c: Client, inputs: seq<Input>, t: Trace)
    requires Reached(c, inputs, t)
    ensures TraceInv(t)
  {
    ClientInitial(c);
    TraceRunInv(Observed(c), inputs);
  }

  // ---------- main results ----------

  /** Exactly one notification per transfer: as many as REQUEST was entered, less the transfer
      in progress; each carries true exactly when a BLOCK_ACK left the client in that transfer.
      Outside IDLE no start is accepted, so none replaces the buffer. */
  lemma OneNotificationPerTransfer(c: Client, inputs: seq<Input>, t: Trace)
    requires Reached(c, inputs, t)
    ensures t.entries == |t.client.notes| + (if InTransfer(t.client) then 1 else 0)
    ensures t.client.notes == t.outcomes
    ensures t.client.current != Idle ==> forall b :: Start(t.client, b) == t.client
  {
    hide TraceRun, CallsAt, Residue, ClientPhaseInv;
    ReachedInv(c, inputs, t);
  }

  /** Conservation and termination. Until cleanup, stored and free bytes add up to the size
      the transfer was started with; and a transfer of size n is over within n + 5 FSMLoop
      calls, plus one for every activation that stayed in BLOCK without storing a byte. */
  lemma TransferTerminates(c: Client, inputs: seq<Input>, t: Trace)
    requires Reached(c, inputs, t)
    ensures var r := t.client;
      && (Active(r) ==> r.attached && r.offset + r.remaining == |r.original|)
      && (InTransfer(r) || r.current == Terminate ==> t.calls <= |r.original| + 5 + t.stalls)
      && (r.current == Block && r.next == Block ==> t.calls <= |r.original| + 4 + t.stalls)
  {
    hide TraceRun, ClientPhaseInv, Residue;
    ReachedInv(c, inputs, t);
  }

  /** When does an activation stay in BLOCK without storing a byte? In every run, exactly when it
      polls an empty frame that says "continue" and has received a payload with a bad CRC before. */
  lemma StallsExactly(c: Client, inputs: seq<Input>, t: Trace, rx: Channel, tx: Channel, expired: bool)
    requires Reached(c, inputs, t) && t.client.phase.AwaitBlock?
    ensures var u := TraceStep(t, Move(rx, tx, expired));
      u.stalls > t.stalls <==> t.rejected && rx != [] && EmptyMore(rx[0], c.cfg.maxLen)
  {
    hide TraceRun, HearBlock, Corrupt, EmptyMore, PushedAck, ClientPhaseInv, CallsAt, Counted;
    ReachedInv(c, inputs, t);
    CfgStays(Observed(c), inputs);
    HearBlockOutcome(t.client, rx, expired);
  }

  lemma {:induction false} CfgStays(t: Trace, inputs: seq<Input>)
    requires t.client.Valid()
    ensures TraceRun(t, inputs).client.cfg == t.client.cfg
    decreases |inputs|
  {
    hide Step;
    if inputs != [] {
      CfgStays(TraceStep(t, inputs[0]), inputs[1..]);
    }
  }
}

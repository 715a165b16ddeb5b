/** The client as an object that updates its fields and writes to the memory it was given. Each
    method is proved to do what the value-level machine of `ClientFsm` does. */
module ClientObject {
  import opened Bytes
  import opened Options
  import opened Packets
  import opened Transport
  import opened Fsm
  import opened Objects
  import opened PacketObjects
  import Machine = ClientFsm

  /** Where the running activation is suspended. */
  datatype Point =
    | AtLoop | SendingRequest | AwaitResponse | SendingInitiate | AwaitBlock | SendingAck | SendingAckNot

  /** `internalBuffer`: null, or somewhere in a piece of memory. */
  datatype Pointer = Null | To(memory: array<byte>, offset: nat)

  datatype History = History(dest: array<byte>, original: seq<byte>, taken: nat, acked: bool)

  ghost function Attached(c: Machine.Client, region: seq<byte>): Machine.Client {
    c.(attached := true, dest := region, offset := 0, remaining := |region|, next := Request,
       original := region, taken := 0, acked := false)
  }

  lemma StartCases(c: Machine.Client, region: Option<seq<byte>>)
    requires c.Valid()
    ensures Machine.Start(c, region)
         == if Machine.Startable(c, region) then Attached(c, region.value) else c
  {}

  lemma StoredKeepsPhase(c: Machine.Client, phase: Machine.Phase, p: BlockPacket)
    requires c.Valid() && p.Valid() && (phase.AwaitBlock? ==> phase.packet.Valid())
    requires p.header.size <= c.remaining
    ensures Machine.Stored(c.(phase := phase), p) == Machine.Stored(c, p).(phase := phase)
  {}

  /** Storing replaces the phase. */
  lemma StoreForgetsPhase(c: Machine.Client, phase: Machine.Phase, p: BlockPacket)
    requires c.Valid() && p.Valid() && (phase.AwaitBlock? ==> phase.packet.Valid())
    ensures Machine.Store(c.(phase := phase), p) == Machine.Store(c, p)
  {
    hide GetContinue, Machine.Stored;
    if Machine.Fits(c, p) {
      StoredKeepsPhase(c, phase, p);
    }
  }

  /** The first `n` bytes of the source replace those of the target at the offset. */
  method Splice(target: array<byte>, at: nat, source: array<byte>, n: nat)
    requires target != source && at + n <= target.Length && n <= source.Length
    modifies target
    ensures var was := old(target[..]);
      target[..] == was[..at] + source[..][..n] + was[at + n..]
  {
    ghost var was := target[..];
    Copy(target, at, source, 0, n);
    assert target[..] == target[..at] + target[at..at + n] + target[at + n..];
    assert target[..at] == was[..at] && target[at + n..] == was[at + n..];
    assert source[0..n] == source[..][..n];
  }

  ghost function PhaseOf(point: Point, packet: BlockPacketObject): Machine.Phase
    reads packet, packet.buffer
  {
    match point
    case AtLoop => Machine.AtLoop
    case SendingRequest => Machine.SendingRequest
    case AwaitResponse => Machine.AwaitResponse
    case SendingInitiate => Machine.SendingInitiate
    case AwaitBlock => Machine.AwaitBlock(packet.View())
    case SendingAck => Machine.SendingAck
    case SendingAckNot => Machine.SendingAckNot
  }

  class DDClient {
    const port: DataDump
    const clientConfig: Config
    var currentState: State
    var nextState: State
    var point: Point
    var isBusy: bool
    var serverConfig: Config
    var internalBuffer: Pointer
    var internalBufferLen: nat
    var isTransferSuccess: bool
    var notes: seq<bool>
    var packet: BlockPacketObject  // the packet object of a suspended BLOCK activation
    ghost var history: History     // of the latest transfer

    ghost function Offset(): nat
      reads this
    {
      if internalBuffer.To? then internalBuffer.offset else 0
    }

    /** The fields as a state of the value-level machine. */
    ghost function View(): (v: Machine.Client)
      reads this, history.dest, packet, packet.buffer
      requires Valid()
      ensures v.Valid()
    {
      Machine.Client(clientConfig, currentState, nextState, PhaseOf(point, packet), isBusy, serverConfig,
                     internalBuffer.To?, history.dest[..], Offset(), internalBufferLen,
                     isTransferSuccess, notes, history.original, history.taken, history.acked)
    }

    /** What belongs to the client alone; the destination is lent to it. */
    ghost function Private(): set<object>
      reads this, packet
    {
      var own: set<object> := {this, packet};
      if packet.buffer == null then own else var b: array<byte> := packet.buffer; own + {b}
    }

    ghost predicate Valid()
      reads this, history.dest, packet, packet.buffer
    {
      && TX_HEADER_SIZE <= clientConfig.maxLen
      && Offset() + internalBufferLen <= history.dest.Length
      && packet.View().Valid()
      && port.maxPacketSize == clientConfig.maxLen
      && port.tx != port.rx
      && (internalBuffer.To? ==> internalBuffer.memory == history.dest)
      && packet.buffer != history.dest
      && (packet.buffer != null ==> packet.buffer.Length > 0)
    }

    constructor (port: DataDump, config: Config)
      requires TX_HEADER_SIZE <= config.maxLen == port.maxPacketSize && port.tx != port.rx
      ensures Valid() && Machine.Initial(View()) && fresh(Private()) && fresh(history.dest)
      ensures this.port == port && clientConfig == config
    {
      this.port, clientConfig := port, config;
      currentState, nextState, point, isBusy := Idle, Idle, AtLoop, false;
      serverConfig, internalBuffer, internalBufferLen := NO_CONFIG, Null, 0;
      isTransferSuccess, notes := false, [];
      var nothing := new byte[0];
      history := History(nothing, [], 0, false);
      packet := new BlockPacketObject();
    }

    /** `startNewTransfer`: refused without a buffer, with size zero and while busy. The array
        stands for the `size` bytes of memory at `buffer`. */
    method StartNewTransfer(buffer: array?<byte>) returns (ok: bool)
      requires Valid() && (buffer == null || buffer !in Private())
      modifies this
      ensures Valid() && packet == old(packet)
      ensures history.dest == if ok then buffer else old(history.dest)
      ensures var region := if buffer == null then None else Some(buffer[..]);
        ok == Machine.Startable(old(View()), region) && View() == Machine.Start(old(View()), region)
    {
      hide BlockPacketObject.View, Machine.Client.Valid, PhaseOf, Machine.Start;
      StartCases(View(), if buffer == null then None else Some(buffer[..]));
      ok := buffer != null && buffer.Length > 0;
      if ok && isBusy {
        ok := false;
      }
      if ok {
        Attach(buffer);
      }
    }

    method Attach(buffer: array<byte>)
      requires Valid() && buffer !in Private()
      modifies this`internalBuffer, this`internalBufferLen, this`nextState, this`history
      ensures Valid() && history.dest == buffer
      ensures View() == Attached(old(View()), buffer[..])
    {
      hide BlockPacketObject.View, Machine.Client.Valid, PhaseOf;
      internalBuffer, internalBufferLen, nextState := To(buffer, 0), buffer.Length, Request;
      history := History(buffer, buffer[..], 0, false);
    }

    // ---------- start of an activation ----------

    /** The state change is taken over. */
    method DetectStateChange()
      requires Valid() && point == AtLoop
      modifies this`currentState, this`isBusy
      ensures Valid() && currentState == nextState
      ensures View() == old(View()).(current := nextState, busy := old(isBusy) || nextState != Idle)
    {
      hide Machine.Client.Valid, BlockPacketObject.View, PhaseOf;
      if nextState != currentState {
        currentState := nextState;
      }
      if currentState != Idle {
        isBusy := true;
      }
    }

    method Cleanup()
      requires Valid() && point == AtLoop
      modifies this`isTransferSuccess, this`serverConfig, this`internalBuffer, this`internalBufferLen
      ensures Valid() && View() == Machine.Cleaned(old(View()))
    {
      hide Machine.Client.Valid, BlockPacketObject.View, PhaseOf;
      isTransferSuccess, serverConfig, internalBuffer, internalBufferLen := false, NO_CONFIG, Null, 0;
    }

    method Report()
      requires Valid() && point == AtLoop
      modifies this`notes, this`isTransferSuccess, this`serverConfig, this`internalBuffer,
               this`internalBufferLen, this`nextState
      ensures Valid()
      ensures View() == Machine.Go(Machine.Cleaned(
                          old(View()).(notes := old(notes) + [old(isTransferSuccess)])), Idle)
    {
      hide Machine.Client.Valid, BlockPacketObject.View, Machine.Cleaned;
      notes := notes + [isTransferSuccess];
      Cleanup();
      nextState := Idle;
    }

    /** The activation ends. */
    method Go(next: State)
      requires Valid()
      modifies this`point, this`nextState
      ensures Valid() && View() == Machine.Go(old(View()), next)
    {
      hide Machine.Client.Valid, BlockPacketObject.View;
      point, nextState := AtLoop, next;
    }

    method Listen()
      requires Valid() && point == AtLoop
      modifies this`packet, this`point
      ensures Valid() && fresh(packet) && packet.buffer == null
      ensures View() == old(View()).(phase := Machine.AwaitBlock(FRESH_BLOCK))
    {
      hide Machine.Client.Valid;
      packet := new BlockPacketObject();
      point := AwaitBlock;
    }

    method BeIdle()
      requires Valid() && point == AtLoop
      modifies this`isBusy
      ensures Valid() && View() == old(View()).(busy := false)
    {
      hide Machine.Client.Valid, BlockPacketObject.View, PhaseOf;
      isBusy := false;
    }

    /** INITIATE_BLOCK: agrees to the terms unless the transaction ID is zero. */
    method Judge()
      requires Valid() && point == AtLoop
      modifies this`point, this`nextState
      ensures Valid()
      ensures View() == if serverConfig.id != 0 then old(View()).(phase := Machine.SendingInitiate)
                        else Machine.Go(old(View()), Terminate)
    {
      hide Machine.Client.Valid, BlockPacketObject.View, Machine.Go;
      if serverConfig.id != 0 {
        point := SendingInitiate;
      } else {
        Go(Terminate);
      }
    }

    method Ask()
      requires Valid() && point == AtLoop
      modifies this`point
      ensures Valid() && View() == old(View()).(phase := Machine.SendingRequest)
    {
      hide Machine.Client.Valid, BlockPacketObject.View;
      point := SendingRequest;
    }

    method Await()
      requires Valid() && point == AtLoop
      modifies this`point
      ensures Valid() && View() == old(View()).(phase := Machine.AwaitResponse)
    {
      hide Machine.Client.Valid, BlockPacketObject.View;
      point := AwaitResponse;
    }

    method Activate()
      requires Valid() && point == AtLoop
      modifies this
      ensures Valid() && View() == Machine.Activate(old(View())) && history == old(history)
      ensures fresh(Private() - old(Private()))
    {
      hide BlockPacketObject.View, Machine.Client.Valid, Machine.Go, Machine.Cleaned, PhaseOf;
      DetectStateChange();
      match currentState {
        case Idle => BeIdle();
        case Request => Ask();
        case Response => Await();
        case Initiate => Judge();
        case Block => Listen();
        case Terminate => Report();
      }
    }

    // ---------- one attempt of an activation's loop ----------

    /** A packet object with a type and a configuration. */
    method PacketFor(t: MsgType, c: Config) returns (p: TransactionPacket)
      ensures fresh(p) && p.View() == HeaderFor(t, c) && p.size == 0
    {
      p := new TransactionPacket();
      p.SetMsgType(t);
      p.SetTerms(c.id, c.blocks, c.maxLen, c.timeout);
    }

    method TryRequest(expired: bool)
      requires Valid() && point == SendingRequest
      modifies this`point, this`nextState, port.tx
      ensures Valid()
      ensures Machine.Moved(View(), port.rx.queue, port.tx.queue)
           == Machine.Step(old(View()), old(port.rx.queue), old(port.tx.queue), expired)
    {
      hide EncodeTx, CanSendTx, Push, HeaderFor, BlockPacketObject.View, Machine.Client.Valid;
      var request := PacketFor(RequestMsg, clientConfig);
      var ok := port.SendTx(request, TX_HEADER_SIZE);
      if ok {
        Go(Response);
      } else if expired {
        Go(Terminate);
      }
    }

    method TryInitiate(expired: bool)
      requires Valid() && point == SendingInitiate
      modifies this`point, this`nextState, port.tx
      ensures Valid()
      ensures Machine.Moved(View(), port.rx.queue, port.tx.queue)
           == Machine.Step(old(View()), old(port.rx.queue), old(port.tx.queue), expired)
    {
      hide EncodeTx, CanSendTx, Push, HeaderFor, BlockPacketObject.View, Machine.Client.Valid;
      var initiate := PacketFor(InitiateMsg, serverConfig);
      var ok := port.SendTx(initiate, TX_HEADER_SIZE);
      if ok {
        Go(Block);
      } else if expired {
        Go(Terminate);
      }
    }

    method Succeed()
      requires Valid()
      modifies this`isTransferSuccess, this`history, this`point, this`nextState
      ensures Valid() && history.dest == old(history.dest)
      ensures View() == Machine.Go(old(View()).(success := true, acked := true), Terminate)
    {
      hide Machine.Client.Valid, BlockPacketObject.View, Machine.Go;
      isTransferSuccess, history := true, history.(acked := true);
      Go(Terminate);
    }

    method TryAck(expired: bool)
      requires Valid() && point == SendingAck
      modifies this`point, this`nextState, this`isTransferSuccess, this`history, port.tx
      ensures Valid() && history.dest == old(history.dest)
      ensures Machine.Moved(View(), port.rx.queue, port.tx.queue)
           == Machine.Step(old(View()), old(port.rx.queue), old(port.tx.queue), expired)
    {
      hide EncodeTx, CanSendTx, Push, HeaderFor, BlockPacketObject.View, Machine.Client.Valid;
      var ack := PacketFor(AckMsg, NO_CONFIG.(id := serverConfig.id));
      var ok := port.SendTx(ack, TX_HEADER_SIZE);
      if ok {
        Succeed();
      } else if expired {
        Go(Terminate);
      }
    }

    method TryAckNot(expired: bool)
      requires Valid() && point == SendingAckNot
      modifies this`point, this`nextState, port.tx
      ensures Valid()
      ensures Machine.Moved(View(), port.rx.queue, port.tx.queue)
           == Machine.Step(old(View()), old(port.rx.queue), old(port.tx.queue), expired)
    {
      hide EncodeTx, CanSendTx, Push, HeaderFor, BlockPacketObject.View, Machine.Client.Valid;
      var refusal := PacketFor(AckNotMsg, NO_CONFIG.(id := serverConfig.id));
      var ok := port.SendTx(refusal, TX_HEADER_SIZE);
      if ok || expired {
        Go(Terminate);
      }
    }

    method HearResponse(expired: bool)
      requires Valid() && point == AwaitResponse && SizeFits(port.rx.queue, port.maxPacketSize)
      modifies this`point, this`nextState, this`serverConfig, port.rx
      ensures Valid() && View() == Machine.HearResponse(old(View()), old(port.rx.queue), expired)
      ensures port.rx.queue == Rest(old(port.rx.queue))
    {
      hide PollTx, BlockPacketObject.View, Machine.Client.Valid;
      var response := new TransactionPacket();
      var n := port.ReceiveTx(response, ResponseMsg);
      if n != 0 {
        serverConfig := Config(response.id, response.blocks, response.maxLen, response.timeout);
        Go(Initiate);
      } else if expired {
        Go(Terminate);
      }
    }

    /** Copies the payload to the pointer. */
    method Deposit(n: nat)
      requires Valid() && internalBuffer.To? && packet.buffer != null
      requires n <= packet.buffer.Length && n <= internalBufferLen
      modifies history.dest
      ensures Valid()
      ensures var c := old(View());
        View() == c.(dest := c.dest[..c.offset] + packet.View().buffer[..n] + c.dest[c.offset + n..])
    {
      hide Machine.Client.Valid, PhaseOf;
      Splice(internalBuffer.memory, internalBuffer.offset, packet.buffer, n);
    }

    /** The pointer is advanced behind the payload. */
    method Advance(n: nat)
      requires Valid() && internalBuffer.To? && n <= internalBufferLen
      modifies this`internalBuffer, this`internalBufferLen, this`history
      ensures Valid() && history.dest == old(history.dest)
      ensures var c := old(View());
        View() == c.(offset := c.offset + n, remaining := c.remaining - n, taken := c.taken + 1)
    {
      hide Machine.Client.Valid, BlockPacketObject.View, PhaseOf;
      internalBuffer := internalBuffer.(offset := internalBuffer.offset + n);
      internalBufferLen, history := internalBufferLen - n, history.(taken := history.taken + 1);
    }

    method Accept()
      requires Valid() && internalBuffer.To? && packet.buffer != null
      requires packet.size <= internalBufferLen
      modifies this`internalBuffer, this`internalBufferLen, this`history, history.dest
      ensures Valid() && history.dest == old(history.dest)
      ensures View() == Machine.Stored(old(View()), old(packet.View()))
    {
      hide Machine.Client.Valid, PhaseOf;
      Deposit(packet.size);
      Advance(packet.size);
    }

    /** Stores the payload, if there is room for it. */
    method Store()
      requires Valid() && point == AwaitBlock
      modifies this`point, this`nextState, this`internalBuffer, this`internalBufferLen, this`history,
               history.dest
      ensures Valid() && View() == Machine.Store(old(View()), old(packet.View()))
      ensures history.dest == old(history.dest)
    {
      hide GetContinue, Machine.Stored, Machine.Client.Valid;
      if internalBuffer.To? && packet.buffer != null && internalBufferLen >= packet.size {
        Accept();
        if GetContinue(packet.meta) {
          Go(currentState);
        } else {
          point := SendingAck;
        }
      } else {
        point := SendingAckNot;
      }
    }

    /** One call of `receive` into the packet object. */
    method PollBlock() returns (accepted: bool)
      requires Valid() && point == AwaitBlock && SizeFits(port.rx.queue, port.maxPacketSize)
      modifies packet, port.rx
      ensures Valid() && port.rx.queue == Rest(old(port.rx.queue))
      ensures Transport.PollBlock(old(port.rx.queue), old(packet.View()), BlockMsg, clientConfig.maxLen)
           == BlockPoll(packet.View(), accepted)
      ensures View() == old(View()).(phase := Machine.AwaitBlock(packet.View()))
      ensures fresh(Private() - old(Private()))
    {
      hide Transport.PollBlock, Machine.Client.Valid;
      var n := port.ReceiveBlock(packet);
      accepted := n > 0;
    }

    method HearBlock(expired: bool)
      requires Valid() && point == AwaitBlock && SizeFits(port.rx.queue, port.maxPacketSize)
      modifies this`point, this`nextState, this`internalBuffer, this`internalBufferLen, this`history,
               packet, history.dest, port.rx
      ensures Valid() && View() == Machine.HearBlock(old(View()), old(port.rx.queue), expired)
      ensures port.rx.queue == Rest(old(port.rx.queue))
      ensures history.dest == old(history.dest) && fresh(Private() - old(Private()))
    {
      hide Transport.PollBlock, Machine.Store, Machine.Client.Valid, BlockPacketObject.View;
      ghost var before := View();
      var accepted := PollBlock();
      StoreForgetsPhase(before, PhaseOf(point, packet), packet.View());
      if accepted {
        Store();
      } else if expired {
        point := SendingAckNot;
      }
    }

    /** One step of the client. */
    method Step(expired: bool)
      requires Valid() && SizeFits(port.rx.queue, port.maxPacketSize)
      modifies this, packet, history.dest, port.tx, port.rx
      ensures Valid()
      ensures Machine.Moved(View(), port.rx.queue, port.tx.queue)
           == Machine.Step(old(View()), old(port.rx.queue), old(port.tx.queue), expired)
      ensures history.dest == old(history.dest) && fresh(Private() - old(Private()))
    {
      hide Machine.Activate, Machine.HearResponse, Machine.HearBlock, Machine.TrySend,
        BlockPacketObject.View, Machine.Client.Valid;
      match point {
        case AtLoop => Activate();
        case SendingRequest => TryRequest(expired);
        case AwaitResponse => HearResponse(expired);
        case SendingInitiate => TryInitiate(expired);
        case AwaitBlock => HearBlock(expired);
        case SendingAck => TryAck(expired);
        case SendingAckNot => TryAckNot(expired);
      }
    }
  }
}

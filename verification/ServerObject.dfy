/** The server as an object that updates its fields. Each method is proved to do to the fields
    and the queues what the value-level machine of `ServerFsm` does. */
module ServerObject {
  import opened Bytes
  import opened Packets
  import opened Transport
  import opened Fsm
  import opened Objects
  import opened PacketObjects
  import Machine = ServerFsm

  /** Where the running activation is suspended. */
  datatype Point =
    | AtLoop | AwaitRequest | SendingResponse | AwaitInitiate | SendingFrame | AwaitAck | Overflowed

  /** The cases of a storage read, spelled out. */
  lemma FillCases(s: Machine.Server, store: seq<byte>, n: nat)
    requires s.Valid() && n == Min(|store|, s.Room() * s.peer.blocks)
    ensures var r := Machine.Fill(s, store);
      if s.cursor + n > |s.mem| then r == s.(phase := Machine.Overflowed)
      else
        var mem := s.mem[..s.cursor] + store[..n] + s.mem[s.cursor + n..];
        var read := s.(remaining := n, snapshot := store[..n], sent := 0, mem := mem);
        if n == 0 then r == read.(phase := Machine.AtLoop, next := Terminate)
        else r == read.(phase := Machine.SendingResponse(HeaderFor(ResponseMsg, s.peer)))
  {
    hide HeaderFor;
  }

  ghost predicate IsNext(s: Machine.Server, number: u8, n: nat, left: nat, frame: BlockPacket) {
    && n <= 255 && s.cursor + n <= |s.mem|
    && frame == BlockPacket(
         BlockHeader(BlockMsg, SetContinue(SetFrameNumber(0, number),
                                           !(number >= s.peer.blocks || left <= 0)), 0, n),
         s.mem[s.cursor..s.cursor + n])
  }

  lemma BuildFrameCases(s: Machine.Server, number: u8, n: nat, left: nat, frame: BlockPacket)
    requires s.Valid() && number == s.counter % 256
    requires n == Min(s.Room(), s.remaining) && left == s.remaining - n
    requires IsNext(s, number, n, left, frame)
    ensures Machine.BuildFrame(s)
         == s.(counter := (s.counter + 1) % 0x1_0000_0000, remaining := left,
               cursor := s.cursor + n, phase := Machine.SendingFrame(frame))
    ensures frame.Exact()
  {
    hide SetContinue, SetFrameNumber;
  }

  ghost function PhaseOf(point: Point, response: TransactionPacket, frame: BlockPacketObject): Machine.Phase
    reads response, frame, frame.buffer
  {
    match point
    case AtLoop => Machine.AtLoop
    case AwaitRequest => Machine.AwaitRequest
    case SendingResponse => Machine.SendingResponse(response.View())
    case AwaitInitiate => Machine.AwaitInitiate
    case SendingFrame => Machine.SendingFrame(frame.View())
    case AwaitAck => Machine.AwaitAck
    case Overflowed => Machine.Overflowed
  }

  class DDServer {
    const port: DataDump
    const serverConfig: Config
    const allocation: array<byte>
    var currentState: State
    var nextState: State
    var point: Point
    var isBusy: bool
    var clientConfig: Config
    var internalCounter: nat
    var internalBuffer: nat      // the pointer, as an offset into the allocation
    var internalBufferLen: nat
    var isTransferSuccess: bool
    var notes: seq<bool>
    var response: TransactionPacket  // packet objects of the suspended activation
    var frame: BlockPacketObject
    ghost var snapshot: seq<byte>
    ghost var sent: nat

    /** The fields as a state of the value-level machine. */
    ghost function View(): (v: Machine.Server)
      reads this, allocation, response, frame, frame.buffer
      requires Valid()
      ensures v.Valid()
    {
      Machine.Server(serverConfig, currentState, nextState, PhaseOf(point, response, frame), isBusy, clientConfig,
                     internalCounter, allocation[..], internalBuffer, internalBufferLen,
                     isTransferSuccess, notes, snapshot, sent)
    }

    /** What belongs to the server alone. */
    ghost function Private(): set<object>
      reads this, frame
    {
      var own: set<object> := {this, allocation, response, frame};
      if frame.buffer == null then own else var b: array<byte> := frame.buffer; own + {b}
    }

    ghost predicate Valid()
      reads this, allocation, response, frame, frame.buffer
    {
      && TX_HEADER_SIZE <= serverConfig.maxLen
      && internalBuffer + internalBufferLen <= allocation.Length
      && (point == SendingFrame ==> frame.View().Exact())
      && port.maxPacketSize == serverConfig.maxLen
      && port.tx != port.rx
      && frame.buffer != allocation
      && (point == SendingResponse ==> response.size == 0)
    }

    constructor (port: DataDump, config: Config)
      requires TX_HEADER_SIZE <= config.maxLen == port.maxPacketSize && port.tx != port.rx
      ensures Valid() && Machine.Initial(View()) && fresh(Private())
      ensures this.port == port && serverConfig == config
    {
      this.port, serverConfig := port, config;
      currentState, nextState, point, isBusy := Idle, Idle, AtLoop, false;
      clientConfig, internalCounter := NO_CONFIG, 1;
      allocation := new byte[(config.maxLen - BLOCK_HEADER_SIZE) * config.blocks];
      internalBuffer, internalBufferLen, isTransferSuccess, notes := 0, 0, false, [];
      snapshot, sent := [], 0;
      response := new TransactionPacket();
      frame := new BlockPacketObject();
    }

    /** `startServer`: refused while busy. */
    method StartServer() returns (ok: bool)
      requires Valid()
      modifies this`nextState
      ensures Valid() && View() == Machine.Start(old(View())) && ok == !old(isBusy)
    {
      ok := !isBusy;
      if ok {
        nextState := Request;
      }
    }

    // ---------- start of an activation ----------

    method Cleanup()
      requires Valid() && point == AtLoop
      modifies this`isTransferSuccess, this`clientConfig, this`internalBufferLen
      ensures Valid() && View() == Machine.Cleaned(old(View()))
    {
      isTransferSuccess, clientConfig, internalBufferLen := false, NO_CONFIG, 0;
    }

    /** The state change is taken over. */
    method DetectStateChange()
      requires Valid() && point == AtLoop
      modifies this`currentState, this`isBusy
      ensures Valid() && currentState == nextState
      ensures View() == old(View()).(current := nextState, busy := old(isBusy) || nextState != Idle)
    {
      if nextState != currentState {
        currentState := nextState;
      }
      if currentState != Idle {
        isBusy := true;
      }
    }

    method BeIdle()
      requires Valid() && point == AtLoop
      modifies this`isTransferSuccess, this`clientConfig, this`internalBufferLen, this`isBusy
      ensures Valid() && View() == Machine.Cleaned(old(View())).(busy := false)
    {
      Cleanup();
      isBusy := false;
    }

    method Report()
      requires Valid() && point == AtLoop
      modifies this`isTransferSuccess, this`clientConfig, this`internalBufferLen, this`notes,
               this`nextState
      ensures Valid()
      ensures View() == Machine.Go(Machine.Cleaned(
                          old(View()).(notes := old(notes) + [old(isTransferSuccess)])), Request)
    {
      notes := notes + [isTransferSuccess];
      Cleanup();
      nextState := Request;
    }

    /** The storage callback without erasing: writes at most `max` bytes at the pointer. */
    method ReadStorage(store: seq<byte>, max: nat) returns (n: nat)
      requires internalBuffer + Min(|store|, max) <= allocation.Length
      modifies allocation
      ensures n == Min(|store|, max)
      ensures var mem := old(allocation[..]);
        allocation[..] == mem[..internalBuffer] + store[..n] + mem[internalBuffer + n..]
    {
      n := Min(|store|, max);
      for i := 0 to n
        invariant allocation[..internalBuffer] == old(allocation[..internalBuffer])
        invariant allocation[internalBuffer..internalBuffer + i] == store[..i]
        invariant allocation[internalBuffer + n..] == old(allocation[internalBuffer + n..])
      {
        allocation[internalBuffer + i] := store[i];
      }
      assert allocation[..] == allocation[..internalBuffer]
        + allocation[internalBuffer..internalBuffer + n] + allocation[internalBuffer + n..];
    }

    /** RESPONSE, first half: settles the terms in a response packet and in `clientConfig`. */
    method SettleTerms() returns (packet: TransactionPacket)
      requires Valid() && point == AtLoop
      modifies this`clientConfig
      ensures Valid() && fresh(packet)
      ensures View() == old(View()).(peer := Negotiate(old(clientConfig), serverConfig))
      ensures packet.View() == HeaderFor(ResponseMsg, clientConfig) && packet.size == 0
    {
      packet := new TransactionPacket();
      packet.SetMsgType(ResponseMsg);
      var blocks, maxLen, timeout := serverConfig.blocks, serverConfig.maxLen, serverConfig.timeout;
      if clientConfig.blocks < serverConfig.blocks {
        blocks := clientConfig.blocks;
      }
      if clientConfig.maxLen < serverConfig.maxLen {
        maxLen := clientConfig.maxLen;
      }
      if clientConfig.timeout > serverConfig.timeout {
        timeout := clientConfig.timeout;
      }
      packet.SetTerms(clientConfig.id, blocks, maxLen, timeout);
      clientConfig := Config(packet.id, packet.blocks, packet.maxLen, packet.timeout);
    }

    method Loaded(n: nat, ghost data: seq<byte>)
      requires Valid() && point == AtLoop && internalBuffer + n <= allocation.Length
      modifies this`internalBufferLen, this`snapshot, this`sent
      ensures Valid() && View() == old(View()).(remaining := n, snapshot := data, sent := 0)
    {
      hide BlockPacketObject.View, TransactionPacket.View, PhaseOf, Machine.Server.Valid;
      internalBufferLen, snapshot, sent := n, data, 0;
    }

    /** Data was read: with some, the response is to be sent; without, the session is over. */
    method Offer(n: nat, ghost data: seq<byte>)
      requires Valid() && point == AtLoop && internalBuffer + n <= allocation.Length
      requires response.size == 0
      modifies this`internalBufferLen, this`point, this`nextState, this`snapshot, this`sent
      ensures Valid()
      ensures var read := old(View()).(remaining := n, snapshot := data, sent := 0);
        View() == if n == 0 then read.(next := Terminate)
                  else read.(phase := Machine.SendingResponse(response.View()))
    {
      hide BlockPacketObject.View, TransactionPacket.View;
      Loaded(n, data);
      if n != 0 {
        point := SendingResponse;
      } else {
        nextState := Terminate;
      }
    }

    /** RESPONSE, second half: reads what a whole transfer can carry. */
    method Fill(store: seq<byte>)
      requires Valid() && point == AtLoop && response.View() == HeaderFor(ResponseMsg, clientConfig)
      requires response.size == 0
      modifies this`internalBufferLen, this`point, this`nextState, this`snapshot, this`sent,
               allocation
      ensures Valid() && View() == Machine.Fill(old(View()), store)
    {
      hide HeaderFor, Machine.Fill, TransactionPacket.View, BlockPacketObject.View;
      var max := (port.maxPacketSize - BLOCK_HEADER_SIZE) * clientConfig.blocks;
      FillCases(View(), store, Min(|store|, max));
      if internalBuffer + Min(|store|, max) > allocation.Length {
        point := Overflowed;
        return;
      }
      var n := ReadStorage(store, max);
      Offer(n, store[..n]);
    }

    method Respond(store: seq<byte>)
      requires Valid() && point == AtLoop
      modifies this, allocation
      ensures Valid() && View() == Machine.Respond(old(View()), store)
      ensures frame == old(frame) && fresh(response)
    {
      hide Negotiate, HeaderFor, Machine.Fill;
      response := SettleTerms();
      Fill(store);
    }

    /** The packet object of the next frame: `n` bytes from the buffer pointer on. */
    method FramePacket(number: u8, n: u8, left: nat) returns (packet: BlockPacketObject)
      requires Valid() && internalBuffer + n <= allocation.Length
      ensures fresh(packet) && (packet.buffer == null || fresh(packet.buffer))
      ensures IsNext(View(), number, n, left, packet.View())
    {
      hide SetFrameNumber, SetContinue, Machine.Server.Valid;
      packet := new BlockPacketObject();
      packet.SetMsgType(BlockMsg);
      packet.SetFrameNumber(number);
      var copied := packet.SetBuffer(allocation, internalBuffer, n);
      packet.SetContinueBit(!(number >= clientConfig.blocks || left <= 0));
      assert allocation[internalBuffer..internalBuffer + n]
          == allocation[..][internalBuffer..internalBuffer + n];
    }

    /** The frame is in hand, the pointer behind it. */
    method Advance(packet: BlockPacketObject, n: nat, left: nat)
      requires Valid() && point == AtLoop && left + n == internalBufferLen
      requires packet.View().Exact() && packet.buffer != allocation
      modifies this`internalCounter, this`internalBuffer, this`internalBufferLen, this`frame, this`point
      ensures Valid() && frame == packet
      ensures View() == old(View()).(counter := (old(internalCounter) + 1) % 0x1_0000_0000,
                                     remaining := left, cursor := old(internalBuffer) + n,
                                     phase := Machine.SendingFrame(packet.View()))
    {
      hide BlockPacketObject.View, TransactionPacket.View, Machine.Server.Valid;
      Consume(n, left);
      frame, point := packet, SendingFrame;
    }

    /** The number and the pointer move on to the next frame. */
    method Consume(n: nat, left: nat)
      requires Valid() && point == AtLoop && left + n == internalBufferLen
      modifies this`internalCounter, this`internalBuffer, this`internalBufferLen
      ensures Valid()
      ensures View() == old(View()).(counter := (old(internalCounter) + 1) % 0x1_0000_0000,
                                     remaining := left, cursor := old(internalBuffer) + n)
    {
      hide BlockPacketObject.View, TransactionPacket.View, PhaseOf, Machine.Server.Valid;
      internalCounter := (internalCounter + 1) % 0x1_0000_0000;
      internalBuffer, internalBufferLen := internalBuffer + n, left;
    }

    /** BLOCK: cuts the next frame off the buffer. */
    method BuildFrame()
      requires Valid() && point == AtLoop
      modifies this
      ensures Valid() && View() == Machine.BuildFrame(old(View()))
      ensures fresh(frame) && (frame.buffer == null || fresh(frame.buffer)) && response == old(response)
    {
      hide IsNext, Machine.BuildFrame, BlockPacketObject.View, TransactionPacket.View;
      var number: u8 := internalCounter % 256;
      var n := port.maxPacketSize - BLOCK_HEADER_SIZE;
      if internalBufferLen < n {
        n := internalBufferLen;
      }
      var left := internalBufferLen - n;
      var packet := FramePacket(number, n, left);
      BuildFrameCases(View(), number, n, left, packet.View());
      Advance(packet, n, left);
    }

    method Activate(store: seq<byte>)
      requires Valid() && point == AtLoop
      modifies this, allocation
      ensures Valid() && View() == Machine.Activate(old(View()), store)
      ensures fresh(Private() - old(Private()))
    {
      hide Machine.Respond, Machine.BuildFrame, Machine.Cleaned, Machine.Go;
      DetectStateChange();
      match currentState {
        case Idle => BeIdle();
        case Request => point := AwaitRequest;
        case Response => Respond(store);
        case Initiate => point := AwaitInitiate;
        case Block => BuildFrame();
        case Terminate => Report();
      }
    }

    /** The activation ends. */
    method Go(next: State)
      requires Valid()
      modifies this`point, this`nextState
      ensures Valid() && View() == Machine.Go(old(View()), next)
    {
      hide BlockPacketObject.View, TransactionPacket.View, Machine.Server.Valid;
      point, nextState := AtLoop, next;
    }

    // ---------- one attempt of an activation's loop ----------

    method TryResponse(expired: bool)
      requires Valid() && point == SendingResponse
      modifies this, response, port.tx
      ensures Valid()
      ensures Machine.Moved(View(), port.rx.queue, port.tx.queue)
           == Machine.TryResponse(old(View()), old(response.View()), old(port.rx.queue),
                                  old(port.tx.queue), expired)
      ensures Private() == old(Private())
    {
      hide EncodeTx, CanSendTx, Push, BlockPacketObject.View, Machine.Server.Valid, Machine.Go;
      var ok := port.SendTx(response, TX_HEADER_SIZE);
      if ok {
        Go(Initiate);
      } else if expired {
        Go(Terminate);
      }
    }

    /** A frame is out: the next one is due, or the acknowledgement. */
    method Continue()
      requires Valid() && point == SendingFrame
      modifies this`point, this`nextState
      ensures Valid()
      ensures View() == if GetContinue(frame.meta) then Machine.Go(old(View()), currentState)
                        else old(View()).(phase := Machine.AwaitAck)
    {
      hide GetContinue, TransactionPacket.View, Machine.Server.Valid, Machine.Go;
      if GetContinue(frame.meta) {
        Go(currentState);
      } else {
        point := AwaitAck;
      }
    }

    method TryFrame(expired: bool)
      requires Valid() && point == SendingFrame
      modifies this, port.tx
      ensures Valid()
      ensures Machine.Moved(View(), port.rx.queue, port.tx.queue)
           == Machine.TryFrame(old(View()), old(frame.View()), old(port.rx.queue),
                               old(port.tx.queue), expired)
      ensures Private() == old(Private())
    {
      hide EncodeBlock, CanSendBlock, Push, GetContinue, TransactionPacket.View, Machine.Server.Valid,
        Machine.Go;
      var ok := port.SendBlock(frame, BLOCK_HEADER_SIZE + frame.size);
      if ok {
        sent := sent + 1;
        Continue();
      } else if expired {
        Go(Terminate);
      }
    }

    method HearRequest()
      requires Valid() && point == AwaitRequest && SizeFits(port.rx.queue, port.maxPacketSize)
      modifies this, port.rx
      ensures Valid() && View() == Machine.HearRequest(old(View()), old(port.rx.queue))
      ensures port.rx.queue == Rest(old(port.rx.queue)) && Private() == old(Private())
    {
      hide PollTx, BlockPacketObject.View, Machine.Server.Valid, Machine.Go;
      var request := new TransactionPacket();
      var n := port.ReceiveTx(request, RequestMsg);
      if n != 0 {
        clientConfig := Config(request.id, request.blocks, request.maxLen, request.timeout);
        Go(Response);
      }
    }

    method Agree()
      requires Valid()
      modifies this`internalCounter, this`point, this`nextState
      ensures Valid() && View() == Machine.Go(old(View()).(counter := 1), Block)
    {
      hide BlockPacketObject.View, TransactionPacket.View, Machine.Server.Valid;
      internalCounter, point, nextState := 1, AtLoop, Block;
    }

    method HearInitiate(expired: bool)
      requires Valid() && point == AwaitInitiate && SizeFits(port.rx.queue, port.maxPacketSize)
      modifies this, port.rx
      ensures Valid() && View() == Machine.HearInitiate(old(View()), old(port.rx.queue), expired)
      ensures port.rx.queue == Rest(old(port.rx.queue)) && Private() == old(Private())
    {
      hide PollTx, BlockPacketObject.View, Machine.Server.Valid, Machine.Go;
      var initiate := new TransactionPacket();
      var n := port.ReceiveTx(initiate, InitiateMsg);
      if n != 0 && clientConfig.id == initiate.id {
        Agree();
      } else if n != 0 || expired {
        Go(Terminate);
      }
    }

    /** The erase call of the storage callback returns how many bytes it dropped. */
    method Erase(store: seq<byte>)
      requires Valid()
      modifies this`isTransferSuccess
      ensures Valid()
      ensures View() == old(View()).(success := old(isTransferSuccess)
                                                || internalBufferLen <= |store|)
    {
      hide BlockPacketObject.View, TransactionPacket.View, PhaseOf, Machine.Server.Valid;
      var erased := Min(|store|, internalBufferLen);
      if erased == internalBufferLen {
        isTransferSuccess := true;
      }
    }

    method HearAck(e: Machine.Env)
      requires Valid() && point == AwaitAck && SizeFits(port.rx.queue, port.maxPacketSize)
      modifies this, port.rx
      ensures Valid() && View() == Machine.HearAck(old(View()), old(port.rx.queue), e)
      ensures port.rx.queue == Rest(old(port.rx.queue)) && Private() == old(Private())
    {
      hide PollTx, BlockPacketObject.View, Machine.Server.Valid, Machine.Go;
      var ack := new TransactionPacket();
      var n := port.ReceiveTx(ack, AckMsg);
      if n != 0 {
        if ack.id == clientConfig.id {
          Erase(e.store);
        }
        Go(Terminate);
      } else if e.expired {
        Go(Terminate);
      }
    }

    /** One step of the server. */
    method Step(e: Machine.Env)
      requires Valid() && SizeFits(port.rx.queue, port.maxPacketSize)
      modifies this, allocation, response, port.tx, port.rx
      ensures Valid()
      ensures Machine.Moved(View(), port.rx.queue, port.tx.queue)
           == Machine.Step(old(View()), old(port.rx.queue), old(port.tx.queue), e)
      ensures fresh(Private() - old(Private()))
    {
      hide Machine.Activate, Machine.HearRequest, Machine.HearInitiate, Machine.HearAck,
        Machine.TryResponse, Machine.TryFrame;
      match point {
        case AtLoop => Activate(e.store);
        case AwaitRequest => HearRequest();
        case SendingResponse => TryResponse(e.expired);
        case AwaitInitiate => HearInitiate(e.expired);
        case SendingFrame => TryFrame(e.expired);
        case AwaitAck => HearAck(e);
        case Overflowed =>
      }
    }
  }
}

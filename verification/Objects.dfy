/** The channel callbacks and the send / receive layer as objects. */
module Objects {
  import opened Bytes
  import opened Options
  import opened Packets
  import opened Transport
  import PacketObjects

  /** A queue of messages behind the transport callbacks. */
  class ChannelObject {
    var queue: Channel

    constructor ()
      ensures queue == []
    {
      queue := [];
    }

    /** `serverSend`, `clientSend`: refuses an empty message and a full queue. */
    method Send(arg: array<byte>, length: nat) returns (ok: bool)
      requires length <= arg.Length
      modifies this
      ensures ok == Accepts(old(queue), arg[..length])
      ensures queue == Push(old(queue), arg[..length])
    {
      ok := false;
      if length != 0 {
        if |queue| < CAPACITY {
          queue := queue + [arg[..length]];
          ok := true;
        }
      }
    }

    /** `serverReceive`, `clientReceive`: takes the oldest message off the queue and copies it
        if it is not too long. */
    method Receive(arg: array<byte>) returns (n: nat)
      requires arg.Length != 0
      modifies this, arg
      ensures queue == Rest(old(queue))
      ensures n == if old(queue) != [] && |old(queue)[0]| <= arg.Length then |old(queue)[0]| else 0
      ensures n > 0 ==> arg[..n] == old(queue)[0]
      ensures forall k :: n <= k < arg.Length ==> arg[k] == old(arg[k])
    {
      n := 0;
      if queue != [] {
        var message := queue[0];
        queue := queue[1..];
        if |message| <= arg.Length {
          for i := 0 to |message|
            invariant queue == Rest(old(queue))
            invariant arg[..i] == message[..i]
            invariant forall k :: i <= k < arg.Length ==> arg[k] == old(arg[k])
          {
            arg[i] := message[i];
          }
          n := |message|;
        }
      }
    }
  }

  // ---------- the zero-extended receive buffer ----------

  /** A buffer that holds a message and zeros behind it reads like the message. */
  ghost predicate Holds(buf: seq<byte>, m: Message) {
    |m| <= |buf| && forall k :: 0 <= k < |buf| ==> buf[k] == At(m, k)
  }

  lemma {:induction false} SameGather32(buf: seq<byte>, m: Message, at: nat, n: nat)
    requires Holds(buf, m) && n <= 4
    ensures Gather32(buf, at, n) == Gather32(m, at, n)
  {
    hide Deposit32;
    if n > 0 {
      SameGather32(buf, m, at, n - 1);
    }
  }

  lemma {:induction false} SameGather16(buf: seq<byte>, m: Message, at: nat, n: nat)
    requires Holds(buf, m) && n <= 2
    ensures Gather16(buf, at, n) == Gather16(m, at, n)
  {
    hide Deposit16;
    if n > 0 {
      SameGather16(buf, m, at, n - 1);
    }
  }

  lemma SameHeader(buf: seq<byte>, m: Message)
    requires Holds(buf, m)
    ensures ReadTx(buf) == ReadTx(m) && ReadBlockHeader(buf) == ReadBlockHeader(m)
  {
    hide Gather32, Gather16, TypeOf, FromByte;
    SameGather32(buf, m, 1, 4);
    SameGather16(buf, m, 8, 2);
    SameGather16(buf, m, 2, 2);
  }

  lemma SameBlock(buf: seq<byte>, m: Message, p: BlockPacket)
    requires Holds(buf, m)
    ensures ReadBlock(p, buf) == ReadBlock(p, m)
    ensures ReadBlock(p, m).header == ReadBlockHeader(m)
  {
    hide Gather16, TypeOf, FromByte;
    SameHeader(buf, m);
    var n := ReadBlockHeader(m).size;
    assert Window(buf, BLOCK_HEADER_SIZE, n) == Window(m, BLOCK_HEADER_SIZE, n);
  }

  lemma SameEncoding(h: TxHeader, length: nat, maxLen: nat)
    requires TX_HEADER_SIZE <= length <= maxLen
    ensures WriteTx(h, Zeros(maxLen))[..length] == WriteTx(h, Zeros(length))
  {
    hide Le32, Le16, ToByte, TypeCode;
  }

  lemma SameBlockEncoding(p: BlockPacket, maxLen: nat)
    requires p.Exact() && p.header.size > 0 && maxLen >= PacketSize(p)
    ensures WriteBlock(p, Zeros(maxLen))[..PacketSize(p)] == EncodeBlock(p)
  {
    hide Le16, ToByte, TypeCode;
  }

  /** What client and server inherit: a packet size, two callbacks, and packets sent and
      received through local byte buffers. */
  class DataDump {
    const maxPacketSize: nat
    const tx: ChannelObject
    const rx: ChannelObject

    constructor (maxPacketSize: nat, tx: ChannelObject, rx: ChannelObject)
      ensures this.maxPacketSize == maxPacketSize && this.tx == tx && this.rx == rx
    {
      this.maxPacketSize, this.tx, this.rx := maxPacketSize, tx, rx;
    }

    /** Sends a transaction packet. The callers pass its packet size, as a byte. */
    method SendTx(packet: PacketObjects.TransactionPacket, length: nat) returns (ok: bool)
      requires length == (TX_HEADER_SIZE + packet.size) % 256
      modifies tx, packet`buffer, packet`size
      ensures packet.View() == old(packet.View())
      ensures ok == (length <= maxPacketSize && Accepts(old(tx.queue), SentTx(packet.View())))
      ensures tx.queue == if ok then Push(old(tx.queue), SentTx(packet.View())) else old(tx.queue)
      ensures packet.size == 0 ==>
        && ok == CanSendTx(old(tx.queue), packet.View(), maxPacketSize)
        && tx.queue == (if ok then Push(old(tx.queue), EncodeTx(packet.View())) else old(tx.queue))
        && packet.buffer == old(packet.buffer)
    {
      hide EncodeTx, WriteTx;
      if length > maxPacketSize {
        return false;
      }
      var buffer := new byte[maxPacketSize](_ => 0);
      assert buffer[..] == Zeros(maxPacketSize);
      var written := packet.Serialize(buffer, length);
      if length == TX_HEADER_SIZE + packet.size {
        SameEncoding(packet.View(), length, maxPacketSize);
      } else {
        assert buffer[..][..length] == Zeros(length);
      }
      assert buffer[..length] == buffer[..][..length];
      ok := tx.Send(buffer, length);
    }

    method SendBlock(packet: PacketObjects.BlockPacketObject, length: nat) returns (ok: bool)
      requires packet.View().Valid() && length == PacketSize(packet.View())
      modifies tx
      ensures ok == CanSendBlock(old(tx.queue), packet.View().Trimmed(), maxPacketSize)
      ensures tx.queue
           == if ok then Push(old(tx.queue), EncodeBlock(packet.View().Trimmed())) else old(tx.queue)
    {
      hide WriteBlock;
      if length > maxPacketSize {
        return false;
      }
      var buffer := new byte[maxPacketSize](_ => 0);
      assert buffer[..] == Zeros(maxPacketSize);
      var written := packet.Serialize(buffer, maxPacketSize);
      if packet.size > 0 {
        SameBlockEncoding(packet.View().Trimmed(), maxPacketSize);
        assert buffer[..written] == buffer[..][..written];
      }
      ok := tx.Send(buffer, written);
    }

    /** Polls for a transaction packet of one type; 0 means nothing acceptable was there. The size
        byte of the message must not point past the receive buffer. */
    method ReceiveTx(packet: PacketObjects.TransactionPacket, want: MsgType) returns (n: nat)
      requires TX_HEADER_SIZE <= maxPacketSize && want != BlockMsg
      requires SizeFits(rx.queue, maxPacketSize)
      modifies rx, packet
      ensures rx.queue == Rest(old(rx.queue))
      ensures PollTx(old(rx.queue), want, maxPacketSize)
           == if n > 0 then Some(packet.View()) else None
      ensures n > 0 ==> n == |old(rx.queue)[0]|
    {
      hide ReadTx;
      TypeCodesDiffer(want, BlockMsg);
      var buffer := new byte[maxPacketSize](_ => 0);
      n := rx.Receive(buffer);
      if n > 0 {
        ghost var m := old(rx.queue)[0];
        assert m == buffer[..n];
        assert Holds(buffer[..], m);
        SameHeader(buffer[..], m);
        if buffer[0] != TypeCode(want) {
          return 0;
        }
        packet.Deserialize(buffer);
        if packet.crc != GenerateCrc(buffer[..n]) {
          return 0;
        }
      }
    }

    /** Polls for a block packet, which is only called for BLOCK_TRANSFER. The size byte must not
        point past the receive buffer. */
    method ReceiveBlock(packet: PacketObjects.BlockPacketObject) returns (n: nat)
      requires TX_HEADER_SIZE <= maxPacketSize && packet.View().Valid()
      requires SizeFits(rx.queue, maxPacketSize)
      modifies rx, packet
      ensures rx.queue == Rest(old(rx.queue))
      ensures PollBlock(old(rx.queue), old(packet.View()), BlockMsg, maxPacketSize)
           == BlockPoll(packet.View(), n > 0)
      ensures n > 0 ==> n == |old(rx.queue)[0]|
      ensures packet.buffer == old(packet.buffer)
           || (packet.buffer != null && fresh(packet.buffer) && packet.buffer.Length > 0)
    {
      hide ReadBlock, ReadBlockHeader;
      var buffer := new byte[maxPacketSize](_ => 0);
      n := rx.Receive(buffer);
      if n > 0 {
        ghost var m := old(rx.queue)[0];
        assert m == buffer[..n];
        assert Holds(buffer[..], m);
        SameHeader(buffer[..], m);
        SameBlock(buffer[..], m, packet.View());
        if buffer[0] != TypeCode(BlockMsg) {
          return 0;
        }
        packet.Deserialize(buffer);
        if packet.crc != GenerateCrc(buffer[..n]) {
          return 0;
        }
      }
    }
  }
}

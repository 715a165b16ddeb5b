/** The wire format in numbers: which byte of a message holds which part of which field. Stated
    without the functions that the codecs are built from. */
module Layout {
  import opened Bytes
  import opened Packets
  import opened Transport
  import opened Fsm
  import opened Segmentation
  import SessionProofs

  // ---------- transaction messages ----------

  /** The eleven bytes of a transaction message. A negative acknowledgement has type byte 0. */
  lemma TxLayout(h: TxHeader)
    ensures var m := EncodeTx(h);
      && |m| == 11
      && m[0] == (match h.msgType
                  case Unassigned => 0
                  case RequestMsg => 1
                  case ResponseMsg => 2
                  case InitiateMsg => 3
                  case BlockMsg => 4
                  case AckMsg => 5
                  case AckNotMsg => 0)
      && m[1] == (h.id & 0xff) as bv8 && m[2] == ((h.id >> 8) & 0xff) as bv8
      && m[3] == ((h.id >> 16) & 0xff) as bv8 && m[4] == (h.id >> 24) as bv8
      && m[5] as int == h.blocks && m[6] as int == h.maxLen && m[7] as int == h.timeout
      && m[8] == (h.crc & 0xff) as bv8 && m[9] == (h.crc >> 8) as bv8
      && m[10] as int == h.size
  {
    hide Le32, Le16, ToByte, FromByte;
    Written32(h.id);
    Written16(h.crc);
    Held(h.blocks);
    Held(h.maxLen);
    Held(h.timeout);
    Held(h.size);
  }

  lemma Held(n: u8)
    ensures ToByte(n) as int == n
  {
    ByteRoundTrip(n);
  }

  /** A transaction message with this type byte and these four fields, and zeros behind them. */
  predicate Reads(m: Message, code: byte, c: Config) {
    && |m| == 11
    && m[0] == code
    && m[1] == (c.id & 0xff) as bv8 && m[2] == ((c.id >> 8) & 0xff) as bv8
    && m[3] == ((c.id >> 16) & 0xff) as bv8 && m[4] == (c.id >> 24) as bv8
    && m[5] as int == c.blocks && m[6] as int == c.maxLen && m[7] as int == c.timeout
    && m[8] == 0 && m[9] == 0 && m[10] as int == 0
  }

  /** All transaction messages of the protocol, byte by byte. Acknowledgements carry nothing but
      the identifier. */
  lemma TransactionMessages(c: Config)
    ensures Reads(SessionProofs.RequestMessage(c), 1, c)
    ensures Reads(SessionProofs.ResponseMessage(c), 2, c)
    ensures Reads(SessionProofs.InitiateMessage(c), 3, c)
    ensures Reads(SessionProofs.AckMessage(c), 5, Config(c.id, 0, 0, 0))
    ensures Reads(SessionProofs.AckNotMessage(c), 0, Config(c.id, 0, 0, 0))
  {
    hide EncodeTx, Reads, HeaderFor;
    HeaderReads(RequestMsg, 1, c);
    HeaderReads(ResponseMsg, 2, c);
    HeaderReads(InitiateMsg, 3, c);
    HeaderReads(AckMsg, 5, NO_CONFIG.(id := c.id));
    HeaderReads(AckNotMsg, 0, NO_CONFIG.(id := c.id));
  }

  lemma HeaderReads(t: MsgType, code: byte, c: Config)
    requires match t
             case RequestMsg => code == 1
             case ResponseMsg => code == 2
             case InitiateMsg => code == 3
             case BlockMsg => code == 4
             case AckMsg => code == 5
             case _ => code == 0
    ensures Reads(EncodeTx(HeaderFor(t, c)), code, c)
  {
    hide EncodeTx;
    TxLayout(HeaderFor(t, c));
    assert ((0 as bv16) & 0xff) as bv8 == 0 && ((0 as bv16) >> 8) as bv8 == 0;
  }

  // ---------- block messages ----------

  /** A block message: type 4, metadata, two CRC bytes, the size, and the payload. */
  lemma BlockLayout(p: BlockPacket)
    requires p.Exact() && p.header.size > 0 && p.header.msgType == BlockMsg
    ensures var m := EncodeBlock(p);
      && |m| == 5 + p.header.size
      && m[0] == 4 && m[1] == p.header.meta
      && m[2] == (p.header.crc & 0xff) as bv8 && m[3] == (p.header.crc >> 8) as bv8
      && m[4] as int == p.header.size
      && m[5..] == p.buffer
  {
    hide Le16, ToByte, FromByte;
    Written16(p.header.crc);
    Held(p.header.size);
    Payload(p);
  }

  lemma Payload(p: BlockPacket)
    requires p.Exact() && p.header.size > 0
    ensures EncodeBlock(p)[5..] == p.buffer
  {
    hide Le16, ToByte, WireType;
  }

  /** The continue bit is the top bit of the metadata, the frame number the seven below. */
  lemma MetaLayout(frame: u8, more: bool)
    ensures FrameMeta(frame, more) as int == frame % 128 + if more then 128 else 0
  {
    ByteRoundTrip(frame);
    SevenBits(ToByte(frame), frame);
    TopBit(ToByte(frame), more);
  }

  lemma TopBit(b: byte, more: bool)
    ensures SetContinue(0 | (b & 0x7f), more) as int == (b & 0x7f) as int + if more then 128 else 0
  {}

  /** Frame `i` of a snapshot on the wire, counted from 0: the p bytes from i * p on, or what is
      left of them, under number i + 1; the top bit says whether more follow. */
  lemma FrameOnTheWire(data: seq<byte>, p: nat, i: nat, at: nat)
    requires 0 < p <= 250 && at == i * p && at < |data|
    ensures var m, n := EncodeBlock(Frame(data, p, i)), Min(p, |data| - at);
      && |m| == 5 + n
      && m[0] == 4
      && m[1] as int == (i + 1) % 128 + (if at + p < |data| then 128 else 0)
      && m[2] == 0 && m[3] == 0
      && m[4] as int == n
      && m[5..] == data[at..at + n]
  {
    hide EncodeBlock, FrameMeta, Cut, BlockPacket.Exact;
    CutsAt(p, |data|, i, at);
    FrameFacts(data, p, i);
    BlockLayout(Frame(data, p, i));
    MetaLayout((i + 1) % 256, at + p < |data|);
  }

  lemma CutsAt(p: nat, total: nat, i: nat, at: nat)
    requires at == i * p && at < total
    ensures Cut(i, p, total) == at && Cut(i + 1, p, total) == Min(at + p, total)
    ensures (i + 1) % 256 % 128 == (i + 1) % 128
  {
    CutIsProduct(i, p, total);
    CutIsProduct(i + 1, p, total);
    assert (i + 1) * p == at + p;
  }
}

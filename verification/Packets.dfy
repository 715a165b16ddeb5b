/** The two packet formats and their byte codecs. A transaction packet is an 11-byte header
    (the protocol never gives it a payload); a block packet is a 5-byte header and 1..255
    payload bytes. */
module Packets {
  import opened Bytes

  // ---------- message types ----------

  datatype MsgType =
    | Unassigned | RequestMsg | ResponseMsg | InitiateMsg | BlockMsg | AckMsg | AckNotMsg

  /** The enumeration value of a type. */
  function TypeCode(t: MsgType): byte {
    match t
    case Unassigned => 0
    case RequestMsg => 1
    case ResponseMsg => 2
    case InitiateMsg => 3
    case BlockMsg => 4
    case AckMsg => 5
    case AckNotMsg => 6
  }

  function TypeOf(b: byte): MsgType {
    if b == 1 then RequestMsg
    else if b == 2 then ResponseMsg
    else if b == 3 then InitiateMsg
    else if b == 4 then BlockMsg
    else if b == 5 then AckMsg
    else if b == 6 then AckNotMsg
    else Unassigned
  }

  /** The type byte after serialisation over a buffer that held `prior`: a negative
      acknowledgement is not written at all. */
  function WireType(t: MsgType, prior: byte): byte {
    if t == AckNotMsg then prior else TypeCode(t)
  }

  // ---------- transaction packets ----------

  const TX_HEADER_SIZE: nat := 11

  datatype TxHeader = TxHeader(msgType: MsgType, id: bv32, blocks: u8, maxLen: u8,
                               timeout: u8, crc: bv16, size: u8)

  const FRESH_TX_HEADER := TxHeader(Unassigned, 0, 0, 0, 0, 0, 0)

  /** Contents of a buffer after the header was serialised into it. */
  function WriteTx(h: TxHeader, prior: seq<byte>): (m: seq<byte>)
    requires |prior| >= TX_HEADER_SIZE
    ensures |m| == |prior|
  {
    [WireType(h.msgType, prior[0])] + Le32(h.id)
    + [ToByte(h.blocks), ToByte(h.maxLen), ToByte(h.timeout)]
    + Le16(h.crc) + [ToByte(h.size)] + prior[TX_HEADER_SIZE..]
  }

  /** The written contents, field by field. */
  lemma WrittenTx(h: TxHeader, prior: seq<byte>, m: seq<byte>)
    requires |m| == |prior| >= TX_HEADER_SIZE
    requires m[0] == WireType(h.msgType, prior[0]) && m[1..5] == Le32(h.id)
    requires m[5] == ToByte(h.blocks) && m[6] == ToByte(h.maxLen) && m[7] == ToByte(h.timeout)
    requires m[8..10] == Le16(h.crc) && m[10] == ToByte(h.size) && m[11..] == prior[11..]
    ensures m == WriteTx(h, prior)
  {
    hide ByteOf32, ByteOf16, ToByte, TypeCode;
    assert m == [m[0]] + m[1..5] + [m[5], m[6], m[7]] + m[8..10] + [m[10]] + m[11..];
  }

  function ReadTx(m: seq<byte>): TxHeader {
    TxHeader(TypeOf(At(m, 0)), Gather32(m, 1, 4), FromByte(At(m, 5)), FromByte(At(m, 6)),
             FromByte(At(m, 7)), Gather16(m, 8, 2), FromByte(At(m, 10)))
  }

  /** The message that `send` hands to the transport: it serialises over a zeroed buffer. */
  function EncodeTx(h: TxHeader): (m: seq<byte>)
    ensures |m| == TX_HEADER_SIZE
  {
    WriteTx(h, Zeros(TX_HEADER_SIZE))
  }

  /** The header as its receiver sees it. */
  function AsReceived(h: TxHeader): TxHeader {
    if h.msgType == AckNotMsg then h.(msgType := Unassigned) else h
  }

  lemma TypeCodec(t: MsgType)
    ensures TypeOf(TypeCode(t)) == t
  {}

  lemma TypeByteSurvives(b: byte)
    ensures WireType(TypeOf(b), 0) == b <==> b <= 5
  {}

  /** Serialised over any buffer, a header is read back unchanged in every field, except that
      a negative acknowledgement takes whatever type byte the buffer held. */
  lemma TxReadsBack(h: TxHeader, prior: seq<byte>)
    requires |prior| >= TX_HEADER_SIZE
    ensures ReadTx(WriteTx(h, prior))
         == h.(msgType := if h.msgType == AckNotMsg then TypeOf(prior[0]) else h.msgType)
  {
    var m := WriteTx(h, prior);
    TypeCodec(h.msgType);
    assert m[1..5] == Le32(h.id);
    Field32RoundTrip(h.id, m, 1);
    assert m[8..10] == Le16(h.crc);
    Field16RoundTrip(h.crc, m, 8);
    ByteRoundTrip(h.blocks);
    ByteRoundTrip(h.maxLen);
    ByteRoundTrip(h.timeout);
    ByteRoundTrip(h.size);
  }

  /** Round trip of the transaction header over the wire. */
  lemma TxRoundTrip(h: TxHeader)
    ensures |EncodeTx(h)| == TX_HEADER_SIZE
    ensures ReadTx(EncodeTx(h)) == AsReceived(h)
    ensures h.msgType != AckNotMsg ==> ReadTx(EncodeTx(h)) == h
  {
    TxReadsBack(h, Zeros(TX_HEADER_SIZE));
  }

  /** Which 11-byte messages survive being read and written again: exactly those whose type
      byte names a type that is really written. */
  lemma TxWireRoundTrip(m: seq<byte>)
    requires |m| == TX_HEADER_SIZE
    ensures EncodeTx(ReadTx(m)) == m <==> m[0] <= 5
  {
    var h := ReadTx(m);
    var w := EncodeTx(h);
    Bytes32RoundTrip(m, 1);
    Bytes16RoundTrip(m, 8);
    assert w[1..5] == Le32(h.id) && w[8..10] == Le16(h.crc);
    assert w[1..] == m[1..] by {
      assert w[1..] == w[1..5] + w[5..8] + w[8..10] + w[10..];
      assert m[1..] == m[1..5] + m[5..8] + m[8..10] + m[10..];
      assert w[5..8] == m[5..8];
      assert w[10..] == m[10..];
    }
    assert m == [m[0]] + m[1..] && w == [w[0]] + w[1..];
    TypeByteSurvives(m[0]);
  }

  // ---------- block metadata: a continue bit over a 7-bit frame number ----------

  const CONTINUE_MASK: byte := 0x80

  function SetContinue(meta: byte, more: bool): byte {
    (meta & !CONTINUE_MASK) | (if more then CONTINUE_MASK else 0)
  }

  function GetContinue(meta: byte): bool {
    meta >> 7 != 0
  }

  /** Only ever adds bits, so it is exact on a cleared frame number only. */
  function SetFrameNumber(meta: byte, frame: u8): byte {
    meta | (ToByte(frame) & !CONTINUE_MASK)
  }

  function GetFrameNumber(meta: byte): u8 {
    FromByte(meta & !CONTINUE_MASK)
  }

  lemma ClearTopBit(b: byte)
    ensures (b & !CONTINUE_MASK) as int == if b < CONTINUE_MASK then b as int else b as int - 128
  {}

  lemma SevenBits(b: byte, frame: u8)
    requires FromByte(b) == frame
    ensures FromByte(b & !CONTINUE_MASK) == frame % 128
  {
    ClearTopBit(b);
  }

  /** On fresh metadata both fields read back: the bit as set, the frame number modulo 128. */
  lemma MetadataRoundTrip(frame: u8, more: bool)
    ensures var meta := SetContinue(SetFrameNumber(0, frame), more);
            GetContinue(meta) == more && GetFrameNumber(meta) == frame % 128
  {
    var f := ToByte(frame);
    var meta := SetContinue(SetFrameNumber(0, frame), more);
    ByteRoundTrip(frame);
    SevenBits(f, frame);
  }

  // ---------- block packets ----------

  const BLOCK_HEADER_SIZE: nat := 5

  datatype BlockHeader = BlockHeader(msgType: MsgType, meta: byte, crc: bv16, size: u8)

  /** A packet object; an empty `buffer` stands for the null pointer of a fresh packet. */
  datatype BlockPacket = BlockPacket(header: BlockHeader, buffer: seq<byte>) {
    /** The header's size never exceeds what the buffer holds. */
    predicate Valid() {
      header.size <= |buffer|
    }

    /** Ready to be serialised: the buffer is exactly the announced payload. */
    predicate Exact() {
      header.size == |buffer|
    }

    /** The packet without what is behind the announced payload. */
    function Trimmed(): (p: BlockPacket)
      requires Valid()
      ensures p.Exact() && p.header == header
      ensures Exact() ==> p == this
    {
      BlockPacket(header, buffer[..header.size])
    }
  }

  const FRESH_BLOCK := BlockPacket(BlockHeader(Unassigned, 0, 0, 0), [])

  function PacketSize(p: BlockPacket): nat {
    BLOCK_HEADER_SIZE + p.header.size
  }

  function WriteBlock(p: BlockPacket, prior: seq<byte>): (m: seq<byte>)
    requires p.Exact() && |prior| >= PacketSize(p)
    ensures |m| == |prior|
  {
    [WireType(p.header.msgType, prior[0]), p.header.meta] + Le16(p.header.crc)
    + [ToByte(p.header.size)] + p.buffer + prior[PacketSize(p)..]
  }

  lemma WrittenBlock(p: BlockPacket, prior: seq<byte>, m: seq<byte>)
    requires p.Exact() && |m| == |prior| >= PacketSize(p)
    requires m[0] == WireType(p.header.msgType, prior[0]) && m[1] == p.header.meta
    requires m[2..4] == Le16(p.header.crc) && m[4] == ToByte(p.header.size)
    requires m[5..PacketSize(p)] == p.buffer && m[PacketSize(p)..] == prior[PacketSize(p)..]
    ensures m == WriteBlock(p, prior)
  {
    hide ByteOf16, ToByte, TypeCode;
    assert m == [m[0], m[1]] + m[2..4] + [m[4]] + m[5..PacketSize(p)] + m[PacketSize(p)..];
  }

  /** The message `send` hands to the transport; without a payload, serialisation reports
      length zero. */
  function EncodeBlock(p: BlockPacket): (m: seq<byte>)
    requires p.Exact()
    ensures |m| == if p.header.size == 0 then 0 else PacketSize(p)
  {
    if p.header.size == 0 then [] else WriteBlock(p, Zeros(PacketSize(p)))
  }

  function ReadBlockHeader(m: seq<byte>): BlockHeader {
    BlockHeader(TypeOf(At(m, 0)), At(m, 1), Gather16(m, 2, 2), FromByte(At(m, 4)))
  }

  /** `n` bytes of a message, zero-extended as the zeroed receive buffer extends it. */
  function Window(m: seq<byte>, at: nat, n: nat): (w: seq<byte>)
    ensures |w| == n
    ensures forall i :: 0 <= i < n ==> w[i] == At(m, at + i)
  {
    seq(n, i requires 0 <= i < n => At(m, at + i))
  }

  /** Deserialisation into an existing packet object: a zero size leaves the old buffer. */
  function ReadBlock(p: BlockPacket, m: seq<byte>): (r: BlockPacket)
    ensures r.Valid()
  {
    var h := ReadBlockHeader(m);
    BlockPacket(h, if h.size > 0 then Window(m, BLOCK_HEADER_SIZE, h.size) else p.buffer)
  }

  /** A block packet with a payload survives the wire, whatever object receives it. */
  lemma BlockRoundTrip(p: BlockPacket, into: BlockPacket)
    requires p.Exact() && p.header.size > 0 && p.header.msgType != AckNotMsg
    ensures |EncodeBlock(p)| == PacketSize(p)
    ensures ReadBlock(into, EncodeBlock(p)) == p
  {
    var m := EncodeBlock(p);
    TypeCodec(p.header.msgType);
    assert m[2..4] == Le16(p.header.crc);
    Field16RoundTrip(p.header.crc, m, 2);
    ByteRoundTrip(p.header.size);
    assert m[BLOCK_HEADER_SIZE..PacketSize(p)] == p.buffer;
    assert forall i :: 0 <= i < |p.buffer| ==>
      m[BLOCK_HEADER_SIZE + i] == m[BLOCK_HEADER_SIZE..PacketSize(p)][i] == p.buffer[i];
    assert Window(m, BLOCK_HEADER_SIZE, p.header.size) == p.buffer;
  }

  /** Which well-sized messages survive being read and written again. */
  lemma BlockWireRoundTrip(m: seq<byte>)
    requires |m| >= BLOCK_HEADER_SIZE && FromByte(m[4]) == |m| - BLOCK_HEADER_SIZE
    ensures EncodeBlock(ReadBlock(FRESH_BLOCK, m)) == m
       <==> m[0] <= 5 && |m| > BLOCK_HEADER_SIZE
  {
    var p := ReadBlock(FRESH_BLOCK, m);
    var w := EncodeBlock(p);
    if |m| > BLOCK_HEADER_SIZE {
      TypeByteSurvives(m[0]);
      BlockTail(m);
      assert m == [m[0]] + m[1..] && w == [w[0]] + w[1..];
    }
  }

  /** Five bytes and the rest. */
  lemma FirstFive(m: seq<byte>)
    requires |m| >= 5
    ensures m == [m[0], m[1], m[2], m[3], m[4]] + m[5..]
  {}

  lemma BlockTail(m: seq<byte>)
    requires |m| > BLOCK_HEADER_SIZE && FromByte(m[4]) == |m| - BLOCK_HEADER_SIZE
    ensures var w := EncodeBlock(ReadBlock(FRESH_BLOCK, m));
            |w| == |m| && w[0] == WireType(TypeOf(m[0]), 0) && w[1..] == m[1..]
  {
    hide Le16, Gather16, ToByte, FromByte, TypeCode, TypeOf;
    var p := ReadBlock(FRESH_BLOCK, m);
    var w := EncodeBlock(p);
    HeaderReadsBack(m);
    assert p.buffer == m[5..];
    assert w == [w[0], m[1]] + Le16(p.header.crc) + [m[4]] + m[5..];
    FirstFive(m);
    FirstFive(w);
  }

  lemma HeaderReadsBack(m: seq<byte>)
    requires |m| > BLOCK_HEADER_SIZE
    ensures Le16(ReadBlockHeader(m).crc) == [m[2], m[3]] && ToByte(ReadBlockHeader(m).size) == m[4]
  {
    Bytes16RoundTrip(m, 2);
  }
}

/** The bounded message channels and the `send` / `receive` layer that both parties share.
    A channel holds encoded messages, oldest first. */
module Transport {
  import opened Bytes
  import opened Options
  import opened Packets

  type Message = seq<byte>
  type Channel = seq<Message>

  const CAPACITY: nat := 20

  /** What the receive check compares the decoded CRC with; CRC generation is switched off. */
  function GenerateCrc(m: Message): bv16 {
    0
  }

  // ---------- sending ----------

  /** The channel accepts a non-empty message while fewer than 20 are queued. */
  predicate Accepts(q: Channel, m: Message) {
    |m| != 0 && |q| < CAPACITY
  }

  function Push(q: Channel, m: Message): Channel {
    if Accepts(q, m) then q + [m] else q
  }

  /** The message that `send` makes of a transaction packet, for the length its packet size has
      in a byte. If that wraps around, nothing is serialised; a payload is not written. */
  function SentTx(h: TxHeader): (m: Message)
    ensures |m| == (TX_HEADER_SIZE + h.size) % 256
    ensures h.size == 0 ==> m == EncodeTx(h)
  {
    var length := (TX_HEADER_SIZE + h.size) % 256;
    if length < TX_HEADER_SIZE + h.size then Zeros(length) else WriteTx(h, Zeros(length))
  }

  predicate CanSendTx(q: Channel, h: TxHeader, maxLen: nat) {
    TX_HEADER_SIZE <= maxLen && Accepts(q, EncodeTx(h))
  }

  predicate CanSendBlock(q: Channel, p: BlockPacket, maxLen: nat)
    requires p.Exact()
  {
    PacketSize(p) <= maxLen && Accepts(q, EncodeBlock(p))
  }

  // ---------- receiving ----------

  /** The checks made before a message is decoded: it fits the buffer and has the type. */
  predicate Matches(m: Message, want: MsgType, maxLen: nat) {
    0 < |m| <= maxLen && m[0] == TypeCode(want)
  }

  /** A poll takes the oldest message off the channel whether or not it is wanted. */
  function Rest(q: Channel): Channel {
    if q == [] then [] else q[1..]
  }

  function PollTx(q: Channel, want: MsgType, maxLen: nat): Option<TxHeader> {
    if q != [] && Matches(q[0], want, maxLen) && ReadTx(q[0]).crc == GenerateCrc(q[0])
    then Some(ReadTx(q[0])) else None
  }

  datatype BlockPoll = BlockPoll(packet: BlockPacket, accepted: bool)

  /** Polling for a block packet decodes into an existing object before the CRC is checked. */
  function PollBlock(q: Channel, p: BlockPacket, want: MsgType, maxLen: nat): (r: BlockPoll)
    requires p.Valid()
    ensures r.packet.Valid()
  {
    if q != [] && Matches(q[0], want, maxLen)
    then BlockPoll(ReadBlock(p, q[0]), ReadBlockHeader(q[0]).crc == GenerateCrc(q[0]))
    else BlockPoll(p, false)
  }

  /** How far deserialisation reads: the header, and the payload its size byte announces. */
  function Extent(m: Message): nat {
    if At(m, 0) == TypeCode(BlockMsg) then BLOCK_HEADER_SIZE + FromByte(At(m, 4))
    else TX_HEADER_SIZE + FromByte(At(m, 10))
  }

  /** Deserialising the next message stays inside the receive buffer. */
  ghost predicate SizeFits(q: Channel, maxLen: nat) {
    q != [] && 0 < |q[0]| <= maxLen ==> Extent(q[0]) <= maxLen
  }

  // ---------- what the checks let through ----------

  /** No queued message carries the given type byte. */
  ghost predicate Lacks(q: Channel, t: MsgType) {
    forall i :: 0 <= i < |q| ==> At(q[i], 0) != TypeCode(t)
  }

  lemma TypeCodesDiffer(a: MsgType, b: MsgType)
    ensures TypeCode(a) == TypeCode(b) <==> a == b
  {}

  /** A transaction header with CRC 0 is accepted by the party waiting for its type, field
      for field, and by no other. */
  lemma DeliveredTx(h: TxHeader, q: Channel, want: MsgType, maxLen: nat)
    requires q != [] && q[0] == EncodeTx(h) && TX_HEADER_SIZE <= maxLen
    requires h.crc == 0 && want != Unassigned
    ensures PollTx(q, want, maxLen)
         == if h.msgType == want && h.msgType != AckNotMsg then Some(h) else None
    ensures At(q[0], 0) == WireType(h.msgType, 0)
  {
    TxRoundTrip(h);
    TypeCodesDiffer(h.msgType, want);
    TypeCodesDiffer(want, Unassigned);
  }

  /** The other direction for one wire type: an encoded negative acknowledgement is accepted
      by nobody. */
  lemma AckNotIsNeverAccepted(h: TxHeader, q: Channel, want: MsgType, maxLen: nat)
    requires q != [] && q[0] == EncodeTx(h) && h.msgType == AckNotMsg && want != Unassigned
    ensures PollTx(q, want, maxLen) == None
    ensures forall p: BlockPacket | p.Valid() :: PollBlock(q, p, want, maxLen) == BlockPoll(p, false)
  {
    TypeCodesDiffer(want, Unassigned);
  }

  lemma DeliveredBlock(p: BlockPacket, into: BlockPacket, q: Channel, maxLen: nat)
    requires p.Exact() && p.header.size > 0 && p.header.msgType == BlockMsg && p.header.crc == 0
    requires q != [] && q[0] == EncodeBlock(p) && PacketSize(p) <= maxLen && into.Valid()
    ensures PollBlock(q, into, BlockMsg, maxLen) == BlockPoll(p, true)
    ensures At(q[0], 0) == TypeCode(BlockMsg)
  {
    BlockRoundTrip(p, into);
    assert ReadBlockHeader(q[0]) == ReadBlock(into, q[0]).header;
  }

  /** The price of the disabled CRC: a payload byte that changes on the way is accepted. */
  lemma CorruptionIsAccepted(p: BlockPacket, into: BlockPacket, k: nat, b: byte, maxLen: nat)
    requires p.Exact() && p.header.msgType == BlockMsg && p.header.crc == 0 && into.Valid()
    requires k < |p.buffer| && PacketSize(p) <= maxLen
    ensures |EncodeBlock(p)| == PacketSize(p)
    ensures PollBlock([EncodeBlock(p)[BLOCK_HEADER_SIZE + k := b]], into, BlockMsg, maxLen)
         == BlockPoll(p.(buffer := p.buffer[k := b]), true)
  {
    hide Le16, ToByte, TypeCode, PollBlock;
    var q := p.(buffer := p.buffer[k := b]);
    assert EncodeBlock(p)[BLOCK_HEADER_SIZE + k := b] == EncodeBlock(q);
    DeliveredBlock(q, into, [EncodeBlock(q)], maxLen);
  }

  lemma NothingQueued(p: BlockPacket, want: MsgType, maxLen: nat)
    requires p.Valid()
    ensures PollBlock([], p, want, maxLen) == BlockPoll(p, false)
  {}

  lemma LackedIsDropped(q: Channel, want: MsgType, maxLen: nat)
    requires q != [] && At(q[0], 0) != TypeCode(want)
    ensures PollTx(q, want, maxLen) == None
  {}
}

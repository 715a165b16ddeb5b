/** The packet classes: headers updated by setters, byte buffers filled and read in place. Each
    serialisation is proved to write what the codec functions say. */
module PacketObjects {
  import opened Bytes
  import opened Packets

  /** Writes a 32-bit field with masks and shifts, lowest byte first. */
  method Put32(buf: array<byte>, at: nat, x: bv32)
    requires at + 4 <= buf.Length
    modifies buf
    ensures forall k :: 0 <= k < buf.Length ==>
      buf[k] == if at <= k < at + 4 then Le32(x)[k - at] else old(buf[k])
  {
    for i := 0 to 4
      invariant forall k :: 0 <= k < i ==> buf[at + k] == Le32(x)[k]
      invariant forall k :: 0 <= k < buf.Length && !(at <= k < at + i) ==> buf[k] == old(buf[k])
    {
      buf[at + i] := ByteOf32(x, i);
    }
  }

  method Put16(buf: array<byte>, at: nat, x: bv16)
    requires at + 2 <= buf.Length
    modifies buf
    ensures forall k :: 0 <= k < buf.Length ==>
      buf[k] == if at <= k < at + 2 then Le16(x)[k - at] else old(buf[k])
  {
    for i := 0 to 2
      invariant forall k :: 0 <= k < i ==> buf[at + k] == Le16(x)[k]
      invariant forall k :: 0 <= k < buf.Length && !(at <= k < at + i) ==> buf[k] == old(buf[k])
    {
      buf[at + i] := ByteOf16(x, i);
    }
  }

  /** Reads a 32-bit field, accumulating one shifted byte after the other. */
  method Get32(buf: array<byte>, at: nat) returns (x: bv32)
    requires at + 4 <= buf.Length
    ensures x == Gather32(buf[..], at, 4)
  {
    hide Deposit32;
    x := 0;
    for i := 0 to 4
      invariant x == Gather32(buf[..], at, i)
    {
      x := Deposit32(x, buf[at + i], i);
    }
  }

  method Get16(buf: array<byte>, at: nat) returns (x: bv16)
    requires at + 2 <= buf.Length
    ensures x == Gather16(buf[..], at, 2)
  {
    hide Deposit16;
    x := 0;
    for i := 0 to 2
      invariant x == Gather16(buf[..], at, i)
    {
      x := Deposit16(x, buf[at + i], i);
    }
  }

  /** memcpy between buffers that do not overlap. */
  method Copy(target: array<byte>, at: nat, source: array<byte>, from: nat, n: nat)
    requires target != source && at + n <= target.Length && from + n <= source.Length
    modifies target
    ensures target[at..at + n] == source[from..from + n]
    ensures target[..at] == old(target[..at]) && target[at + n..] == old(target[at + n..])
  {
    for i := 0 to n
      invariant forall k :: at <= k < at + i ==> target[k] == source[k - at + from]
      invariant forall k :: 0 <= k < at || at + i <= k < target.Length ==> target[k] == old(target[k])
    {
      target[at + i] := source[from + i];
    }
  }

  lemma SameFront(m: seq<byte>, front: seq<byte>)
    requires |m| >= TX_HEADER_SIZE && m[..5] == front
    ensures m[0] == front[0] && m[1..5] == front[1..5]
  {
    assert m[1..5] == m[..5][1..5];
  }

  /** `new` and memcpy. */
  method CopyOf(source: array<byte>, at: nat, n: nat) returns (copy: array<byte>)
    requires at + n <= source.Length
    ensures fresh(copy) && copy[..] == source[at..at + n]
  {
    copy := new byte[n](i requires 0 <= i < n reads source => source[at + i]);
  }

  lemma SameFive(m: seq<byte>, header: seq<byte>)
    requires |m| >= 5 && m[..5] == header
    ensures m[0] == header[0] && m[1] == header[1] && m[4] == header[4] && m[2..4] == header[2..4]
  {
    assert m[2..4] == m[..5][2..4];
  }

  class TransactionPacket {
    var msgType: MsgType
    var id: bv32
    var blocks: u8
    var maxLen: u8
    var timeout: u8
    var crc: bv16
    var size: u8
    var buffer: array?<byte>

    /** The header. */
    ghost function View(): TxHeader
      reads this
    {
      TxHeader(msgType, id, blocks, maxLen, timeout, crc, size)
    }

    constructor ()
      ensures View() == FRESH_TX_HEADER && buffer == null
    {
      msgType, id, blocks, maxLen, timeout, crc, size := Unassigned, 0, 0, 0, 0, 0, 0;
      buffer := null;
    }

    method SetMsgType(t: MsgType)
      modifies this
      ensures View() == old(View()).(msgType := t)
    {
      msgType := t;
    }

    method SetTerms(id: bv32, blocks: u8, maxLen: u8, timeout: u8)
      modifies this
      ensures View() == old(View()).(id := id, blocks := blocks, maxLen := maxLen, timeout := timeout)
    {
      this.id, this.blocks, this.maxLen, this.timeout := id, blocks, maxLen, timeout;
    }

    /** Replaces the buffer by a copy of `n` source bytes; refused for length 0. */
    method SetBuffer(source: array<byte>, at: nat, n: u8) returns (ok: bool)
      requires at + n <= source.Length
      modifies this`buffer, this`size
      ensures ok == (n > 0) && (ok ==> size == n) && (!ok ==> buffer == old(buffer) && size == old(size))
      ensures ok ==> buffer != null && fresh(buffer) && buffer[..] == source[at..at + n]
    {
      ok := n > 0;
      if ok {
        var copy := CopyOf(source, at, n);
        buffer, size := copy, n;
      }
    }

    method SerializeFront(buf: array<byte>)
      requires TX_HEADER_SIZE <= buf.Length
      modifies buf
      ensures buf[0] == WireType(msgType, old(buf[0])) && buf[1..5] == Le32(id)
      ensures buf[5..] == old(buf[5..])
    {
      hide ByteOf32, TypeCode;
      if msgType != AckNotMsg {
        buf[0] := TypeCode(msgType);
      }
      Put32(buf, 1, id);
    }

    method SerializeBack(buf: array<byte>)
      requires TX_HEADER_SIZE <= buf.Length
      modifies buf
      ensures buf[..5] == old(buf[..5]) && buf[TX_HEADER_SIZE..] == old(buf[TX_HEADER_SIZE..])
      ensures buf[5..8] == [ToByte(blocks), ToByte(maxLen), ToByte(timeout)]
      ensures buf[8..10] == Le16(crc) && buf[10] == ToByte(size)
    {
      hide ByteOf16, ToByte;
      buf[5], buf[6], buf[7] := ToByte(blocks), ToByte(maxLen), ToByte(timeout);
      Put16(buf, 8, crc);
      buf[10] := ToByte(size);
    }

    /** Fills the header field by field. Without a payload it reports length 0 even though the
        header has been written. With one, it copies the wrong way: the packet's buffer becomes
        what was behind the header, and no payload is written. */
    method Serialize(buf: array<byte>, len: nat) returns (written: nat)
      requires len <= buf.Length
      modifies buf, this`buffer, this`size
      ensures View() == old(View())
      ensures written == if size > 0 && len >= TX_HEADER_SIZE + size then TX_HEADER_SIZE + size else 0
      ensures buf[..] == if len < TX_HEADER_SIZE + size then old(buf[..])
                         else WriteTx(View(), old(buf[..]))
      ensures written == 0 ==> buffer == old(buffer)
      ensures written > 0 ==> buffer != null && fresh(buffer)
                              && buffer[..] == old(buf[TX_HEADER_SIZE..TX_HEADER_SIZE + size])
    {
      hide Le32, Le16, TypeCode, ToByte, WriteTx;
      written := 0;
      if len < TX_HEADER_SIZE + size {
        return;
      }
      SerializeFront(buf);
      ghost var front, back := buf[..5], buf[5..];
      SerializeBack(buf);
      SameFront(buf[..], front);
      assert buf[TX_HEADER_SIZE..] == back[6..] == old(buf[TX_HEADER_SIZE..]);
      WrittenTx(View(), old(buf[..]), buf[..]);
      if size > 0 {
        assert buf[TX_HEADER_SIZE..TX_HEADER_SIZE + size] == buf[TX_HEADER_SIZE..][..size];
        var copied := SetBuffer(buf, TX_HEADER_SIZE, size);
        written := TX_HEADER_SIZE + size;
      }
    }

    /** Reads every header field, then takes over the payload if there is one. */
    method Deserialize(buf: array<byte>)
      requires buf.Length >= TX_HEADER_SIZE
      requires buf.Length >= TX_HEADER_SIZE + FromByte(buf[10])
      modifies this
      ensures View() == ReadTx(buf[..])
      ensures size == 0 ==> buffer == old(buffer)
      ensures size > 0 ==> buffer != null && fresh(buffer)
                           && buffer[..] == buf[TX_HEADER_SIZE..TX_HEADER_SIZE + size]
    {
      hide Gather32, Gather16, TypeOf, FromByte;
      msgType := TypeOf(buf[0]);
      id := Get32(buf, 1);
      blocks, maxLen, timeout := FromByte(buf[5]), FromByte(buf[6]), FromByte(buf[7]);
      crc := Get16(buf, 8);
      size := FromByte(buf[10]);
      var copied := SetBuffer(buf, TX_HEADER_SIZE, size);
    }
  }

  class BlockPacketObject {
    var msgType: MsgType
    var meta: byte
    var crc: bv16
    var size: u8
    var buffer: array?<byte>

    ghost function View(): BlockPacket
      reads this, buffer
    {
      BlockPacket(BlockHeader(msgType, meta, crc, size), if buffer == null then [] else buffer[..])
    }

    constructor ()
      ensures View() == FRESH_BLOCK && buffer == null
    {
      msgType, meta, crc, size, buffer := Unassigned, 0, 0, 0, null;
    }

    method SetMsgType(t: MsgType)
      modifies this`msgType
      ensures msgType == t
    {
      msgType := t;
    }

    method SetFrameNumber(frame: u8)
      modifies this`meta
      ensures meta == Packets.SetFrameNumber(old(meta), frame)
    {
      meta := meta | (ToByte(frame) & !CONTINUE_MASK);
    }

    method SetContinueBit(more: bool)
      modifies this`meta
      ensures meta == Packets.SetContinue(old(meta), more)
    {
      meta := meta & !CONTINUE_MASK;
      meta := meta | (if more then CONTINUE_MASK else 0);
    }

    /** Replaces the buffer by a copy of `n` source bytes; refused for length 0. */
    method SetBuffer(source: array<byte>, at: nat, n: u8) returns (ok: bool)
      requires at + n <= source.Length
      modifies this`buffer, this`size
      ensures ok == (n > 0)
      ensures ok ==> buffer != null && fresh(buffer) && buffer[..] == source[at..at + n] && size == n
      ensures !ok ==> buffer == old(buffer) && size == old(size)
    {
      ok := n > 0;
      if ok {
        var copy := CopyOf(source, at, n);
        buffer, size := copy, n;
      }
    }

    method SerializeHeader(buf: array<byte>)
      requires BLOCK_HEADER_SIZE <= buf.Length && buf != buffer
      modifies buf
      ensures buf[0] == WireType(msgType, old(buf[0])) && buf[1] == meta
      ensures buf[2..4] == Le16(crc) && buf[4] == ToByte(size)
      ensures buf[BLOCK_HEADER_SIZE..] == old(buf[BLOCK_HEADER_SIZE..])
    {
      hide ByteOf16, TypeCode, ToByte;
      if msgType != AckNotMsg {
        buf[0] := TypeCode(msgType);
      }
      buf[1] := meta;
      Put16(buf, 2, crc);
      buf[4] := ToByte(size);
    }

    /** Header, then the payload; length 0 is reported when there is none or no room. */
    method Serialize(buf: array<byte>, len: nat) returns (written: nat)
      requires len <= buf.Length && View().Valid() && buf != buffer
      modifies buf
      ensures written == if len < PacketSize(View()) || size == 0 then 0 else PacketSize(View())
      ensures len < PacketSize(View()) ==> buf[..] == old(buf[..])
      ensures len >= PacketSize(View()) ==> buf[..] == WriteBlock(View().Trimmed(), old(buf[..]))
    {
      hide Le16, TypeCode, ToByte, WriteBlock;
      written := 0;
      if len < BLOCK_HEADER_SIZE + size {
        return;
      }
      SerializeHeader(buf);
      ghost var header, tail := buf[..BLOCK_HEADER_SIZE], buf[BLOCK_HEADER_SIZE..];
      if size > 0 {
        Copy(buf, BLOCK_HEADER_SIZE, buffer, 0, size);
        written := BLOCK_HEADER_SIZE + size;
        assert buffer[0..size] == buffer[..][..size];
        assert buf[BLOCK_HEADER_SIZE + size..] == tail[size..];
      }
      assert buf[..BLOCK_HEADER_SIZE] == header;
      SameFive(buf[..], header);
      WrittenBlock(View().Trimmed(), old(buf[..]), buf[..]);
    }

    /** Reads the header, then takes over the payload if there is one. */
    method Deserialize(buf: array<byte>)
      requires buf.Length >= BLOCK_HEADER_SIZE + FromByte(At(buf[..], 4)) && buf.Length >= BLOCK_HEADER_SIZE
      modifies this
      ensures View() == ReadBlock(old(View()), buf[..])
      ensures buffer == old(buffer) || (buffer != null && fresh(buffer) && buffer.Length > 0)
    {
      hide Gather16, TypeOf, FromByte;
      msgType := TypeOf(buf[0]);
      meta := buf[1];
      crc := Get16(buf, 2);
      size := FromByte(buf[4]);
      var n := size;
      var ok := SetBuffer(buf, BLOCK_HEADER_SIZE, n);
      assert ok ==> buffer[..] == Window(buf[..], BLOCK_HEADER_SIZE, n);
    }
  }
}

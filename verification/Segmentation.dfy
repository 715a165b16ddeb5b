/** The reference definition of how a snapshot is cut into frames: `p` bytes a frame, a
    shorter last one, frame numbers from 1, the continue bit on all but the last. The server's
    BLOCK state is proved to build these frames, the client's to consume them. */
module Segmentation {
  import opened Bytes
  import opened Packets

  /** Where frame `i` starts: `i * p`, but not past the end. */
  function Cut(i: nat, p: nat, total: nat): (c: nat)
    ensures c <= total
  {
    if i == 0 then 0 else Min(Cut(i - 1, p, total) + p, total)
  }

  function Chunk(data: seq<byte>, p: nat, i: nat): seq<byte> {
    data[Cut(i, p, |data|)..Cut(i + 1, p, |data|)]
  }

  function FrameMeta(frame: u8, more: bool): byte {
    SetContinue(SetFrameNumber(0, frame), more)
  }

  function BlockOf(frame: u8, more: bool, payload: seq<byte>): BlockPacket
    requires |payload| <= 255
  {
    BlockPacket(BlockHeader(BlockMsg, FrameMeta(frame, more), 0, |payload|), payload)
  }

  /** Frame `i`, counted from 0; it carries the number `i + 1`. */
  function Frame(data: seq<byte>, p: nat, i: nat): (f: BlockPacket)
    requires p <= 255
    ensures f.Exact()
  {
    BlockOf((i + 1) % 256, Cut(i + 1, p, |data|) < |data|, Chunk(data, p, i))
  }

  /** Payloads of the first `n` frames, in order. */
  function Joined(data: seq<byte>, p: nat, n: nat): seq<byte> {
    if n == 0 then [] else Joined(data, p, n - 1) + Chunk(data, p, n - 1)
  }

  /** The number of frames for `total` bytes, rounded up. */
  function FrameCount(p: nat, total: nat): nat
    requires p > 0
  {
    (total + p - 1) / p
  }

  // ---------- closed forms ----------

  lemma {:induction false} CutIsProduct(i: nat, p: nat, total: nat)
    ensures Cut(i, p, total) == Min(i * p, total)
  {
    if i > 0 {
      CutIsProduct(i - 1, p, total);
      assert (i - 1) * p + p == i * p;
      assert (i - 1) * p >= 0;
    }
  }

  lemma {:induction false} CutMonotone(i: nat, j: nat, p: nat, total: nat)
    requires i <= j
    ensures Cut(i, p, total) <= Cut(j, p, total)
  {
    if i < j {
      CutMonotone(i, j - 1, p, total);
    }
  }

  lemma CountBounds(p: nat, total: nat)
    requires p > 0
    ensures var n := FrameCount(p, total); total <= n * p < total + p
  {}

  /** The cuts reach the end after exactly ceil(total / p) frames. */
  lemma CutReachesEnd(i: nat, p: nat, total: nat)
    requires p > 0
    ensures Cut(i, p, total) == total <==> i >= FrameCount(p, total)
  {
    CutIsProduct(i, p, total);
    CountBounds(p, total);
    var n := FrameCount(p, total);
    if i >= n {
      MulMonotone(n, i, p);
    } else {
      MulMonotone(i + 1, n, p);
      assert (i + 1) * p == i * p + p;
    }
  }

  lemma MulMonotone(a: nat, b: nat, p: nat)
    requires a <= b
    ensures a * p <= b * p
  {
    assert b * p == a * p + (b - a) * p;
    assert (b - a) * p >= 0;
  }

  lemma {:induction false} JoinedIsPrefix(data: seq<byte>, p: nat, n: nat)
    ensures Joined(data, p, n) == data[..Cut(n, p, |data|)]
  {
    if n > 0 {
      JoinedIsPrefix(data, p, n - 1);
      assert data[..Cut(n - 1, p, |data|)] + data[Cut(n - 1, p, |data|)..Cut(n, p, |data|)]
          == data[..Cut(n, p, |data|)];
    }
  }

  // ---------- main results about the frames ----------

  /** What a single frame of the sequence looks like to the party that receives it. */
  lemma FrameFacts(data: seq<byte>, p: nat, i: nat)
    requires 0 < p <= 250 && Cut(i, p, |data|) < |data|
    ensures var f := Frame(data, p, i);
      && 0 < f.header.size <= p
      && f.header.msgType == BlockMsg && f.header.crc == 0
      && f.buffer == data[Cut(i, p, |data|)..Cut(i, p, |data|) + f.header.size]
      && Cut(i, p, |data|) + f.header.size == Cut(i + 1, p, |data|)
      && GetContinue(f.header.meta) == (Cut(i + 1, p, |data|) < |data|)
  {
    MetadataRoundTrip((i + 1) % 256, Cut(i + 1, p, |data|) < |data|);
  }

  lemma FrameNumber(data: seq<byte>, p: nat, i: nat)
    requires p <= 250 && i < 127
    ensures GetFrameNumber(Frame(data, p, i).header.meta) == i + 1
  {
    MetadataRoundTrip((i + 1) % 256, Cut(i + 1, p, |data|) < |data|);
  }

  lemma FrameOfCount(data: seq<byte>, p: nat, i: nat)
    requires 0 < p <= 250 && i < FrameCount(p, |data|)
    ensures var f := Frame(data, p, i);
      && 0 < f.header.size <= p
      && GetContinue(f.header.meta) == (i < FrameCount(p, |data|) - 1)
      && (i < FrameCount(p, |data|) - 1 ==> f.header.size == p)
  {
    CutReachesEnd(i, p, |data|);
    CutReachesEnd(i + 1, p, |data|);
    FrameFacts(data, p, i);
  }

  /** Segmentation is exact: n = ceil(L / p) frames rebuild the data; each but the last is
      full and says "continue"; the last has 1..p bytes and says "terminate"; frame i decodes
      to number i + 1 while that fits seven bits. */
  lemma SegmentationIsExact(data: seq<byte>, p: nat)
    requires 0 < p <= 250 && data != []
    ensures var n := FrameCount(p, |data|);
      && n > 0
      && Joined(data, p, n) == data
      && (forall i :: 0 <= i < n - 1 ==>
            Frame(data, p, i).header.size == p && GetContinue(Frame(data, p, i).header.meta))
      && 0 < Frame(data, p, n - 1).header.size <= p
      && !GetContinue(Frame(data, p, n - 1).header.meta)
      && (forall i :: 0 <= i < n && i < 127 ==>
            GetFrameNumber(Frame(data, p, i).header.meta) == i + 1)
  {
    var n := FrameCount(p, |data|);
    CutReachesEnd(0, p, |data|);
    CutReachesEnd(n, p, |data|);
    JoinedIsPrefix(data, p, n);
    forall i | 0 <= i < n
      ensures 0 < Frame(data, p, i).header.size <= p
      ensures GetContinue(Frame(data, p, i).header.meta) == (i < n - 1)
      ensures i < n - 1 ==> Frame(data, p, i).header.size == p
      ensures i < 127 ==> GetFrameNumber(Frame(data, p, i).header.meta) == i + 1
    {
      FrameOfCount(data, p, i);
      if i < 127 {
        FrameNumber(data, p, i);
      }
    }
  }
}

/** Whole runs of the server against an arbitrary environment: any channel contents at every
    step, any storage contents, any timeouts. */
module ServerRuns {
  import opened Bytes
  import opened Packets
  import opened Transport
  import opened Fsm
  import opened Segmentation
  import opened ServerFsm
  import opened ServerProofs

  datatype Input = Move(rx: Channel, tx: Channel, e: Env) | StartCall

  /** A server, and what an observer of its frames and notifications has counted. */
  datatype Trace = Trace(
    server: Server,
    frames: seq<BlockPacket>,     // cut since the latest storage read
    total: nat,                   // payload bytes cut since construction
    base: nat,                    // where the pointer was at the latest storage read
    delivered: seq<seq<byte>>     // snapshots reported as transferred
  )

  function Observed(s: Server): Trace {
    Trace(s, [], 0, 0, [])
  }

  function TotalLength(loads: seq<seq<byte>>): nat {
    if loads == [] then 0 else TotalLength(loads[..|loads| - 1]) + |loads[|loads| - 1]|
  }

  function TraceStep(t: Trace, i: Input): (r: Trace)
    requires t.server.Valid()
    ensures r.server.Valid()
  {
    if i.StartCall? then t.(server := Start(t.server))
    else
      var s, r := t.server, Step(t.server, i.rx, i.tx, i.e).server;
      if s.phase == AtLoop && s.next == Block && r.phase.SendingFrame? then
        t.(server := r, frames := t.frames + [r.phase.frame],
           total := t.total + r.phase.frame.header.size)
      else if s.phase == AtLoop && s.next == Response && r.phase != Overflowed then
        t.(server := r, frames := [], base := t.total)
      else if r.notes == s.notes + [true] then
        t.(server := r, delivered := t.delivered + [s.snapshot])
      else t.(server := r)
  }

  function TraceRun(t: Trace, inputs: seq<Input>): (r: Trace)
    requires t.server.Valid()
    ensures r.server.Valid()
    decreases |inputs|
  {
    if inputs == [] then t else TraceRun(TraceStep(t, inputs[0]), inputs[1..])
  }

  ghost predicate Reached(s: Server, inputs: seq<Input>, t: Trace) {
    Initial(s) && t == TraceRun(Observed(s), inputs)
  }

  /** Data is loaded, but no frame has been cut. */
  predicate BeforeBlock(s: Server) {
    s.phase.SendingResponse? || s.phase == AwaitInitiate || (s.phase == AtLoop && s.next == Initiate)
  }

  /** Data is loaded, and not all of the session is over. */
  predicate InSession(s: Server) {
    BeforeBlock(s) || s.InBlock()
  }

  /** What has been delivered lies in front of the pointer; in a session, in front of the base;
      and a success that is about to be reported, too. */
  ghost predicate Delivers(t: Trace) {
    && TotalLength(t.delivered) <= t.server.cursor
    && (InSession(t.server) ==>
          && TotalLength(t.delivered) <= t.base
          && t.server.cursor + t.server.remaining == t.base + |t.server.snapshot|)
    && (t.server.success ==>
          TotalLength(t.delivered) + |t.server.snapshot| <= t.server.cursor)
  }

  ghost predicate TraceInv(t: Trace) {
    && Inv(t.server)
    && t.server.cursor == t.total
    && (t.server.InBlock() ==> |t.frames| == t.server.counter - 1)
    && (BeforeBlock(t.server) ==> t.frames == [])
    && Delivers(t)
    && forall i :: 0 <= i < |t.frames| ==>
         t.frames[i] == Frame(t.server.snapshot, t.server.Room(), i)
  }

  lemma CutFrame(s: Server, store: seq<byte>)
    requires Inv(s) && s.phase == AtLoop && s.next == Block
    ensures var r := Activate(s, store);
      && r.phase == SendingFrame(Frame(s.snapshot, s.Room(), s.counter - 1))
      && r.counter == s.counter + 1 && r.cursor == s.cursor + r.phase.frame.header.size
      && r.snapshot == s.snapshot
  {
    hide Frame, Cut, SetContinue, SetFrameNumber;
    ActivateInv(s, store);
    assert Loaded(s, s.counter - 1);
    FrameIsChunk(s);
  }

  /** Steps other than cutting a frame and reading storage leave cursor and snapshot alone. */
  lemma OtherSteps(s: Server, rx: Channel, tx: Channel, e: Env)
    requires Inv(s)
    ensures var r := Step(s, rx, tx, e).server;
      && (!(s.phase == AtLoop && s.next == Block) ==> r.cursor == s.cursor)
      && (!(s.phase == AtLoop && s.next in {Block, Response}) ==>
            && r.snapshot == s.snapshot
            && (BeforeBlock(r) ==> BeforeBlock(s))
            && (r.InBlock() ==>
                  || (s.InBlock() && r.counter == s.counter)
                  || (s.phase == AwaitInitiate && r.counter == 1)))
      && (s.phase == AtLoop && s.next == Response ==>
            !r.InBlock() && (r.phase == Overflowed ==> r.snapshot == s.snapshot))
  {
    hide CanSendTx, CanSendBlock, EncodeTx, EncodeBlock, Push, PollTx, SetContinue,
      SetFrameNumber, GetContinue, Loaded, Frame, Cut;
  }

  /** What steps other than cutting a frame and reading storage do to the accounts. */
  lemma OtherAccounts(s: Server, rx: Channel, tx: Channel, e: Env)
    requires Inv(s) && !(s.phase == AtLoop && s.next in {Block, Response})
    ensures var r := Step(s, rx, tx, e).server;
      && (InSession(r) ==> InSession(s) && r.remaining == s.remaining)
      && (r.success ==> s.phase == AwaitAck && s.remaining == 0)
      && (r.notes == s.notes + [true] ==> s.success && !r.success && !InSession(r))
  {
    hide CanSendTx, CanSendBlock, EncodeTx, EncodeBlock, Push, PollTx, SetContinue,
      SetFrameNumber, GetContinue, Loaded, Frame, Cut;
    if s.phase == AtLoop && s.next == Terminate && !s.success {
      assert (s.notes + [true])[|s.notes|] != (s.notes + [false])[|s.notes|];
    }
    assert |s.notes + [true]| > |s.notes|;
  }

  lemma ReadAccounts(s: Server, store: seq<byte>)
    requires Inv(s) && s.phase == AtLoop && s.next == Response
    ensures var r := Activate(s, store);
      && r.cursor == s.cursor && !r.success && r.notes == s.notes
      && (r.phase != Overflowed && InSession(r) ==> r.remaining == |r.snapshot|)
      && (r.phase == Overflowed ==> !InSession(r))
  {
    hide HeaderFor, Negotiate, Loaded;
  }

  lemma CutAccounts(s: Server, store: seq<byte>)
    requires Inv(s) && s.phase == AtLoop && s.next == Block
    ensures var r := Activate(s, store);
      && r.cursor + r.remaining == s.cursor + s.remaining && s.cursor <= r.cursor && !r.success
      && r.notes == s.notes
  {
    hide Frame, Cut, SetContinue, SetFrameNumber, Loaded;
  }

  lemma AppendLength(loads: seq<seq<byte>>, load: seq<byte>)
    ensures TotalLength(loads + [load]) == TotalLength(loads) + |load|
  {
    assert (loads + [load])[..|loads|] == loads;
  }

  lemma TraceStepInv(t: Trace, i: Input)
    requires TraceInv(t)
    ensures TraceInv(TraceStep(t, i))
  {
    hide Frame, Step, TotalLength, Delivers, InSession, TraceStep, PhaseInv;
    var s := t.server;
    if i.StartCall? {
      StartCallInv(t);
    } else if s.phase == AtLoop && s.next == Block {
      BlockStepInv(t, i);
    } else if s.phase == AtLoop && s.next == Response {
      ResponseStepInv(t, i);
    } else {
      OtherStepInv(t, i);
    }
  }

  lemma StartCallInv(t: Trace)
    requires TraceInv(t)
    ensures TraceInv(TraceStep(t, StartCall))
  {
    hide Inv, Frame, Step, TotalLength;
    StartInv(t.server);
  }

  lemma BlockStepInv(t: Trace, i: Input)
    requires TraceInv(t) && i.Move? && t.server.phase == AtLoop && t.server.next == Block
    ensures TraceInv(TraceStep(t, i))
  {
    hide Inv, Frame, Step, TotalLength, Activate;
    var s := t.server;
    ServerProofs.StepInv(s, i.rx, i.tx, i.e);
    StepActivates(s, i.rx, i.tx, i.e);
    CutFrame(s, i.e.store);
    CutAccounts(s, i.e.store);
  }

  lemma ResponseStepInv(t: Trace, i: Input)
    requires TraceInv(t) && i.Move? && t.server.phase == AtLoop && t.server.next == Response
    ensures TraceInv(TraceStep(t, i))
  {
    hide Inv, Frame, Step, TotalLength, Activate;
    var s := t.server;
    ServerProofs.StepInv(s, i.rx, i.tx, i.e);
    StepActivates(s, i.rx, i.tx, i.e);
    OtherSteps(s, i.rx, i.tx, i.e);
    ReadAccounts(s, i.e.store);
  }

  lemma OtherStepInv(t: Trace, i: Input)
    requires TraceInv(t) && i.Move?
    requires !(t.server.phase == AtLoop && t.server.next in {Block, Response})
    ensures TraceInv(TraceStep(t, i))
  {
    hide Inv, Frame, Step, TotalLength;
    var s := t.server;
    ServerProofs.StepInv(s, i.rx, i.tx, i.e);
    OtherSteps(s, i.rx, i.tx, i.e);
    OtherAccounts(s, i.rx, i.tx, i.e);
    AppendLength(t.delivered, s.snapshot);
  }

  lemma StepActivates(s: Server, rx: Channel, tx: Channel, e: Env)
    requires Inv(s) && s.phase == AtLoop
    ensures Step(s, rx, tx, e).server == Activate(s, e.store)
  {
    hide PhaseInv;
  }

  lemma {:induction false} TraceRunInv(t: Trace, inputs: seq<Input>)
    requires TraceInv(t)
    ensures TraceInv(TraceRun(t, inputs))
    decreases |inputs|
  {
    hide PhaseInv, TraceStep, Frame;
    if inputs != [] {
      TraceStepInv(t, inputs[0]);
      TraceRunInv(TraceStep(t, inputs[0]), inputs[1..]);
    }
  }

  lemma ReachedInv(s: Server, inputs: seq<Input>, t: Trace)
    requires Reached(s, inputs, t)
    ensures TraceInv(t) && t.server.cfg == s.cfg
  {
    InitialInv(s);
    TraceRunInv(Observed(s), inputs);
    CfgIsFixed(Observed(s), inputs);
  }

  lemma {:induction false} CfgIsFixed(t: Trace, inputs: seq<Input>)
    requires t.server.Valid()
    ensures TraceRun(t, inputs).server.cfg == t.server.cfg
    decreases |inputs|
  {
    hide Step;
    if inputs != [] {
      CfgIsFixed(TraceStep(t, inputs[0]), inputs[1..]);
    }
  }

  // ---------- main results ----------

  /** The frame limit never truncates. In BLOCK, what is left fits the frames that are left, the
      frame count stays within both the negotiated limit and ceil(L / P), the 8-bit number has
      not wrapped, and a frame says "terminate" exactly when nothing is left. */
  lemma FrameLimitNeverTruncates(s: Server, inputs: seq<Input>, t: Trace)
    requires Reached(s, inputs, t) && t.server.InBlock()
    ensures var r, built := t.server, |t.frames|;
      && built == r.counter - 1 && r.counter <= 256
      && built <= r.peer.blocks <= s.cfg.blocks
      && built <= FrameCount(r.Room(), |r.snapshot|)
      && r.remaining <= (r.peer.blocks - built) * r.Room()
      && (r.phase.SendingFrame? ==>
            (!GetContinue(r.phase.frame.header.meta) <==> r.remaining == 0))
      && (r.phase == AwaitAck ==> r.remaining == 0)
  {
    hide Frame, Cut, TraceRun;
    ReachedInv(s, inputs, t);
    var r, built := t.server, |t.frames|;
    LimitFacts(r, built);
    if r.phase.SendingFrame? {
      FrameFacts(r.snapshot, r.Room(), r.sent);
    }
  }

  lemma LimitFacts(r: Server, built: nat)
    requires Inv(r) && r.InBlock() && built == r.counter - 1
    ensures Loaded(r, built)
    ensures built <= r.peer.blocks && built <= FrameCount(r.Room(), |r.snapshot|)
    ensures r.remaining <= (r.peer.blocks - built) * r.Room()
  {
    hide Frame, Cut, FrameCount;
    var p, total, blocks := r.Room(), |r.snapshot|, r.peer.blocks;
    CutIsProduct(built, p, total);
    MulBounds(blocks, p, total);
    CutReachesEnd(blocks, p, total);
    if built > 0 {
      LastCut(r);
      CutReachesEnd(built - 1, p, total);
    }
    RestFits(built, blocks, p, total);
  }

  lemma MulBounds(blocks: nat, p: nat, total: nat)
    requires total <= p * blocks
    ensures Cut(blocks, p, total) == total
  {
    CutIsProduct(blocks, p, total);
  }

  lemma RestFits(built: nat, blocks: nat, p: nat, total: nat)
    requires built <= blocks && total <= p * blocks
    ensures total - Min(built * p, total) <= (blocks - built) * p
  {
    assert (blocks - built) * p == blocks * p - built * p;
    assert (blocks - built) * p >= 0;
  }

  /** The latest frame that was cut had something in it. */
  lemma LastCut(r: Server)
    requires Inv(r) && r.InBlock() && r.counter >= 2
    ensures Cut(r.counter - 2, r.Room(), |r.snapshot|) < |r.snapshot|
  {
    hide Frame, Cut, Loaded;
  }

  /** The server cuts exactly the reference segmentation of what it read: in BLOCK the frames so
      far are the first frames of the snapshot, their payloads and the uncut rest make it up;
      and when every frame has been sent, they are all ceil(L / P) frames. */
  lemma ServerSegmentsExactly(s: Server, inputs: seq<Input>, t: Trace)
    requires Reached(s, inputs, t) && t.server.InBlock()
    ensures var r, n := t.server, |t.frames|;
      && (forall i :: 0 <= i < n ==> t.frames[i] == Frame(r.snapshot, r.Room(), i))
      && Joined(r.snapshot, r.Room(), n) + r.mem[r.cursor..r.cursor + r.remaining] == r.snapshot
      && (r.phase == AwaitAck ==>
            n == FrameCount(r.Room(), |r.snapshot|) && Joined(r.snapshot, r.Room(), n) == r.snapshot)
  {
    hide Frame, Cut, TraceRun;
    ReachedInv(s, inputs, t);
    var r, n := t.server, |t.frames|;
    LimitFacts(r, n);
    JoinedIsPrefix(r.snapshot, r.Room(), n);
    CutReachesEnd(n, r.Room(), |r.snapshot|);
  }

  /** Buffer accounting over any number of sessions. The read pointer has advanced by exactly
      the bytes cut since construction. A storage read of n bytes runs past the allocation of P * blocks
      bytes if and only if that total plus n exceeds it; so the first session never does. */
  lemma BufferAccounting(s: Server, inputs: seq<Input>, t: Trace, e: Env)
    requires Reached(s, inputs, t)
    requires t.server.phase == AtLoop && t.server.next == Response
    ensures var r, limit := t.server, s.Room() * s.cfg.blocks;
      var n := Min(|e.store|, s.Room() * Negotiate(r.peer, s.cfg).blocks);
      && r.cursor == t.total && |r.mem| == limit
      && (Activate(r, e.store).phase == Overflowed <==> t.total + n > limit)
      && (t.total == 0 ==> Activate(r, e.store).phase != Overflowed)
  {
    hide Frame, Cut, TraceRun;
    ReachedInv(s, inputs, t);
    MulMonotone(Negotiate(t.server.peer, s.cfg).blocks, s.cfg.blocks, s.Room());
  }

  /** Conservation. From the storage read to the end of BLOCK, the pointer and the bytes that are
      left add up to where the read began plus the snapshot; and everything ever reported as
      transferred lies in front of where it began, so all of it together fits the allocation. */
  lemma Conservation(s: Server, inputs: seq<Input>, t: Trace)
    requires Reached(s, inputs, t)
    ensures InSession(t.server) ==>
      && t.server.cursor + t.server.remaining == t.base + |t.server.snapshot|
      && TotalLength(t.delivered) <= t.base
    ensures TotalLength(t.delivered) <= s.Room() * s.cfg.blocks
  {
    hide TraceRun, TotalLength, PhaseInv;
    ReachedInv(s, inputs, t);
  }
}

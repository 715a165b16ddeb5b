/** What the protocol promises, for every run: any interleaving, any timeouts, any number of
    transfers. A claim about one transfer is made when that transfer was started drained. */
module Delivery {
  import opened Bytes
  import opened Packets
  import opened Transport
  import opened Fsm
  import opened Segmentation
  import opened Protocol
  import opened SessionProofs
  import ServerFsm
  import ClientFsm
  import ServerProofs
  import SessionSteps

  /** The state after a run of two freshly constructed parties. */
  ghost predicate Reached(start: Protocol, schedule: seq<Action>, y: Protocol) {
    Initial(start) && y == Run(start, schedule)
  }

  lemma ReachedInv(start: Protocol, schedule: seq<Action>, y: Protocol)
    requires Reached(start, schedule, y)
    ensures Inv(y) && y.server.cfg == start.server.cfg && y.client.cfg == start.client.cfg
  {
    hide Inv;
    InitialInv(start);
    SessionSteps.RunInv(start, schedule);
    CfgsAreFixed(start, schedule);
  }

  lemma {:induction false} CfgsAreFixed(y: Protocol, schedule: seq<Action>)
    requires y.Valid()
    ensures Run(y, schedule).server.cfg == y.server.cfg
    ensures Run(y, schedule).client.cfg == y.client.cfg
    decreases |schedule|
  {
    hide ServerFsm.Step, ClientFsm.Step;
    if schedule != [] {
      CfgsAreFixed(Step(y, schedule[0]), schedule[1..]);
    }
  }

  // ---------- success is an exact copy ----------

  /** The destination is the whole snapshot, and whatever was behind it is untouched. */
  ghost predicate ExactCopy(c: ClientFsm.Client, snapshot: seq<byte>) {
    && 0 < |snapshot| <= |c.original|
    && c.dest == snapshot + c.original[|snapshot|..]
  }

  lemma AckedIsExactCopy(y: Protocol)
    requires Inv(y) && Claimed(y) && y.client.acked
    ensures ExactCopy(y.client, y.server.snapshot)
    ensures y.client.taken == FrameCount(y.server.Room(), |y.server.snapshot|)
  {
    hide EncodeTx, EncodeBlock, Frame, Cut, Lacks, Framed, EndsIn, UpAt, DownAt, ClientInv,
      ServerProofs.PhaseInv, ClientAt, ServerAt;
    var taken, p, total := y.client.taken, y.server.Room(), |y.server.snapshot|;
    assert y.server.snapshot[..total] == y.server.snapshot;
    CutReachesEnd(taken, p, total);
    CutReachesEnd(taken - 1, p, total);
  }

  lemma ClientReport(c: ClientFsm.Client, rx: Channel, tx: Channel, expired: bool)
    requires c.Valid()
    ensures var r := ClientFsm.Step(c, rx, tx, expired).client;
      r.notes == c.notes || (r.notes == c.notes + [c.success] && r.dest == c.dest
                             && r.original == c.original && r.taken == c.taken)
  {
    hide CanSendTx, EncodeTx, Push, ClientFsm.HearResponse, ClientFsm.HearBlock,
      ClientFsm.Activate;
    if c.phase == ClientFsm.AtLoop {
      ActivateReport(c);
    } else {
      HearingReportsNothing(c, rx, expired);
    }
  }

  lemma ActivateReport(c: ClientFsm.Client)
    requires c.Valid()
    ensures var r := ClientFsm.Activate(c);
      r.notes == c.notes || (r.notes == c.notes + [c.success] && r.dest == c.dest
                             && r.original == c.original && r.taken == c.taken)
  {}

  lemma HearingReportsNothing(c: ClientFsm.Client, rx: Channel, expired: bool)
    requires c.Valid()
    ensures ClientFsm.HearResponse(c, rx, expired).notes == c.notes
    ensures c.phase.AwaitBlock? ==> ClientFsm.HearBlock(c, rx, expired).notes == c.notes
  {
    hide PollTx, PollBlock, ClientFsm.Store;
    if c.phase.AwaitBlock? {
      StoreReportsNothing(c, PollBlock(rx, c.phase.packet, BlockMsg, c.cfg.maxLen).packet);
    }
  }

  lemma StoreReportsNothing(c: ClientFsm.Client, p: BlockPacket)
    requires c.Valid() && p.Valid()
    ensures ClientFsm.Store(c, p).notes == c.notes
  {
    hide GetContinue;
  }

  lemma ServerReport(s: ServerFsm.Server, rx: Channel, tx: Channel, e: Env)
    requires s.Valid()
    ensures var r := ServerFsm.Step(s, rx, tx, e).server;
      r.notes == s.notes || (r.notes == s.notes + [s.success] && r.snapshot == s.snapshot)
  {
    hide CanSendTx, CanSendBlock, EncodeBlock, EncodeTx, Push, PollTx, GetContinue, ServerFsm.Activate;
    if s.phase == ServerFsm.AtLoop {
      ActivationReport(s, e.store);
    }
  }

  lemma ActivationReport(s: ServerFsm.Server, store: seq<byte>)
    requires s.Valid() && s.phase == ServerFsm.AtLoop
    ensures var r := ServerFsm.Activate(s, store);
      r.notes == s.notes || (r.notes == s.notes + [s.success] && r.snapshot == s.snapshot)
  {
    hide HeaderFor, Negotiate, SetContinue, SetFrameNumber;
  }

  /** In every run, and whatever comes next: when the client reports success for a transfer that
      was started drained, its destination holds exactly the bytes the server read from storage,
      followed by what was there before; and it has stored exactly the frames of the snapshot, of
      which the last alone says "terminate". */
  ghost predicate AlwaysExact(start: Protocol)
    requires start.Valid()
  {
    forall schedule: seq<Action>, a: Action ::
      var y := Run(start, schedule);
      var z := Step(y, a);
      y.drained && z.client.notes == y.client.notes + [true] ==>
        && ExactCopy(z.client, z.server.snapshot)
        && z.client.taken == FrameCount(z.server.Room(), |z.server.snapshot|)
  }

  /** Success is an exact copy. */
  lemma SuccessIsExactCopy(start: Protocol)
    requires Initial(start) && Safe(start)
    ensures AlwaysExact(start)
  {
    hide Inv, ClientFsm.Step, ServerFsm.Step, ExactCopy, Step, Run;
    forall schedule: seq<Action>, a: Action
      | var y := Run(start, schedule); y.drained && Step(y, a).client.notes == y.client.notes + [true]
      ensures var z := Step(Run(start, schedule), a);
        && ExactCopy(z.client, z.server.snapshot)
        && z.client.taken == FrameCount(z.server.Room(), |z.server.snapshot|)
    {
      ReachedInv(start, schedule, Run(start, schedule));
      ReportIsExactCopy(Run(start, schedule), a);
    }
  }

  /** The same from any state that satisfies the invariant. */
  lemma ReportIsExactCopy(y: Protocol, a: Action)
    requires Inv(y) && y.drained && Safe(y)
    requires Step(y, a).client.notes == y.client.notes + [true]
    ensures var z := Step(y, a);
      && ExactCopy(z.client, z.server.snapshot)
      && z.client.taken == FrameCount(z.server.Room(), |z.server.snapshot|)
  {
    hide SessionInv, ServerProofs.Inv, ClientInv, ClientFsm.Step, ServerFsm.Step, ExactCopy;
    ClientHasReported(y, a);
    AckedIsExactCopy(y);
    CopyCarriesOver(y, a);
  }

  lemma ClientHasReported(y: Protocol, a: Action)
    requires Inv(y) && Step(y, a).client.notes == y.client.notes + [true]
    ensures a.ClientMove? && y.client.acked
    ensures var c, z := y.client, Step(y, a);
      z.client.dest == c.dest && z.client.original == c.original && z.client.taken == c.taken
  {
    hide ClientFsm.Step, ServerFsm.Step, SessionInv, ServerProofs.Inv, Lacks;
    if a.ClientMove? {
      ClientReport(y.client, y.down, y.up, a.expired);
      assert (y.client.notes + [true])[|y.client.notes|];
    }
  }

  lemma CopyCarriesOver(y: Protocol, a: Action)
    requires y.Valid() && a.ClientMove? && ExactCopy(y.client, y.server.snapshot)
    requires var c, r := y.client, Step(y, a).client; r.dest == c.dest && r.original == c.original
    ensures ExactCopy(Step(y, a).client, Step(y, a).server.snapshot)
  {
    hide ClientFsm.Step;
  }

  // ---------- one-sided agreement ----------

  /** The client has finished successfully: reported, or about to report. */
  predicate Succeeded(c: ClientFsm.Client) {
    if Active(c) then c.phase == ClientFsm.AtLoop && c.next == Terminate && c.success
    else c.notes != [] && c.notes[|c.notes| - 1]
  }

  lemma ServerReportsDelivery(y: Protocol, a: Action)
    requires Inv(y) && y.drained && Safe(y)
    requires Step(y, a).server.notes == y.server.notes + [true]
    ensures y.client.acked && Succeeded(y.client) && ExactCopy(y.client, y.server.snapshot)
  {
    hide SessionInv, ClientFsm.Step, ServerFsm.Step, ExactCopy, ServerProofs.Inv, Lacks;
    if a.ServerMove? {
      ServerReport(y.server, y.up, y.down, a.e);
      assert (y.server.notes + [true])[|y.server.notes|];
    }
    SuccessNeedsAck(y);
    AckedIsExactCopy(y);
  }

  /** In every run, and whatever comes next: when the server reports success for a transfer that
      was started drained, the client has already stored the whole snapshot, sent its
      acknowledgement, and succeeds. */
  ghost predicate AlwaysAgreed(start: Protocol)
    requires start.Valid()
  {
    forall schedule: seq<Action>, a: Action ::
      var y := Run(start, schedule);
      y.drained && Step(y, a).server.notes == y.server.notes + [true] ==>
        y.client.acked && Succeeded(y.client) && ExactCopy(y.client, y.server.snapshot)
  }

  lemma ServerSuccessImpliesDelivery(start: Protocol)
    requires Initial(start) && Safe(start)
    ensures AlwaysAgreed(start)
  {
    hide Inv, ClientFsm.Step, ServerFsm.Step, ExactCopy, Step, Run, Succeeded;
    forall schedule: seq<Action>, a: Action
      | var y := Run(start, schedule); y.drained && Step(y, a).server.notes == y.server.notes + [true]
      ensures var y := Run(start, schedule);
        y.client.acked && Succeeded(y.client) && ExactCopy(y.client, y.server.snapshot)
    {
      ReachedInv(start, schedule, Run(start, schedule));
      ServerReportsDelivery(Run(start, schedule), a);
    }
  }

  lemma SuccessNeedsAck(y: Protocol)
    requires Inv(y) && Claimed(y)
    ensures y.server.success ==> y.client.acked
  {
    hide EncodeTx, EncodeBlock, Frame, Cut, Lacks, Framed, EndsIn, UpAt, DownAt, ClientInv,
      ServerProofs.Inv, ClientAt, ServerAt, StoredAt, AckAt;
  }

  // ---------- the stream invariant ----------

  /** The decoded payloads of a channel of block messages, joined. */
  function Payloads(q: Channel): seq<byte> {
    if q == [] then [] else ReadBlock(FRESH_BLOCK, q[0]).buffer + Payloads(q[1..])
  }

  /** The client is in BLOCK and has not stopped taking frames. */
  predicate Accepting(c: ClientFsm.Client) {
    c.next == Block && (c.phase == ClientFsm.AtLoop || c.phase.AwaitBlock?)
  }

  /** The frame in the server's hand. */
  function Hand(s: ServerFsm.Server): seq<byte> {
    if s.phase.SendingFrame? then s.phase.frame.buffer else []
  }

  function Unsent(s: ServerFsm.Server): seq<byte>
    requires s.Valid()
  {
    s.mem[s.cursor..s.cursor + s.remaining]
  }

  lemma {:induction false} FramedPayloads(q: Channel, data: seq<byte>, p: nat, from: nat, to: nat)
    requires 0 < p <= 250 && Framed(q, data, p, from, to)
    requires to > 0 ==> Cut(to - 1, p, |data|) < |data|
    ensures Cut(from, p, |data|) <= Cut(to, p, |data|)
    ensures Payloads(q) == data[Cut(from, p, |data|)..Cut(to, p, |data|)]
    decreases |q|
  {
    hide EncodeBlock, Frame, Cut, ReadBlock;
    CutMonotone(from, to, p, |data|);
    if q != [] {
      CutMonotone(from, to - 1, p, |data|);
      FrameFacts(data, p, from);
      BlockRoundTrip(Frame(data, p, from), FRESH_BLOCK);
      assert q[0] == EncodeBlock(Frame(data, p, from + 0));
      SessionSteps.FramedRest(q, data, p, from, to);
      FramedPayloads(q[1..], data, p, from + 1, to);
    }
  }

  /** What the client has stored, and what is queued for it, is the beginning of the snapshot. */
  ghost predicate PrefixIn(y: Protocol) {
    var c, s := y.client, y.server;
    Accepting(c) ==>
      c.offset <= |c.dest| && c.dest[..c.offset] + Payloads(y.down) <= s.snapshot
  }

  /** In BLOCK, the frame in the server's hand and the bytes it has not yet cut complete it. */
  ghost predicate WholeIn(y: Protocol)
    requires y.Valid()
  {
    var c, s := y.client, y.server;
    Accepting(c) && s.InBlock() ==>
      && c.offset <= |c.dest|
      && c.dest[..c.offset] + Payloads(y.down) + Hand(s) + Unsent(s) == s.snapshot
  }

  /** Stream invariant. In every run, while the client takes frames of a drained transfer, what it
      has stored and what is queued for it is a prefix of the snapshot; and if frames fit, then
      while the server is in BLOCK, adding the frame in its hand and the bytes it has not yet cut
      makes it the whole snapshot. */
  lemma StreamInvariant(start: Protocol, schedule: seq<Action>, y: Protocol)
    requires Reached(start, schedule, y) && y.drained && Safe(start)
    ensures PrefixIn(y) && (Compatible(start) ==> WholeIn(y))
  {
    hide Inv, PrefixIn, WholeIn;
    ReachedInv(start, schedule, y);
    StreamFrom(y);
  }

  lemma StreamFrom(y: Protocol)
    requires Inv(y) && Claimed(y) && Safe(y)
    ensures PrefixIn(y) && (Compatible(y) ==> WholeIn(y))
  {
    hide EncodeTx, EncodeBlock, Frame, Cut, ReadBlock, Payloads, ServerProofs.Inv, ClientInv,
      ServerAt, ClientAt, UpAt, AckAt, SessionInv, Framed;
    if Accepting(y.client) {
      var c, snapshot, p := y.client, y.server.snapshot, y.server.Room();
      StreamParts(y);
      if Framed(y.down, snapshot, p, c.taken, y.server.sent) {
        var from, to := Cut(c.taken, p, |snapshot|), Cut(y.server.sent, p, |snapshot|);
        FramedPayloads(y.down, snapshot, p, c.taken, y.server.sent);
        assert c.dest[..from] == snapshot[..from];
        assert snapshot[..from] + snapshot[from..to] == snapshot[..to];
        if y.server.InBlock() {
          HandAndRest(y.server);
        }
      } else {
        NoPayloads();
      }
    }
  }

  lemma NoPayloads()
    ensures Payloads([]) == []
  {}

  lemma StreamParts(y: Protocol)
    requires Inv(y) && Claimed(y) && Safe(y) && Accepting(y.client)
    ensures var c, s := y.client, y.server;
      && 0 < s.Room() <= 250 && ServerProofs.Inv(s)
      && (|| Framed(y.down, s.snapshot, s.Room(), c.taken, s.sent)
          || (!Compatible(y) && y.down == [] && c.offset == 0))
      && (s.sent > 0 ==> Cut(s.sent - 1, s.Room(), |s.snapshot|) < |s.snapshot|)
      && c.offset == Cut(c.taken, s.Room(), |s.snapshot|) <= |c.dest|
      && c.dest == s.snapshot[..c.offset] + c.original[c.offset..] && |c.dest| == |c.original|
  {
    hide EncodeTx, EncodeBlock, Frame, Lacks, EndsIn, ServerAt, UpAt, AckAt, Framed,
      ServerProofs.PhaseInv;
  }

  lemma HandAndRest(s: ServerFsm.Server)
    requires ServerProofs.Inv(s) && s.InBlock()
    ensures Hand(s) + Unsent(s) == s.snapshot[Cut(s.sent, s.Room(), |s.snapshot|)..]
  {
    hide Cut, Frame;
    if s.phase.SendingFrame? {
      FrameFacts(s.snapshot, s.Room(), s.sent);
    }
  }

  ghost predicate AlwaysPrefix(start: Protocol)
    requires start.Valid()
  {
    forall schedule: seq<Action> ::
      Run(start, schedule).drained ==> PrefixIn(Run(start, schedule))
  }

  ghost predicate AlwaysWhole(start: Protocol)
    requires start.Valid()
  {
    forall schedule: seq<Action> ::
      Run(start, schedule).drained ==> WholeIn(Run(start, schedule))
  }

  lemma SafeIsPrefix(start: Protocol)
    requires Initial(start) && Safe(start)
    ensures AlwaysPrefix(start) && (Compatible(start) ==> AlwaysWhole(start))
  {
    hide Run, PrefixIn, WholeIn, Safe;
    forall schedule: seq<Action> | Run(start, schedule).drained
      ensures var y := Run(start, schedule); PrefixIn(y) && (Compatible(start) ==> WholeIn(y))
    {
      StreamInvariant(start, schedule, Run(start, schedule));
    }
  }

  // ---------- deliveries and notifications ----------

  lemma ReportedIsNoted(y: Protocol, a: Action)
    requires y.Valid()
    ensures |Step(y, a).server.notes| >= |y.server.notes| + |Reported(y, a)|
  {
    hide ServerFsm.Step, ClientFsm.Step, Drained;
    if a.ServerMove? {
      ServerReport(y.server, y.up, y.down, a.e);
    }
  }

  /** Every delivery of a run is noted. */
  lemma {:induction false} DeliveriesAreNoted(y: Protocol, schedule: seq<Action>)
    requires y.Valid()
    ensures |Run(y, schedule).server.notes| >= |y.server.notes| + |Deliveries(y, schedule)|
    decreases |schedule|
  {
    hide Step, Reported;
    if schedule != [] {
      ReportedIsNoted(y, schedule[0]);
      DeliveriesAreNoted(Step(y, schedule[0]), schedule[1..]);
    }
  }
}

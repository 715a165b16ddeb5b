/** Exactly when success is an exact copy: a condition on the two configurations that can be
    checked before the parties are connected. */
module Necessity {
  import opened Bytes
  import opened Options
  import opened Packets
  import opened Transport
  import opened Fsm
  import opened Segmentation
  import opened Protocol
  import opened SessionProofs
  import opened Delivery
  import opened Cooperation
  import ServerFsm
  import ClientFsm
  import ServerProofs
  import SessionSteps
  import AnyRun

  /** A storage of one byte more than a frame holds, whose first and last byte differ. */
  function Witness(y: Protocol): seq<byte>
    requires y.Valid()
  {
    [1] + Zeros(y.server.Room())
  }

  lemma WitnessFrames(y: Protocol)
    requires y.Valid() && y.server.snapshot == Witness(y) && y.server.Room() <= 250
    ensures After(y, 0) == y.server.Room() < |y.server.snapshot|
    ensures After(y, 1) == |y.server.snapshot|
    ensures PacketSize(FrameAt(y, 0)) == y.server.cfg.maxLen
    ensures FrameAt(y, 1).buffer == [0] && PacketSize(FrameAt(y, 1)) == 6
    ensures !GetContinue(FrameAt(y, 1).header.meta)
  {
    hide EncodeBlock, GetContinue, SetContinue, SetFrameNumber;
    var p, total := y.server.Room(), |y.server.snapshot|;
    assert Cut(0, p, total) == 0 && Cut(1, p, total) == p && Cut(2, p, total) == p + 1;
    FrameFacts(y.server.snapshot, p, 0);
    FrameFacts(y.server.snapshot, p, 1);
    assert y.server.snapshot[p..p + 1] == [0];
  }

  /** The client drops the first frame, which is too long for its buffer, and waits on. */
  lemma FirstFrameIsDropped(y: Protocol) returns (z: Protocol)
    requires Inv(y) && y.client.phase == ClientFsm.AwaitBlock(FRESH_BLOCK)
    requires y.down == [EncodeBlock(FrameAt(y, 0))]
    requires PacketSize(FrameAt(y, 0)) > y.client.cfg.maxLen && FrameAt(y, 0).header.size > 0
    ensures z == Step(y, CLIENT) && Inv(z) && z == y.(down := [])
  {
    hide SessionInv, ServerProofs.Inv, ClientInv, EncodeTx, Frame, ReadBlock, ClientFsm.Store;
    SessionSteps.StepInv(y, CLIENT);
    assert |y.down[0]| > y.client.cfg.maxLen;
    z := Step(y, CLIENT);
  }

  /** The second frame is stored where the first one belongs, and ends the transfer. */
  lemma SecondFrameIsStored(y: Protocol) returns (z: Protocol)
    requires Inv(y) && y.client.phase == ClientFsm.AwaitBlock(FRESH_BLOCK)
    requires y.server.snapshot == Witness(y) && y.server.Room() <= 250
    requires y.down == [EncodeBlock(FrameAt(y, 1))] && y.up == [] && y.client.next == Block
    requires y.client.taken == 0 && y.client.offset == 0 && y.client.dest == Zeros(|Witness(y)|)
    ensures z == Step(y, CLIENT) && Inv(z) && z.drained == y.drained && z.up == [] && z.server == y.server
    ensures z.client.phase == ClientFsm.SendingAck && z.client.dest == y.client.dest
    ensures z.client.notes == y.client.notes && z.client.taken == 1 && z.client.offset == 1
  {
    hide SessionInv, ServerProofs.Inv, ClientPhaseInv, EncodeTx, EncodeBlock, Frame, PollBlock,
      GetContinue;
    SessionSteps.StepInv(y, CLIENT);
    WitnessFrames(y);
    FrameFacts(y.server.snapshot, y.server.Room(), 1);
    DeliveredBlock(FrameAt(y, 1), FRESH_BLOCK, y.down, y.client.cfg.maxLen);
    z := Step(y, CLIENT);
    assert y.client.dest[..0] + [0] + y.client.dest[1..] == y.client.dest;
  }

  /** The acknowledgement is sent, and the next activation reports success. */
  lemma SuccessIsReported(y: Protocol) returns (z: Protocol)
    requires Inv(y) && y.client.phase == ClientFsm.SendingAck && y.up == []
    ensures z == Step(y, CLIENT) && z.drained == y.drained && z.server == y.server
    ensures z.up == [AckMessage(z.client.peer)] && z.client.peer.id != 0
    ensures z.client.dest == y.client.dest && z.client.taken == y.client.taken
    ensures z.client.offset == y.client.offset
    ensures Step(z, CLIENT).client.notes == z.client.notes + [true]
    ensures Step(z, CLIENT).client.dest == y.client.dest && Step(z, CLIENT).server == y.server
  {
    hide SessionInv, ServerProofs.Inv, EncodeTx;
    z := Step(y, CLIENT);
  }

  /** The server takes the acknowledgement, and the next activation reports success, too. */
  lemma ServerBelieves(y: Protocol) returns (z: Protocol)
    requires Inv(y) && AnyRun.TermsInv(y) && y.server.phase == ServerFsm.AwaitAck
    requires y.up == [AckMessage(y.client.peer)] && y.client.peer.id != 0
    ensures z == Step(y, Serve([])) && z.drained == y.drained && z.client == y.client
    ensures z.server.snapshot == y.server.snapshot
    ensures Step(z, Serve([])).server.notes == z.server.notes + [true]
  {
    hide SessionInv, ClientInv, EncodeTx, PollTx, AnyRun.Only, Lacks, Cut;
    DeliveredTx(ClientFsm.AckHeader(AckMsg, y.client.peer.id), y.up, AckMsg, y.server.cfg.maxLen);
    assert y.server.peer.blocks > 0 && y.server.remaining == 0;
    assert y.server.peer.id == y.client.cfg.id == y.client.peer.id;
    z := Step(y, Serve([]));
  }

  lemma LoadIsAll(y: Protocol, store: seq<byte>, dest: seq<byte>)
    requires Inv(y) && y.server.cursor == 0 && y.client.cfg.id != 0
    requires store != [] && |store| <= |dest| && |store| <= y.server.Room() * Terms(y).blocks
    ensures Feasible(y, store, dest) && Load(y, store) == store
  {
    hide SessionInv, ClientInv, ServerProofs.PhaseInv;
    MulMonotone(Terms(y).blocks, y.server.cfg.blocks, y.server.Room());
  }

  /** Fresh parties shake hands over any load that fits. */
  lemma Handshake(start: Protocol, store: seq<byte>, dest: seq<byte>)
    returns (schedule: seq<Action>, z: Protocol)
    requires Initial(start) && start.client.cfg.id != 0
    requires store != [] && |store| <= |dest| && |store| <= start.server.Room() * Terms(start).blocks
    ensures z == Run(start, schedule) && z.server.snapshot == store && Turn(z, dest, 0)
    ensures z.server.cfg == start.server.cfg && z.client.cfg == start.client.cfg
    ensures z.client.offset == 0 && z.client.dest == dest
  {
    hide SessionInv, ServerProofs.Inv, ClientInv, Step, EncodeTx, Run, Cut, Frame;
    var quiet := FreshPartiesRest(start);
    LoadIsAll(quiet, store, dest);
    var a := Asks(quiet, dest);
    var b := Answers(a, dest, store);
    z := Agrees(b, dest, store, store);
    var s0, s1 := [StartServer, Serve([])], [StartTransfer(Some(dest)), CLIENT, CLIENT];
    var s2 := [Serve(store), Serve(store), Serve(store), Serve(store)];
    var s3 := [CLIENT, CLIENT, CLIENT, CLIENT, Serve(store)];
    RunAppend(start, s0, s1);
    RunAppend(start, s0 + s1, s2);
    RunAppend(start, s0 + s1 + s2, s3);
    schedule := s0 + s1 + s2 + s3;
  }

  lemma WitnessFits(y: Protocol)
    requires y.Valid() && !Safe(y)
    ensures |Witness(y)| <= y.server.Room() * Terms(y).blocks
  {
    MulMonotone(2, Terms(y).blocks, y.server.Room());
  }

  /** The first frame is sent and lost, the second is queued. */
  lemma FirstIsLost(y: Protocol) returns (schedule: seq<Action>, z: Protocol)
    requires y.Valid() && Turn(y, Zeros(|Witness(y)|), 0) && y.server.snapshot == Witness(y)
    requires y.client.offset == 0 && y.client.dest == Zeros(|Witness(y)|)
    requires y.server.cfg.maxLen > y.client.cfg.maxLen
    ensures z == Run(y, schedule) && Inv(z) && z.drained && z.server.phase == ServerFsm.AwaitAck
    ensures z.up == [] && z.down == [EncodeBlock(FrameAt(z, 1))] && z.server.sent == 2
    ensures z.client.phase == ClientFsm.AwaitBlock(FRESH_BLOCK) && z.client.next == Block
    ensures z.client.taken == 0 && z.client.offset == 0 && z.client.dest == y.client.dest
    ensures z.server.snapshot == Witness(z) == Witness(y) && z.server.Room() <= 250
  {
    hide SessionInv, ServerProofs.Inv, ClientInv, Step, EncodeBlock, Frame, Cut;
    WitnessFrames(y);
    var a := ServerCuts(y, 0, []);
    var b := ServerSends(a, 0, []);
    var c := ClientOpens(b);
    var d := FirstFrameIsDropped(c);
    var e := ServerCuts(d, 1, []);
    z := ServerSends(e, 1, []);
    RunTwice(y, Serve([]), Serve([]));
    RunTwice(b, CLIENT, CLIENT);
    RunTwice(d, Serve([]), Serve([]));
    RunAppend(y, [Serve([]), Serve([])], [CLIENT, CLIENT]);
    schedule := [Serve([]), Serve([])] + [CLIENT, CLIENT] + [Serve([]), Serve([])];
    RunAppend(y, [Serve([]), Serve([])] + [CLIENT, CLIENT], [Serve([]), Serve([])]);
  }

  lemma WitnessIsNotZero(y: Protocol, c: ClientFsm.Client)
    requires y.Valid() && c.dest == Zeros(|Witness(y)|)
    ensures !ExactCopy(c, Witness(y))
  {
    assert Zeros(|Witness(y)|)[0] != Witness(y)[0];
  }

  lemma LostStart(start: Protocol) returns (schedule: seq<Action>, z: Protocol)
    requires Initial(start) && !Safe(start)
    ensures z == Run(start, schedule) && Inv(z) && z.drained && z.server.phase == ServerFsm.AwaitAck
    ensures z.up == [] && z.down == [EncodeBlock(FrameAt(z, 1))] && z.server.sent == 2
    ensures z.client.phase == ClientFsm.AwaitBlock(FRESH_BLOCK) && z.client.next == Block
    ensures z.client.taken == 0 && z.client.offset == 0 && z.client.dest == Zeros(|Witness(z)|)
    ensures z.server.snapshot == Witness(z) && z.server.Room() <= 250
  {
    hide Step, Run, EncodeTx, EncodeBlock, Inv, Frame, Cut;
    WitnessFits(start);
    var s1, y := Handshake(start, Witness(start), Zeros(|Witness(start)|));
    var s2, end := FirstIsLost(y);
    RunAppend(start, s1, s2);
    schedule, z := s1 + s2, end;
  }

  lemma SecondFrame(y: Protocol, z: Protocol)
    requires y.Valid() && y.server.snapshot == Witness(y) && y.server.Room() <= 250
    requires z.Valid() && z.server == y.server && z.client.dest == Zeros(|Witness(y)|)
    ensures z.client.dest != [] && z.client.dest[..1] == FrameAt(z, 1).buffer
  {
    hide Frame;
    WitnessFrames(y);
  }

  /** A run that ends with both parties about to report success and with wrong bytes: two frames
      were sent, one was stored, and it is the second one that stands where the first belongs. */
  lemma UnsafeRun(start: Protocol) returns (schedule: seq<Action>, z: Protocol)
    requires Initial(start) && !Safe(start)
    ensures z == Run(start, schedule) && z.drained && z.server.phase == ServerFsm.AwaitAck
    ensures z.server.sent == 2 && z.client.taken == 1 && z.client.offset == 1
    ensures z.client.dest != [] && z.client.dest[..1] == FrameAt(z, 1).buffer
    ensures z.up == [AckMessage(z.client.peer)] && z.client.peer.id != 0
    ensures !ExactCopy(z.client, z.server.snapshot)
    ensures Step(z, CLIENT).client.notes == z.client.notes + [true]
    ensures !ExactCopy(Step(z, CLIENT).client, Step(z, CLIENT).server.snapshot)
  {
    hide Step, Run, ExactCopy, Witness, EncodeTx, EncodeBlock, Inv, Frame, Cut;
    var s1, y := LostStart(start);
    var g := SecondFrameIsStored(y);
    z := SuccessIsReported(g);
    RunTwice(y, CLIENT, CLIENT);
    RunAppend(start, s1, [CLIENT, CLIENT]);
    SecondFrame(y, z);
    WitnessIsNotZero(y, z.client);
    WitnessIsNotZero(y, Step(z, CLIENT).client);
    schedule := s1 + [CLIENT, CLIENT];
  }

  /** For every two fresh parties: success is always an exact copy if and only if the
      configurations are safe. They are unsafe exactly when the server's packets are longer than
      the client's, a transfer may have two frames, and the client's identifier is not zero. */
  lemma ExactCopyIffSafe(start: Protocol)
    requires Initial(start)
    ensures AlwaysExact(start) <==> Safe(start)
  {
    hide Step, Run, ExactCopy, EncodeTx;
    if Safe(start) {
      SuccessIsExactCopy(start);
    } else {
      var schedule, z := UnsafeRun(start);
    }
  }

  /** The same condition decides whether the server's reports can be trusted. */
  lemma ServerAgreesIffSafe(start: Protocol)
    requires Initial(start)
    ensures AlwaysAgreed(start) <==> Safe(start)
  {
    hide Step, Run, ExactCopy, EncodeTx, Inv, AnyRun.TermsInv, Succeeded;
    if Safe(start) {
      ServerSuccessImpliesDelivery(start);
    } else {
      var schedule, z := UnsafeRun(start);
      ReachedInv(start, schedule, z);
      AnyRun.OneSetOfTerms(start);
      assert AnyRun.TermsInv(Run(start, schedule));
      var w := ServerBelieves(z);
      RunAppend(start, schedule, [Serve([])]);
      RunOne(z, Serve([]));
      assert Run(start, schedule + [Serve([])]) == w;
      assert !ExactCopy(w.client, w.server.snapshot);
    }
  }

  // ---------- the stream ----------

  /** The lost frame leaves a hole: what is queued does not begin the snapshot. */
  lemma HoleInTheStream(y: Protocol)
    requires y.Valid() && y.server.snapshot == Witness(y) && y.server.Room() <= 250
    requires y.client.phase.AwaitBlock? && y.client.next == Block && y.client.offset == 0
    requires y.down == [EncodeBlock(FrameAt(y, 1))]
    ensures !PrefixIn(y)
  {
    hide EncodeBlock, Frame, ReadBlock, GetContinue;
    WitnessFrames(y);
    FrameFacts(y.server.snapshot, y.server.Room(), 1);
    BlockRoundTrip(FrameAt(y, 1), FRESH_BLOCK);
    assert y.down[1..] == [];
    assert y.client.dest[..0] + [0] == [0];
    assert y.server.snapshot[0] == 1;
  }

  /** What is stored and queued for a drained transfer is always a prefix of the snapshot, if and
      only if the configurations are safe. */
  lemma PrefixIffSafe(start: Protocol)
    requires Initial(start)
    ensures AlwaysPrefix(start) <==> Safe(start)
  {
    hide Run, PrefixIn, WholeIn, Safe, EncodeBlock, Inv;
    if Safe(start) {
      SafeIsPrefix(start);
    } else {
      var schedule, z := LostStart(start);
      InvIsValid(z);
      HoleInTheStream(z);
    }
  }

  lemma OneFullFrame(y: Protocol)
    requires y.Valid() && y.server.snapshot == Zeros(y.server.Room()) && y.server.Room() <= 250
    ensures After(y, 0) == |y.server.snapshot| && 0 < FrameAt(y, 0).header.size
    ensures PacketSize(FrameAt(y, 0)) == y.server.cfg.maxLen
    ensures Cut(0, y.server.Room(), |y.server.snapshot|) < |y.server.snapshot|
  {
    hide EncodeBlock, GetContinue, SetContinue, SetFrameNumber;
    var p := y.server.Room();
    assert Cut(0, p, p) == 0 && Cut(1, p, p) == p;
    FrameFacts(y.server.snapshot, p, 0);
  }

  /** A single frame that is too long is sent and lost, and everybody waits. */
  lemma LostFrame(y: Protocol, store: seq<byte>) returns (z: Protocol)
    requires y.Valid() && Turn(y, Zeros(y.server.Room()), 0)
    requires y.server.snapshot == Zeros(y.server.Room()) && y.client.offset == 0
    requires !Compatible(y)
    ensures z == Run(y, [Serve(store), Serve(store)] + [CLIENT, CLIENT])
    ensures z.Valid() && z.drained && !WholeIn(z)
    ensures z.up == [] && z.down == [] && z.server.phase == ServerFsm.AwaitAck && z.client.phase.AwaitBlock?
  {
    hide SessionInv, ClientInv, Step, EncodeBlock, Frame, Cut, ServerProofs.Loaded;
    OneFullFrame(y);
    var a := ServerCuts(y, 0, store);
    var b := ServerSends(a, 0, store);
    var c := ClientOpens(b);
    z := FirstFrameIsDropped(c);
    RunTwice(y, Serve(store), Serve(store));
    RunTwice(b, CLIENT, CLIENT);
    RunAppend(y, [Serve(store), Serve(store)], [CLIENT, CLIENT]);
    NothingLeft(z.server);
    assert z.client.dest[..0] + Payloads([]) + [] + [] == [];
  }

  lemma NothingLeft(s: ServerFsm.Server)
    requires ServerProofs.Inv(s) && s.phase == ServerFsm.AwaitAck
    ensures Hand(s) == [] && Unsent(s) == []
  {
    hide Cut, ServerProofs.Loaded;
  }

  lemma HopelessNeverAccepts(y: Protocol)
    requires Inv(y) && AnyRun.TermsInv(y) && AnyRun.Hopeless(y)
    ensures WholeIn(y)
  {
    hide SessionInv, ServerProofs.Inv, AnyRun.Only, Lacks, EncodeTx, Payloads;
  }

  lemma FrameFits(y: Protocol)
    requires y.Valid() && Terms(y).blocks > 0
    ensures y.server.Room() <= y.server.Room() * Terms(y).blocks
  {
    MulMonotone(1, Terms(y).blocks, y.server.Room());
  }

  /** While both parties are in BLOCK, stored, queued, held and uncut bytes make up the snapshot,
      if and only if the server's frames fit the client's buffer or no frame is ever sent. */
  lemma WholeIffCompatible(start: Protocol)
    requires Initial(start)
    ensures AlwaysWhole(start) <==> Compatible(start) || AnyRun.Hopeless(start)
  {
    hide Run, PrefixIn, WholeIn, EncodeTx, Cut, Inv, AnyRun.TermsInv;
    if Compatible(start) {
      SafeIsPrefix(start);
    } else if AnyRun.Hopeless(start) {
      AnyRun.OneSetOfTerms(start);
      forall schedule: seq<Action> ensures WholeIn(Run(start, schedule)) {
        ReachedInv(start, schedule, Run(start, schedule));
        assert AnyRun.TermsInv(Run(start, schedule));
        HopelessNeverAccepts(Run(start, schedule));
      }
    } else {
      var data := Zeros(start.server.Room());
      FrameFits(start);
      var s1, y := Handshake(start, data, data);
      var z := LostFrame(y, []);
      RunAppend(start, s1, [Serve([]), Serve([])] + [CLIENT, CLIENT]);
      assert Run(start, s1 + ([Serve([]), Serve([])] + [CLIENT, CLIENT])) == z;
    }
  }
}

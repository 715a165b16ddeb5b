/** What the channels between the parties hold, and what they let through. */
module Channels {
  import opened Bytes
  import opened Options
  import opened Packets
  import opened Transport
  import opened Fsm
  import opened Segmentation
  import opened Protocol
  import opened SessionProofs
  import opened Cooperation
  import ServerFsm
  import ClientFsm
  import ServerProofs
  import ServerRuns
  import SessionSteps
  import AnyRun
  import Delivery
  import Progress
  import Necessity
  import Sessions

  // ---------- one channel ----------

  /** The channel after a sequence of attempts to send. */
  function SendAll(q: Channel, ms: seq<Message>): Channel
    decreases |ms|
  {
    if ms == [] then q else SendAll(Push(q, ms[0]), ms[1..])
  }

  /** What a receiver gets that polls until nothing is left. */
  function ReceiveAll(q: Channel): seq<Message>
    decreases |q|
  {
    if q == [] then [] else [q[0]] + ReceiveAll(Rest(q))
  }

  lemma {:induction false} SentAreQueued(q: Channel, ms: seq<Message>)
    requires |q| <= 20 && forall i :: 0 <= i < |ms| ==> ms[i] != []
    ensures SendAll(q, ms) == q + ms[..Min(|ms|, 20 - |q|)]
    decreases |ms|
  {
    if ms != [] {
      SentAreQueued(Push(q, ms[0]), ms[1..]);
      if |q| < 20 {
        var n := Min(|ms| - 1, 19 - |q|);
        assert q + [ms[0]] + ms[1..][..n] == q + ms[..n + 1];
      }
    }
  }

  lemma {:induction false} QueuedAreReceived(q: Channel)
    ensures ReceiveAll(q) == q
    decreases |q|
  {
    if q != [] {
      QueuedAreReceived(Rest(q));
    }
  }

  /** A channel holds twenty messages. Of any non-empty messages sent into an empty channel, the
      first twenty are accepted and come out again, whole and in order; all others are refused. */
  lemma HoldsTwenty(ms: seq<Message>)
    requires forall i :: 0 <= i < |ms| ==> ms[i] != []
    ensures forall i :: 0 <= i < |ms| ==> (Accepts(SendAll([], ms[..i]), ms[i]) <==> i < 20)
    ensures ReceiveAll(SendAll([], ms)) == ms[..Min(|ms|, 20)]
  {
    hide SendAll, ReceiveAll;
    forall i | 0 <= i < |ms| ensures Accepts(SendAll([], ms[..i]), ms[i]) <==> i < 20 {
      SentAreQueued([], ms[..i]);
    }
    SentAreQueued([], ms);
    QueuedAreReceived(SendAll([], ms));
    assert [] + ms[..Min(|ms|, 20)] == ms[..Min(|ms|, 20)];
  }

  // ---------- messages with a CRC ----------

  /** A transaction message with a CRC other than 0 is taken off the channel, and that is all, at
      either party and in every state that polls for one. */
  lemma BadTxCrcIsDropped(y: Protocol, e: Env, expired: bool)
    requires y.Valid()
    ensures y.server.phase in {ServerFsm.AwaitRequest, ServerFsm.AwaitInitiate, ServerFsm.AwaitAck}
            && !e.expired && y.up != [] && (At(y.up[0], 8) != 0 || At(y.up[0], 9) != 0)
      ==> Step(y, ServerMove(e)) == y.(up := y.up[1..])
    ensures y.client.phase == ClientFsm.AwaitResponse && !expired
            && y.down != [] && (At(y.down[0], 8) != 0 || At(y.down[0], 9) != 0)
      ==> Step(y, ClientMove(expired)) == y.(down := y.down[1..])
  {
    hide PollTx;
    if y.up != [] && (At(y.up[0], 8) != 0 || At(y.up[0], 9) != 0) {
      BadTxCrc(y.up, y.server.cfg.maxLen);
    }
    if y.down != [] && (At(y.down[0], 8) != 0 || At(y.down[0], 9) != 0) {
      BadTxCrc(y.down, y.client.cfg.maxLen);
    }
  }

  lemma BadTxCrc(q: Channel, maxLen: nat)
    requires q != [] && (At(q[0], 8) != 0 || At(q[0], 9) != 0)
    ensures forall want :: PollTx(q, want, maxLen) == None
  {
    hide Gather16, Gather32, TypeOf, TypeCode;
    Read16(q[0], 8);
    Sessions.NoCrc(At(q[0], 8), At(q[0], 9));
  }

  /** So is a block message, but for what the client's packet object keeps of it. */
  lemma BadBlockCrcIsDropped(y: Protocol)
    requires y.Valid() && y.client.phase.AwaitBlock? && y.down != []
    requires At(y.down[0], 2) != 0 || At(y.down[0], 3) != 0
    ensures var z := Step(y, ClientMove(false));
      && z.client.phase.AwaitBlock?
      && z == y.(down := y.down[1..], client := y.client.(phase := z.client.phase))
  {
    hide ReadBlock, Gather16, TypeOf, TypeCode, ClientFsm.Store;
    Read16(y.down[0], 2);
    Sessions.NoCrc(At(y.down[0], 2), At(y.down[0], 3));
  }

  // ---------- how full the channels get ----------

  predicate AtMostTwenty(y: Protocol) {
    |y.up| <= 20 && |y.down| <= 20
  }

  lemma StepAtMostTwenty(y: Protocol, a: Action)
    requires y.Valid() && AtMostTwenty(y)
    ensures AtMostTwenty(Step(y, a))
  {
    hide EncodeTx, EncodeBlock, PollTx, PollBlock, ServerFsm.Activate, ClientFsm.Activate, ClientFsm.Store,
      GetContinue, ServerFsm.Start, ClientFsm.Start, Drained;
  }

  lemma {:induction false} RunAtMostTwenty(y: Protocol, schedule: seq<Action>)
    requires y.Valid() && AtMostTwenty(y)
    ensures AtMostTwenty(Run(y, schedule))
    decreases |schedule|
  {
    hide Step, AtMostTwenty;
    if schedule != [] {
      StepAtMostTwenty(y, schedule[0]);
      RunAtMostTwenty(Step(y, schedule[0]), schedule[1..]);
    }
  }

  // ---------- how far the server gets ahead ----------

  /** A drained transfer is in BLOCK at both parties, and the server is `k` frames ahead. */
  predicate Ahead(y: Protocol, k: nat) {
    && y.drained && y.clientStage == Initiated && y.serverStage == Streaming
    && y.client.phase == ClientFsm.AtLoop && y.client.next == Block
    && y.server.sent == y.client.taken + k && |y.down| == k
  }

  ghost predicate CanGetAhead(start: Protocol, k: nat)
    requires start.Valid()
  {
    exists schedule: seq<Action> :: Ahead(Run(start, schedule), k)
  }

  lemma SentWithinBlocks(y: Protocol)
    requires Inv(y) && Claimed(y) && y.serverStage == Streaming
    ensures y.server.sent <= Terms(y).blocks
  {
    hide EncodeTx, EncodeBlock, Frame, Cut, ServerProofs.PhaseInv, ClientInv, ClientAt, ServerAt, UpAt,
      DownAt, StoredAt, AckAt, Negotiate;
    SessionSteps.WorkingClient(y);
    var p, total, k := y.server.Room(), |y.server.snapshot|, y.server.sent;
    if k > Terms(y).blocks {
      CutIsProduct(k - 1, p, total);
      MulMonotone(Terms(y).blocks, k - 1, p);
    }
  }

  /** The server cuts a frame and sends it; the client does nothing. */
  lemma GetsOneAhead(y: Protocol, k: nat, store: seq<byte>) returns (z: Protocol)
    requires Inv(y) && Compatible(y) && Ahead(y, k) && k < 20
    requires y.server.phase == ServerFsm.AtLoop && y.server.next == Block
    ensures z == Run(y, [Serve(store), Serve(store)]) && Inv(z) && Compatible(z) && Ahead(z, k + 1)
    ensures z.client == y.client && z.server.snapshot == y.server.snapshot && z.server.cfg == y.server.cfg
    ensures Cut(z.server.sent, z.server.Room(), |z.server.snapshot|) < |z.server.snapshot| ==>
      z.server.phase == ServerFsm.AtLoop && z.server.next == Block
  {
    hide EncodeTx, EncodeBlock, Frame, Cut, Inv, Step, Run;
    InvIsValid(y);
    var a := CutsOne(y, store);
    z := SendsOne(a, store);
    RunTwice(y, Serve(store), Serve(store));
  }

  lemma CutsOne(y: Protocol, store: seq<byte>) returns (z: Protocol)
    requires Inv(y) && y.server.phase == ServerFsm.AtLoop && y.server.next == Block
    ensures z == Step(y, Serve(store)) && Inv(z)
    ensures z == y.(server := z.server) && z.server.cfg == y.server.cfg
    ensures z.server.phase.SendingFrame? && z.server.sent == y.server.sent
    ensures z.server.snapshot == y.server.snapshot
  {
    hide EncodeTx, EncodeBlock, Frame, Cut, ClientInv, SessionInv, SetContinue, SetFrameNumber;
    SessionSteps.StepInv(y, Serve(store));
    ServerRuns.CutFrame(y.server, store);
    z := Step(y, Serve(store));
  }

  lemma SendsOne(y: Protocol, store: seq<byte>) returns (z: Protocol)
    requires Inv(y) && y.server.phase.SendingFrame? && |y.down| < 20
    ensures z == Step(y, Serve(store)) && Inv(z)
    ensures z.client == y.client && z.drained == y.drained && z.clientStage == y.clientStage
    ensures z.serverStage == y.serverStage && |z.down| == |y.down| + 1
    ensures z.server.sent == y.server.sent + 1 && z.server.snapshot == y.server.snapshot
    ensures z.server.cfg == y.server.cfg
    ensures Cut(z.server.sent, z.server.Room(), |z.server.snapshot|) < |z.server.snapshot| ==>
      z.server.phase == ServerFsm.AtLoop && z.server.next == Block
  {
    hide EncodeTx, EncodeBlock, Frame, Cut, ClientInv, SessionInv, GetContinue, ServerFsm.TryFrame,
      ServerProofs.Loaded;
    SessionSteps.StepInv(y, Serve(store));
    FrameFacts(y.server.snapshot, y.server.Room(), y.server.sent);
    Progress.FrameOffered(y.server, y.server.phase.frame, y.up, y.down);
    z := Step(y, Serve(store));
    if z.server.InBlock() {
      Progress.AllCut(z.server);
    }
  }

  lemma {:induction false} GetsAhead(y: Protocol, k: nat, n: nat, store: seq<byte>)
    returns (schedule: seq<Action>, z: Protocol)
    requires Inv(y) && Compatible(y) && Ahead(y, k) && y.client.taken == 0 && k <= n <= 20
    requires k < n ==> y.server.phase == ServerFsm.AtLoop && y.server.next == Block
    requires n > 0 ==> Cut(n - 1, y.server.Room(), |y.server.snapshot|) < |y.server.snapshot|
    ensures z == Run(y, schedule) && Ahead(z, n)
    decreases n - k
  {
    hide Inv, Cut, Step, Ahead;
    InvIsValid(y);
    if k == n {
      schedule, z := [], y;
    } else {
      z := GetsOneAhead(y, k, store);
      var sent := [Serve(store), Serve(store)];
      assert z.server.sent == k + 1 by { AheadOf(z, k + 1); }
      if k + 1 < n {
        CutMonotone(k + 1, n - 1, z.server.Room(), |z.server.snapshot|);
      }
      var more, end := GetsAhead(z, k + 1, n, store);
      RunAppend(y, sent, more);
      schedule, z := sent + more, end;
    }
  }

  lemma AheadOf(y: Protocol, k: nat)
    requires Ahead(y, k)
    ensures y.server.sent == y.client.taken + k
  {}

  /** A load of n full frames. */
  lemma FullFrames(p: nat, n: nat, blocks: nat)
    requires 0 < n <= blocks && p > 0
    ensures 0 < p * n <= p * blocks && Cut(n - 1, p, p * n) < p * n
  {
    CutIsProduct(n - 1, p, p * n);
    MulMonotone(n, blocks, p);
    assert p * n == (n - 1) * p + p && (n - 1) * p >= 0;
  }

  lemma FromTheStart(start: Protocol, k: nat) returns (schedule: seq<Action>, z: Protocol)
    requires Initial(start) && Compatible(start) && !AnyRun.Hopeless(start)
    requires k <= 20 && k <= Terms(start).blocks
    ensures z == Run(start, schedule) && Ahead(z, k)
  {
    hide Inv, Cut, Step, Run, Negotiate;
    var p, n := start.server.Room(), if k == 0 then 1 else k;
    FullFrames(p, n, Terms(start).blocks);
    var data := Zeros(p * n);
    var s1, y := Necessity.Handshake(start, data, data);
    InvIsValid(y);
    var s2, end := GetsAhead(y, 0, k, []);
    RunAppend(start, s1, s2);
    schedule, z := s1 + s2, end;
  }

  /** How far the server can get ahead. For every two fresh parties whose frames fit, with any
      hope of success: while the client polls nothing, the server can be k frames ahead of it if
      and only if k is at most 20 and at most the negotiated number of blocks. */
  lemma AheadIsExact(start: Protocol, k: nat)
    requires Initial(start) && Compatible(start) && !AnyRun.Hopeless(start)
    ensures CanGetAhead(start, k) <==> k <= 20 && k <= Terms(start).blocks
  {
    hide Inv, Cut, Step, Run, Negotiate;
    if CanGetAhead(start, k) {
      var schedule :| Ahead(Run(start, schedule), k);
      var y := Run(start, schedule);
      Delivery.ReachedInv(start, schedule, y);
      RunAtMostTwenty(start, schedule);
      SentWithinBlocks(y);
    }
    if k <= 20 && k <= Terms(start).blocks {
      var schedule, z := FromTheStart(start, k);
    }
  }

  /** In every run, neither channel ever holds more than twenty messages. */
  lemma NeverMoreThanTwenty(start: Protocol, schedule: seq<Action>, y: Protocol)
    requires Delivery.Reached(start, schedule, y)
    ensures |y.up| <= 20 && |y.down| <= 20
  {
    RunAtMostTwenty(start, schedule);
  }

  lemma ResponseHeldUp(y: Protocol, e: Env)
    requires y.Valid() && !e.expired && y.server.phase.SendingResponse?
    ensures if |y.down| >= 20 then Step(y, ServerMove(e)) == y
            else |Step(y, ServerMove(e)).down| == |y.down| + 1
  {
    hide EncodeTx;
  }

  lemma FrameHeldUp(y: Protocol, e: Env)
    requires Inv(y) && !e.expired && y.server.phase.SendingFrame?
    ensures if |y.down| >= 20 then Step(y, ServerMove(e)) == y
            else |Step(y, ServerMove(e)).down| == |y.down| + 1
  {
    hide EncodeBlock, Frame, Cut, ClientInv, SessionInv, GetContinue, ServerProofs.Loaded;
    FrameFacts(y.server.snapshot, y.server.Room(), y.server.sent);
  }

  lemma ClientHeldUp(y: Protocol)
    requires y.Valid() && y.client.phase in {ClientFsm.SendingRequest, ClientFsm.SendingInitiate,
                                             ClientFsm.SendingAck, ClientFsm.SendingAckNot}
    ensures if |y.up| >= 20 then Step(y, ClientMove(false)) == y
            else |Step(y, ClientMove(false)).up| == |y.up| + 1
  {
    hide EncodeTx;
  }

  /** With twenty messages queued, a party that wants to send stays where it is until there is room
      or its timer expires; with fewer, it sends. */
  lemma FullChannelHoldsUp(y: Protocol, e: Env)
    requires Inv(y) && !e.expired
    ensures y.server.phase.SendingResponse? || y.server.phase.SendingFrame? ==>
      if |y.down| >= 20 then Step(y, ServerMove(e)) == y
      else |Step(y, ServerMove(e)).down| == |y.down| + 1
    ensures y.client.phase in {ClientFsm.SendingRequest, ClientFsm.SendingInitiate, ClientFsm.SendingAck,
                               ClientFsm.SendingAckNot} ==>
      if |y.up| >= 20 then Step(y, ClientMove(false)) == y
      else |Step(y, ClientMove(false)).up| == |y.up| + 1
  {
    hide Inv, Step;
    InvIsValid(y);
    if y.server.phase.SendingResponse? {
      ResponseHeldUp(y, e);
    } else if y.server.phase.SendingFrame? {
      FrameHeldUp(y, e);
    }
    if y.client.phase in {ClientFsm.SendingRequest, ClientFsm.SendingInitiate, ClientFsm.SendingAck,
                          ClientFsm.SendingAckNot} {
      ClientHeldUp(y);
    }
  }
}

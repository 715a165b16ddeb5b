/** Exactly which sequences of loads two fresh parties can transfer before the server has to be
    constructed anew: those whose total fits its allocation. */
module Capacity {
  import opened Bytes
  import opened Options
  import opened Packets
  import opened Transport
  import opened Fsm
  import opened Segmentation
  import opened Protocol
  import opened SessionProofs
  import opened Cooperation
  import opened ServerRuns
  import ServerFsm
  import ClientFsm
  import ServerProofs
  import SessionSteps
  import AnyRun
  import Delivery
  import WiredRuns

  /** A load that a single transfer can carry. */
  predicate Carries(y: Protocol, load: seq<byte>)
    requires y.Valid()
  {
    0 < |load| <= y.server.Room() * Terms(y).blocks
  }

  // ---------- what is reported as transferred can be carried ----------

  ghost predicate SuccessCarried(y: Protocol)
    requires y.Valid()
  {
    y.server.success ==> Carries(y, y.server.snapshot)
  }

  lemma AckedIsCarried(s: ServerFsm.Server, client: Config)
    requires ServerProofs.Inv(s) && AnyRun.ServerTerms(s, client) && s.phase == ServerFsm.AwaitAck
    ensures 0 < |s.snapshot| <= s.Room() * Negotiate(client, s.cfg).blocks
  {
    hide Cut, Negotiate;
  }

  lemma StepCarried(y: Protocol, a: Action)
    requires Inv(y) && AnyRun.TermsInv(y) && SuccessCarried(y)
    ensures SuccessCarried(Step(y, a))
    ensures forall load :: load in Reported(y, a) ==> Carries(y, load)
  {
    hide ServerFsm.Step, ClientFsm.Step, SessionInv, ClientInv, AnyRun.Only, Lacks, AnyRun.ServerTerms,
      ServerProofs.Inv, Negotiate;
    if a.ServerMove? {
      ServerStepCarried(y.server, y.up, y.down, a.e, y.client.cfg);
    }
    assert |y.server.notes + [true]| > |y.server.notes|;
  }

  lemma ServerStepCarried(s: ServerFsm.Server, rx: Channel, tx: Channel, e: Env, client: Config)
    requires ServerProofs.Inv(s) && AnyRun.ServerTerms(s, client)
    requires s.success ==> 0 < |s.snapshot| <= s.Room() * Negotiate(client, s.cfg).blocks
    ensures var r := ServerFsm.Step(s, rx, tx, e).server;
      && (r.success ==> 0 < |r.snapshot| <= r.Room() * Negotiate(client, r.cfg).blocks)
      && (r.notes == s.notes + [true] ==> s.success)
  {
    hide Negotiate, ServerProofs.PhaseInv, AnyRun.ServerTerms;
    if s.phase == ServerFsm.AtLoop && s.next in {Block, Response} {
      StepActivates(s, rx, tx, e);
      if s.next == Block {
        CutAccounts(s, e.store);
      } else {
        ReadAccounts(s, e.store);
      }
      assert |s.notes + [true]| > |s.notes|;
    } else {
      OtherSteps(s, rx, tx, e);
      OtherAccounts(s, rx, tx, e);
      if s.phase == ServerFsm.AwaitAck {
        AckedIsCarried(s, client);
      }
    }
  }

  lemma {:induction false} RunCarried(y: Protocol, schedule: seq<Action>)
    requires Inv(y) && AnyRun.TermsInv(y) && SuccessCarried(y)
    ensures forall load :: load in Deliveries(y, schedule) ==> Carries(y, load)
    decreases |schedule|
  {
    hide Step, ServerProofs.Inv, ClientInv, SessionInv, AnyRun.TermsInv, Carries, Reported;
    if schedule != [] {
      var a := schedule[0];
      SessionSteps.StepInv(y, a);
      AnyRun.StepTerms(y, a);
      StepCarried(y, a);
      RunCarried(Step(y, a), schedule[1..]);
      SameCarries(y, a);
    }
  }

  lemma SameCarries(y: Protocol, a: Action)
    requires y.Valid()
    ensures forall load :: Carries(y, load) <==> Carries(Step(y, a), load)
  {
    hide ServerFsm.Step, ClientFsm.Step;
  }

  // ---------- the capacity ----------

  /** Some run delivers exactly these loads, one after the other. */
  ghost predicate CanDeliver(start: Protocol, loads: seq<seq<byte>>)
    requires start.Valid()
  {
    exists schedule: seq<Action> :: Deliveries(start, schedule) == loads
  }

  /** Each of these loads fits a transfer, and together they fit the server's allocation. */
  ghost predicate FitsAllocation(y: Protocol, loads: seq<seq<byte>>)
    requires y.Valid()
  {
    && (forall i :: 0 <= i < |loads| ==> Carries(y, loads[i]))
    && TotalLength(loads) <= y.server.Room() * y.server.cfg.blocks
  }

  lemma WholeLoad(y: Protocol, load: seq<byte>)
    requires y.Valid() && Carries(y, load)
    ensures Load(y, load) == load
  {
    assert load[..|load|] == load;
  }

  lemma {:induction false} LoadsOf(y: Protocol, loads: seq<seq<byte>>)
    requires y.Valid() && forall i :: 0 <= i < |loads| ==> Carries(y, loads[i])
    ensures Loads(y, loads) == loads && TotalLoad(y, loads) == TotalLength(loads)
    ensures forall i :: 0 <= i < |loads| ==> Load(y, loads[i]) == loads[i]
  {
    hide Load, Carries;
    if loads != [] {
      WholeLoad(y, loads[0]);
      assert forall i :: 0 < i < |loads| ==> loads[i] == loads[1..][i - 1];
      LoadsOf(y, loads[1..]);
      FrontLength(loads);
    }
  }

  lemma {:induction false} FrontLength(loads: seq<seq<byte>>)
    requires loads != []
    ensures TotalLength(loads) == |loads[0]| + TotalLength(loads[1..])
  {
    var init, tail := loads[..|loads| - 1], loads[1..];
    assert TotalLength(loads) == TotalLength(init) + |loads[|loads| - 1]|;
    if init == [] {
      assert tail == [];
    } else {
      FrontLength(init);
      assert tail[..|tail| - 1] == init[1..] && tail[|tail| - 1] == loads[|loads| - 1];
      assert init[0] == loads[0];
    }
  }

  /** For every two fresh parties whose frames fit and whose identifier is not zero, and every
      sequence of loads: some run reports exactly these as transferred, if and only if each of
      them can be carried by one transfer and together they fit the server's allocation. */
  lemma CapacityIsExact(start: Protocol, loads: seq<seq<byte>>)
    requires Initial(start) && Compatible(start) && start.client.cfg.id != 0
    ensures CanDeliver(start, loads) <==> FitsAllocation(start, loads)
  {
    hide Step, Run, Deliveries, Carries, TotalLength, Load, Quiet;
    hide ServerProofs.Inv, ClientInv, SessionInv, AnyRun.TermsInv;
    InitialInv(start);
    AnyRun.InitialTerms(start);
    if CanDeliver(start, loads) {
      var schedule :| Deliveries(start, schedule) == loads;
      RunCarried(start, schedule);
      WiredRuns.DeliveriesFit(start, schedule);
      assert forall i :: 0 <= i < |loads| ==> loads[i] in Deliveries(start, schedule);
    }
    if FitsAllocation(start, loads) {
      var schedule := Deliver(start, loads);
    }
  }

  lemma Deliver(start: Protocol, loads: seq<seq<byte>>) returns (schedule: seq<Action>)
    requires Initial(start) && Compatible(start) && start.client.cfg.id != 0
    requires forall i :: 0 <= i < |loads| ==> Carries(start, loads[i])
    requires TotalLength(loads) <= start.server.Room() * start.server.cfg.blocks
    ensures Deliveries(start, schedule) == loads
  {
    hide Step, Run, Deliveries, TotalLength, Load, Quiet, Inv;
    var quiet := FreshPartiesRest(start);
    InvIsValid(quiet);
    SameLoad(start, quiet, loads);
    SameLoads(start, quiet);
    SameLoadsOf(start, quiet, loads);
    LoadsOf(start, loads);
    var dest := Zeros(start.server.Room() * Terms(start).blocks);
    var more, z := TransfersFollow(quiet, dest, loads);
    NothingDelivered(start, [StartServer, Serve([])]);
    DeliveriesAppend(start, [StartServer, Serve([])], more);
    schedule := [StartServer, Serve([])] + more;
  }

  lemma TestSetUp(y: Protocol, data: seq<byte>)
    requires y.Valid() && |data| == 256
    requires y.server.cfg.blocks == y.client.cfg.blocks == 35
    requires y.server.cfg.maxLen == y.client.cfg.maxLen == 20
    ensures Compatible(y) && Carries(y, data) && y.server.Room() * y.server.cfg.blocks == 525
  {
    assert y.server.Room() == 15 && Terms(y).blocks == 35;
  }

  lemma {:induction false} EqualLengths(loads: seq<seq<byte>>, n: nat)
    requires forall i :: 0 <= i < |loads| ==> |loads[i]| == n
    ensures TotalLength(loads) == |loads| * n
  {
    if loads != [] {
      EqualLengths(loads[..|loads| - 1], n);
      assert |loads| * n == (|loads| - 1) * n + n;
    }
  }

  /** With the test set-up of 35 blocks of 20 bytes and a storage of 256 bytes, two transfers in a
      row are possible, and a third is not. */
  lemma ThirdTransferOverflows(start: Protocol, data: seq<byte>)
    requires Initial(start) && start.client.cfg.id != 0 && |data| == 256
    requires start.server.cfg.blocks == start.client.cfg.blocks == 35
    requires start.server.cfg.maxLen == start.client.cfg.maxLen == 20
    ensures CanDeliver(start, [data, data]) && !CanDeliver(start, [data, data, data])
  {
    hide CanDeliver, Carries, TotalLength, Compatible, Initial, Protocol.Valid;
    InitialInv(start);
    InvIsValid(start);
    TestSetUp(start, data);
    EqualLengths([data, data], 256);
    EqualLengths([data, data, data], 256);
    CapacityIsExact(start, [data, data]);
    CapacityIsExact(start, [data, data, data]);
  }
}

/** Liveness for every schedule: as long as no timer fires and both parties keep making steps, a
    transfer that can succeed does succeed, whatever the order of the steps. */
module Fairness {
  import opened Bytes
  import opened Options
  import opened Packets
  import opened Transport
  import opened Fsm
  import opened Segmentation
  import opened Protocol
  import opened SessionProofs
  import opened Cooperation
  import opened Progress
  import ServerFsm
  import ClientFsm
  import ServerProofs
  import SessionSteps
  import AnyRun
  import Delivery
  import Necessity

  // ---------- fair schedules ----------

  /** A step of either party in which no timer has expired. */
  predicate Patient(a: Action, stores: iset<seq<byte>>) {
    match a
    case ServerMove(e) => !e.expired && e.store in stores
    case ClientMove(expired) => !expired
    case _ => false
  }

  /** How often both parties have made a step: rounds are counted off one after the other, each
      as short as possible; in the first one, some party may have made its step already. */
  function Rounds(schedule: seq<Action>, server: bool, client: bool): nat {
    if schedule == [] then 0
    else
      var s, c := server || schedule[0].ServerMove?, client || schedule[0].ClientMove?;
      if s && c then 1 + Rounds(schedule[1..], false, false) else Rounds(schedule[1..], s, c)
  }

  /** A head start is worth at most one round. */
  lemma {:induction false} HeadStart(schedule: seq<Action>, server: bool, client: bool)
    ensures Rounds(schedule, false, false) <= Rounds(schedule, server, client)
    ensures Rounds(schedule, server, client) <= Rounds(schedule, false, false) + 1
  {
    if schedule != [] {
      HeadStart(schedule[1..], server || schedule[0].ServerMove?, client || schedule[0].ClientMove?);
      HeadStart(schedule[1..], schedule[0].ServerMove?, schedule[0].ClientMove?);
    }
  }

  // ---------- every run ----------

  lemma {:induction false} RoundsComplete(y: Protocol, d: Deal, schedule: seq<Action>, server: bool, client: bool)
    requires Live(y, d) && (forall i :: 0 <= i < |schedule| ==> Patient(schedule[i], d.stores))
    requires (server ==> ServerWaits(y)) && (client ==> ClientWaits(y))
    requires Work(y) <= Rounds(schedule, server, client)
    ensures Live(Run(y, schedule), d) && Work(Run(y, schedule)) == 0
    decreases |schedule|
  {
    hide Live, Work, ServerWaits, ClientWaits, MoveServer, MoveClient;
    assert y.Valid() by { LiveIsValid(y, d); }
    if schedule != [] {
      var a, rest := schedule[0], schedule[1..];
      assert Patient(a, d.stores);
      var z := Step(y, a);
      if a.ServerMove? {
        ServerAdvances(y, d, a.e);
      } else {
        ClientAdvances(y, d);
      }
      var s, c := server || a.ServerMove?, client || a.ClientMove?;
      if z != y {
        HeadStart(rest, s, c);
        RoundsComplete(z, d, rest, false, false);
      } else if s && c {
        NoDeadlock(y, d);
        RoundsComplete(z, d, rest, false, false);
      } else {
        RoundsComplete(z, d, rest, s, c);
      }
    }
  }

  // ---------- whole transfers ----------

  /** What a transfer can be started from: no message of an earlier one can be mistaken, the
      server has been started, the client is not busy, and whatever the storage offers can be
      sent and stored. */
  ghost predicate CanStart(y: Protocol, dest: seq<byte>, stores: iset<seq<byte>>)
    requires y.Valid()
  {
    && Drained(y) && y.server.next == Request && !y.client.busy && dest != [] && y.client.cfg.id != 0
    && forall store :: store in stores ==> Feasible(y, store, dest)
  }

  lemma StartIsLive(y: Protocol, dest: seq<byte>, stores: iset<seq<byte>>)
    requires Inv(y) && Compatible(y) && CanStart(y, dest, stores)
    ensures var z, d := Begin(y, Some(dest)), Deal(dest, stores, y.server.notes, y.client.notes);
      Live(z, d) && Work(z) <= Enough(y)
  {
    hide EncodeTx, Frame, Cut, Inv, Lacks, Negotiate;
    InvIsValid(y);
    BeginInv(y, Some(dest));
    SameLoads(y, Begin(y, Some(dest)));
  }

  /** A transfer from `y` has come to its end in `z`: both parties have reported success once more
      and are at rest, and the destination holds an exact copy of what the storage offered. */
  ghost predicate Completed(y: Protocol, dest: seq<byte>, stores: iset<seq<byte>>, z: Protocol)
    requires y.Valid()
  {
    && Quiet(z)
    && z.server.notes == y.server.notes + [true] && z.client.notes == y.client.notes + [true]
    && exists store :: store in stores && |Load(y, store)| <= |dest|
         && z.client.dest == Load(y, store) + dest[|Load(y, store)|..]
  }

  /** Enough rounds for the negotiated number of blocks and the messages queued at the start. */
  function Enough(y: Protocol): nat {
    5 * Terms(y).blocks + 23 + |y.up| + |y.down|
  }

  /** No timer fires, and both parties keep making steps for long enough. */
  ghost predicate Fair(y: Protocol, stores: iset<seq<byte>>, schedule: seq<Action>) {
    && (forall i :: 0 <= i < |schedule| ==> Patient(schedule[i], stores))
    && Enough(y) <= Rounds(schedule, false, false)
  }

  lemma FairFrom(y: Protocol, dest: seq<byte>, stores: iset<seq<byte>>, schedule: seq<Action>)
    requires Inv(y) && Compatible(y) && CanStart(y, dest, stores)
    requires Fair(y, stores, schedule)
    ensures Completed(y, dest, stores, Run(y, [StartTransfer(Some(dest))] + schedule))
  {
    hide Inv, Live, Work, Terms, Quiet, Drained, Feasible, Step, Run, Begin, Rounds, Load;
    InvIsValid(y);
    StartIsLive(y, dest, stores);
    var d := Deal(dest, stores, y.server.notes, y.client.notes);
    var b := Begin(y, Some(dest));
    RoundsComplete(b, d, schedule, false, false);
    OneStart(y, dest, schedule);
    var z := Run(b, schedule);
    DoneIsSuccess(z, d);
    Delivery.CfgsAreFixed(y, [StartTransfer(Some(dest))] + schedule);
    SameLoads(y, z);
    var store :| store in stores && z.server.snapshot == Load(z, store);
    assert z.client.dest == Load(y, store) + dest[|Load(y, store)|..];
  }

  lemma OneStart(y: Protocol, dest: seq<byte>, schedule: seq<Action>)
    requires y.Valid()
    ensures Run(y, [StartTransfer(Some(dest))] + schedule) == Run(Begin(y, Some(dest)), schedule)
  {
    hide Begin;
    RunCons(y, StartTransfer(Some(dest)), schedule);
  }

  // ---------- when frames do not fit ----------

  /** The parties take turns. */
  function Turns(store: seq<byte>, k: nat): seq<Action> {
    if k == 0 then [] else [Serve(store)] + ([CLIENT] + Turns(store, k - 1))
  }

  lemma {:induction false} TurnsAreFair(store: seq<byte>, k: nat)
    ensures Rounds(Turns(store, k), false, false) == k
    ensures forall a :: a in Turns(store, k) ==> Patient(a, iset{store})
  {
    if k > 0 {
      TurnsAreFair(store, k - 1);
      var rest := [CLIENT] + Turns(store, k - 1);
      assert Turns(store, k)[1..] == rest && rest[1..] == Turns(store, k - 1);
    }
  }

  /** Rounds at the end are rounds of the whole. */
  lemma {:induction false} RoundsAtEnd(a: seq<Action>, b: seq<Action>, server: bool, client: bool)
    ensures Rounds(b, false, false) <= Rounds(a + b, server, client)
  {
    if a == [] {
      assert a + b == b;
      HeadStart(b, server, client);
    } else {
      assert (a + b)[1..] == a[1..] + b;
      RoundsAtEnd(a[1..], b, false, false);
      RoundsAtEnd(a[1..], b, server || a[0].ServerMove?, client || a[0].ClientMove?);
    }
  }

  /** Each party waits for the other. */
  predicate Stuck(y: Protocol) {
    && y.Valid() && y.up == [] && y.down == []
    && y.server.phase == ServerFsm.AwaitAck && y.client.phase.AwaitBlock?
  }

  lemma ServerStuck(y: Protocol, store: seq<byte>)
    requires Stuck(y)
    ensures Step(y, Serve(store)) == y
  {
    hide PollTx;
    SessionSteps.NothingHeard(AckMsg, y.server.cfg.maxLen);
  }

  lemma ClientStuck(y: Protocol)
    requires Stuck(y)
    ensures Step(y, CLIENT) == y
  {
    hide PollBlock, ClientFsm.Store;
    NothingQueued(y.client.phase.packet, BlockMsg, y.client.cfg.maxLen);
    var c := y.client;
    assert c.(phase := ClientFsm.AwaitBlock(c.phase.packet)) == c;
  }

  lemma {:induction false} StuckForever(y: Protocol, store: seq<byte>, k: nat)
    requires Stuck(y)
    ensures Run(y, Turns(store, k)) == y
  {
    hide Step, Stuck;
    assert y.Valid() by { StuckIsValid(y); }
    if k > 0 {
      ServerStuck(y, store);
      ClientStuck(y);
      StuckForever(y, store, k - 1);
      RunCons(y, Serve(store), [CLIENT] + Turns(store, k - 1));
      RunCons(y, CLIENT, Turns(store, k - 1));
    }
  }

  lemma StuckIsValid(y: Protocol)
    requires Stuck(y)
    ensures y.Valid()
  {}

  /** The steps of a handshake and of one frame, after the start call. */
  function Opening(store: seq<byte>): seq<Action> {
    var s := Serve(store);
    [CLIENT, CLIENT] + [s, s, s, s] + [CLIENT, CLIENT, CLIENT, CLIENT, s] + ([s, s] + [CLIENT, CLIENT])
  }

  lemma OpeningIsPatient(store: seq<byte>)
    ensures forall a :: a in Opening(store) ==> Patient(a, iset{store})
  {
    forall a | a in Opening(store) ensures a == Serve(store) || a == CLIENT {}
  }

  lemma RunFive(y: Protocol, a: seq<Action>, b: seq<Action>, c: seq<Action>, d: seq<Action>, e: seq<Action>)
    requires y.Valid()
    ensures Run(y, a + (b + c + d + e)) == Run(Run(Run(Run(y, a + b), c), d), e)
  {
    hide Step, Run;
    RunAppend(y, a + b, c);
    RunAppend(y, a + b + c, d);
    RunAppend(y, a + b + c + d, e);
    assert a + (b + c + d + e) == a + b + c + d + e;
  }

  /** From rest, a load of one full frame leads to a point where each party waits for the other. */
  lemma GetsStuck(y: Protocol, data: seq<byte>) returns (z: Protocol)
    requires Inv(y) && Quiet(y) && y.server.cursor == 0 && !Compatible(y) && !AnyRun.Hopeless(y)
    requires data == Zeros(y.server.Room())
    ensures z == Run(y, [StartTransfer(Some(data))] + Opening(data)) && Stuck(z)
  {
    hide Inv, Step, EncodeTx, Run, Cut, Frame, Negotiate, Load, Quiet;
    OneFrameIsFeasible(y, data);
    var a := Asks(y, data);
    InvIsValid(a);
    SameLoads(y, a);
    var b := Answers(a, data, data);
    var c := Agrees(b, data, data, data);
    z := Necessity.LostFrame(c, data);
    var s := Serve(data);
    RunFive(y, [StartTransfer(Some(data))], [CLIENT, CLIENT], [s, s, s, s],
            [CLIENT, CLIENT, CLIENT, CLIENT, s], [s, s] + [CLIENT, CLIENT]);
    assert [StartTransfer(Some(data)), CLIENT, CLIENT] == [StartTransfer(Some(data))] + [CLIENT, CLIENT];
  }

  lemma OneFrameIsFeasible(y: Protocol, data: seq<byte>)
    requires Inv(y) && Quiet(y) && y.server.cursor == 0 && !AnyRun.Hopeless(y)
    requires data == Zeros(y.server.Room())
    ensures y.Valid() && Feasible(y, data, data) && Load(y, data) == data && CanStart(y, data, iset{data})
  {
    hide SessionInv, ClientInv, Negotiate, ServerProofs.Loaded;
    Necessity.FrameFits(y);
    Necessity.LoadIsAll(y, data, data);
  }

  lemma {:induction false} SomebodyServes(schedule: seq<Action>, client: bool)
    requires Rounds(schedule, false, client) > 0
    ensures exists i :: 0 <= i < |schedule| && schedule[i].ServerMove?
  {
    if !schedule[0].ServerMove? {
      SomebodyServes(schedule[1..], client || schedule[0].ClientMove?);
      var i :| 0 <= i < |schedule[1..]| && schedule[1..][i].ServerMove?;
      assert schedule[i + 1].ServerMove?;
    }
  }

  lemma OneIsOffered(stores: iset<seq<byte>>, schedule: seq<Action>) returns (store: seq<byte>)
    requires forall i :: 0 <= i < |schedule| ==> Patient(schedule[i], stores)
    requires Rounds(schedule, false, false) > 0
    ensures store in stores
  {
    hide Rounds;
    SomebodyServes(schedule, false);
    var i :| 0 <= i < |schedule| && schedule[i].ServerMove?;
    store := schedule[i].e.store;
  }

  lemma NothingIsFeasible(y: Protocol, store: seq<byte>, dest: seq<byte>)
    requires y.Valid() && AnyRun.Hopeless(y)
    ensures !Feasible(y, store, dest)
  {
    hide Negotiate;
  }

  /** If no success is possible, no transfer can be started that could succeed. */
  lemma HopelessCannotStart(y: Protocol, dest: seq<byte>, stores: iset<seq<byte>>, schedule: seq<Action>)
    requires y.Valid() && AnyRun.Hopeless(y) && CanStart(y, dest, stores)
    ensures !Fair(y, stores, schedule)
  {
    hide Drained, Negotiate, Patient, Rounds, Feasible;
    if Fair(y, stores, schedule) {
      var store := OneIsOffered(stores, schedule);
      NothingIsFeasible(y, store, dest);
    }
  }

  // ---------- main result ----------

  /** After any run, every fair schedule completes every transfer that can be started. */
  ghost predicate AlwaysCompletes(start: Protocol)
    requires start.Valid()
  {
    forall before: seq<Action>, dest: seq<byte>, stores: iset<seq<byte>>, schedule: seq<Action> ::
      var y := Run(start, before);
      CanStart(y, dest, stores) && Fair(y, stores, schedule)
      ==> Completed(y, dest, stores, Run(y, [StartTransfer(Some(dest))] + schedule))
  }

  lemma CompatibleCompletes(start: Protocol)
    requires Initial(start) && Compatible(start)
    ensures AlwaysCompletes(start)
  {
    hide Inv, CanStart, Completed, Run, Fair;
    forall before: seq<Action>, dest: seq<byte>, stores: iset<seq<byte>>, schedule: seq<Action>
      | CanStart(Run(start, before), dest, stores) && Fair(Run(start, before), stores, schedule)
      ensures var y := Run(start, before);
        Completed(y, dest, stores, Run(y, [StartTransfer(Some(dest))] + schedule))
    {
      Delivery.ReachedInv(start, before, Run(start, before));
      FairFrom(Run(start, before), dest, stores, schedule);
    }
  }

  lemma HopelessCompletes(start: Protocol)
    requires Initial(start) && AnyRun.Hopeless(start)
    ensures AlwaysCompletes(start)
  {
    hide Inv, CanStart, Completed, Run, Fair, Negotiate;
    forall before: seq<Action>, dest: seq<byte>, stores: iset<seq<byte>>, schedule: seq<Action>
      | CanStart(Run(start, before), dest, stores)
      ensures !Fair(Run(start, before), stores, schedule)
    {
      Delivery.CfgsAreFixed(start, before);
      HopelessCannotStart(Run(start, before), dest, stores, schedule);
    }
  }

  /** A fair schedule, as long as one likes, in which a transfer never completes. */
  lemma FairButStuck(start: Protocol) returns (before: seq<Action>, data: seq<byte>, schedule: seq<Action>)
    requires Initial(start) && !Compatible(start) && !AnyRun.Hopeless(start)
    ensures var y := Run(start, before);
      && CanStart(y, data, iset{data}) && Fair(y, iset{data}, schedule)
      && !Completed(y, data, iset{data}, Run(y, [StartTransfer(Some(data))] + schedule))
  {
    hide Inv, Step, Run, Negotiate, CanStart, Rounds, Patient, Load, Turns, Opening;
    before, data := [StartServer, Serve([])], Zeros(start.server.Room());
    var y := FreshPartiesRest(start);
    InvIsValid(y);
    OneFrameIsFeasible(y, data);
    var z := GetsStuck(y, data);
    var k := Enough(y);
    schedule := Opening(data) + Turns(data, k);
    OpeningIsPatient(data);
    TurnsAreFair(data, k);
    RoundsAtEnd(Opening(data), Turns(data, k), false, false);
    forall i | 0 <= i < |schedule| ensures Patient(schedule[i], iset{data}) {
      assert schedule[i] in schedule;
    }
    StuckForever(z, data, k);
    RunAppend(y, [StartTransfer(Some(data))] + Opening(data), Turns(data, k));
    assert [StartTransfer(Some(data))] + schedule
        == [StartTransfer(Some(data))] + Opening(data) + Turns(data, k);
  }

  /** Liveness under every schedule. For every two fresh parties: after any run of them, every
      schedule in which no timer fires and both parties keep making steps (5 B + 23 rounds for B
      negotiated blocks, and one more for every message still queued) completes every transfer
      that can be started, if and only if the server's frames fit the client's buffer or no
      transfer can succeed at all. What the storage offers may change from step to step. */
  lemma FairSchedulesSucceed(start: Protocol)
    requires Initial(start)
    ensures AlwaysCompletes(start) <==> Compatible(start) || AnyRun.Hopeless(start)
  {
    hide Run, CanStart, Completed, Fair, Negotiate;
    if Compatible(start) {
      CompatibleCompletes(start);
    } else if AnyRun.Hopeless(start) {
      HopelessCompletes(start);
    } else {
      var before, data, schedule := FairButStuck(start);
    }
  }
}

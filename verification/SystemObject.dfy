/** Server object, client object and two queues as one program that is driven by an arbitrary
    schedule. It is proved to do what the transition system of `Protocol` does, so everything
    proved about that system's runs holds of the objects. */
module SystemObject {
  import opened Bytes
  import opened Options
  import opened Packets
  import opened Transport
  import opened Fsm
  import opened Objects
  import opened ServerObject
  import opened ClientObject
  import opened Network = Protocol
  import ServerFsm
  import ClientFsm
  import SessionProofs
  import SessionSteps
  import Delivery
  import Wire

  datatype Command =
    | ServerMove(e: Env)
    | ClientMove(expired: bool)
    | StartServer
    | StartTransfer(buffer: array?<byte>)

  /** What a command is to the transition system, with the memory as it is now. */
  ghost function ActionOf(c: Command): Action
    reads if c.StartTransfer? && c.buffer != null then {c.buffer} else {}
  {
    match c
    case ServerMove(e) => Action.ServerMove(e)
    case ClientMove(expired) => Action.ClientMove(expired)
    case StartServer => Action.StartServer
    case StartTransfer(buffer) =>
      Action.StartTransfer(if buffer == null then None else Some(buffer[..]))
  }

  /** The action is the command, with some contents for the memory it hands over. */
  ghost predicate Follows(c: Command, a: Action) {
    match c
    case ServerMove(e) => a == Action.ServerMove(e)
    case ClientMove(expired) => a == Action.ClientMove(expired)
    case StartServer => a == Action.StartServer
    case StartTransfer(buffer) =>
      && a.StartTransfer?
      && (a.buffer == None <==> buffer == null)
      && (buffer != null ==> |a.buffer.value| == buffer.Length)
  }

  lemma FollowsAction(c: Command)
    ensures Follows(c, ActionOf(c))
    ensures c.StartTransfer? && c.buffer != null ==>
      ActionOf(c) == Action.StartTransfer(Some(c.buffer[..]))
  {}

  /** The memory that a schedule hands over. */
  ghost function Buffers(schedule: seq<Command>): set<object> {
    set i | 0 <= i < |schedule| && schedule[i].StartTransfer? && schedule[i].buffer != null ::
      schedule[i].buffer
  }

  ghost function Handed(c: Command): set<object> {
    if c.StartTransfer? && c.buffer != null then {c.buffer} else {}
  }

  lemma BuffersGrow(schedule: seq<Command>, n: nat)
    requires n < |schedule|
    ensures Buffers(schedule[..n + 1]) == Buffers(schedule[..n]) + Handed(schedule[n])
    ensures Handed(schedule[n]) <= Buffers(schedule)
  {
    var longer := schedule[..n + 1];
    assert longer[n] == schedule[n];
    assert forall i :: 0 <= i < n ==> longer[i] == schedule[..n][i];
  }

  lemma NoBuffers(schedule: seq<Command>)
    ensures Buffers(schedule[..0]) == {}
  {}

  lemma NothingRun(y: Protocol)
    requires y.Valid()
    ensures Network.Run(y, []) == y
  {}

  lemma CfgStays(y: Protocol, expired: bool)
    requires y.Valid()
    ensures var z := Step(y, Action.ClientMove(expired));
      z.client.cfg == y.client.cfg && z.server.cfg == y.server.cfg
  {
    hide ClientFsm.Step;
  }

  /** The history that the transition system keeps. */
  datatype Books = Books(drained: bool, clientStage: ClientStage, serverStage: ServerStage)

  class System {
    const up: ChannelObject
    const down: ChannelObject
    const server: DDServer
    const client: DDClient
    ghost var books: Books

    ghost function Own(): set<object>
      reads server, server.frame, client, client.packet
    {
      server.Private() + client.Private()
    }

    ghost function Parts(): set<object>
      reads this, server, server.frame, client, client.packet
    {
      Own() + {this, up, down, client.history.dest}
    }

    /** The objects are wired up and keep out of each other's way. */
    ghost predicate Wired()
      reads this, server, server.frame, client, client.packet, Parts()
    {
      && server.Valid() && client.Valid()
      && server.port.rx == up && server.port.tx == down
      && client.port.rx == down && client.port.tx == up
      && server.Private() !! client.Private()
      && client.history.dest !in server.Private()
    }

    ghost function View(): (y: Protocol)
      requires Wired()
      reads this, server, server.frame, client, client.packet, Parts()
      ensures y.Valid()
    {
      Protocol.Protocol(server.View(), client.View(), up.queue, down.queue, books.drained,
                        books.clientStage, books.serverStage)
    }

    ghost predicate Valid()
      reads this, server, server.frame, client, client.packet, Parts()
    {
      Wired() && SessionProofs.Inv(View()) && Wire.WellSized(View())
    }

    /** Two freshly constructed parties, each sending into the queue the other receives from. */
    constructor (server: DDServer, client: DDClient)
      requires server.Valid() && ServerFsm.Initial(server.View())
      requires client.Valid() && ClientFsm.Initial(client.View())
      requires server.port.rx == client.port.tx && server.port.tx == client.port.rx
      requires server.port.rx.queue == [] && server.port.tx.queue == []
      requires server.Private() !! client.Private() && client.history.dest !in server.Private()
      ensures this.server == server && this.client == client && Valid() && Initial(View())
    {
      hide DDServer.View, DDClient.View, DDServer.Private, DDClient.Private, ServerFsm.Initial,
        ClientFsm.Initial, SessionProofs.Inv;
      up, down, this.server, this.client := server.port.rx, server.port.tx, server, client;
      books := Books(false, NotAsked, Unserved);
      new;
      SessionProofs.InitialInv(View());
    }

    // ---------- one move of a party, and the books that are kept about it ----------

    method DriveServer(e: Env)
      requires Wired() && SizeFits(up.queue, server.port.maxPacketSize)
      modifies server, server.allocation, server.response, up, down
      ensures Wired() && client.View() == old(client.View())
      ensures ServerFsm.Moved(server.View(), up.queue, down.queue)
           == ServerFsm.Step(old(server.View()), old(up.queue), old(down.queue), e)
      ensures client.history == old(client.history) && client.Private() == old(client.Private())
      ensures fresh(server.Private() - old(server.Private()))
    {
      hide ServerFsm.Step, DDServer.View, DDClient.View, DDClient.Valid;
      server.Step(e);
    }

    method DriveClient(expired: bool)
      requires Wired() && SizeFits(down.queue, client.port.maxPacketSize)
      modifies client, client.packet, client.history.dest, up, down
      ensures Wired() && server.View() == old(server.View())
      ensures ClientFsm.Moved(client.View(), down.queue, up.queue)
           == ClientFsm.Step(old(client.View()), old(down.queue), old(up.queue), expired)
      ensures client.history.dest == old(client.history.dest)
      ensures server.Private() == old(server.Private())
      ensures fresh(client.Private() - old(client.Private()))
    {
      hide ClientFsm.Step, DDServer.View, DDClient.View, DDServer.Valid;
      client.Step(expired);
    }

    method MoveServer(e: Env)
      requires Valid()
      modifies this, server, server.allocation, server.response, up, down
      ensures Valid() && View() == Step(old(View()), Action.ServerMove(e))
      ensures client.history == old(client.history) && client.Private() == old(client.Private())
      ensures fresh(server.Private() - old(server.Private()))
    {
      hide SessionProofs.Inv, Wire.AllSized, ServerFsm.Step, ServerProgress, DDServer.View,
        DDClient.View, DDClient.Valid, DDServer.Valid, DDServer.Private, DDClient.Private;
      ghost var y := View();
      SessionSteps.StepInv(y, Action.ServerMove(e));
      Wire.StepKeepsSized(y, Action.ServerMove(e));
      Wire.SizedFits(up.queue, server.port.maxPacketSize);
      DriveServer(e);
      books := books.(serverStage := ServerProgress(y.server, server.View(), y.serverStage));
    }

    method MoveClient(expired: bool)
      requires Valid()
      modifies this, client, client.packet, client.history.dest, up, down
      ensures Valid() && View() == Step(old(View()), Action.ClientMove(expired))
      ensures client.history.dest == old(client.history.dest)
      ensures server.Private() == old(server.Private())
      ensures fresh(client.Private() - old(client.Private()))
      ensures old(books.drained) && SessionProofs.Safe(View())
              && View().client.notes == old(View()).client.notes + [true]
              ==> Delivery.ExactCopy(View().client, View().server.snapshot)
    {
      hide SessionProofs.Inv, Wire.AllSized, ClientFsm.Step, ClientProgress, DDServer.View,
        DDClient.View, DDClient.Valid, DDServer.Valid, DDServer.Private, DDClient.Private,
        Delivery.ExactCopy;
      ghost var y := View();
      SessionSteps.StepInv(y, Action.ClientMove(expired));
      Wire.StepKeepsSized(y, Action.ClientMove(expired));
      Wire.SizedFits(down.queue, client.port.maxPacketSize);
      DriveClient(expired);
      books := books.(clientStage := ClientProgress(y.client, client.View(), y.clientStage));
      CfgStays(y, expired);
      if y.drained && SessionProofs.Safe(y) && View().client.notes == y.client.notes + [true] {
        Delivery.ReportIsExactCopy(y, Action.ClientMove(expired));
      }
    }

    method StartServer()
      requires Valid()
      modifies server`nextState
      ensures Valid() && View() == Step(old(View()), Action.StartServer)
      ensures server.Private() == old(server.Private()) && client.Private() == old(client.Private())
      ensures client.history == old(client.history)
    {
      hide SessionProofs.Inv, Wire.AllSized, ServerFsm.Start, DDServer.View, DDClient.View;
      SessionSteps.StepInv(View(), Action.StartServer);
      var ok := server.StartServer();
    }

    method HandOver(buffer: array?<byte>) returns (ok: bool)
      requires Wired() && (buffer != null ==> buffer !in Own())
      modifies client
      ensures Wired() && server.View() == old(server.View())
      ensures var region := if buffer == null then None else Some(buffer[..]);
        && ok == ClientFsm.Startable(old(client.View()), region)
        && client.View() == ClientFsm.Start(old(client.View()), region)
      ensures server.Private() == old(server.Private()) && client.Private() == old(client.Private())
      ensures client.history.dest == old(client.history.dest) || client.history.dest == buffer
    {
      hide DDServer.View, DDClient.View, DDServer.Valid, ClientFsm.Start, ClientFsm.Startable;
      ok := client.StartNewTransfer(buffer);
    }

    method StartTransfer(buffer: array?<byte>)
      requires Valid() && (buffer != null ==> buffer !in Own())
      modifies this, client
      ensures Valid() && View() == Step(old(View()), old(ActionOf(Command.StartTransfer(buffer))))
      ensures server.Private() == old(server.Private()) && client.Private() == old(client.Private())
      ensures client.history.dest == old(client.history.dest) || client.history.dest == buffer
    {
      hide SessionProofs.Inv, Wire.AllSized, DDServer.View, DDClient.View, DDServer.Valid,
        DDClient.Valid, DDServer.Private, DDClient.Private, ClientFsm.Startable, Drained;
      ghost var y, a := View(), ActionOf(Command.StartTransfer(buffer));
      SessionSteps.StepInv(y, a);
      var ok := HandOver(buffer);
      if ok {
        books := Books(Drained(y), NotAsked, Unserved);
      }
    }

    // ---------- runs ----------

    ghost predicate Foreign(c: Command)
      reads server, server.frame, client, client.packet
    {
      c.StartTransfer? && c.buffer != null ==> c.buffer !in Own()
    }

    method Perform(c: Command)
      requires Valid() && Foreign(c)
      modifies Parts()
      ensures Valid() && View() == Step(old(View()), old(ActionOf(c)))
      ensures fresh(Own() - old(Own()))
      ensures client.history.dest == old(client.history.dest)
              || (c.StartTransfer? && client.history.dest == c.buffer)
    {
      hide SessionProofs.Inv, Wire.AllSized, DDServer.View, DDClient.View, DDServer.Valid,
        DDClient.Valid, Begin, ServerFsm.Start, Wired;
      match c {
        case ServerMove(e) => MoveServer(e);
        case ClientMove(expired) => MoveClient(expired);
        case StartServer => StartServer();
        case StartTransfer(buffer) => StartTransfer(buffer);
      }
    }

    /** Command `i` hands over memory that nothing before it in the run can have written to. */
    ghost predicate FirstUse(schedule: seq<Command>, i: nat, current: array<byte>) {
      && i < |schedule| && schedule[i].StartTransfer? && schedule[i].buffer != null
      && schedule[i].buffer != current && schedule[i].buffer !in Buffers(schedule[..i])
    }

    /** Any schedule at all. The actions returned are the commands, one by one, with the contents
        of the memory at the time it is handed over; the state afterwards is the one that the
        transition system's run of these actions reaches. */
    method Run(schedule: seq<Command>) returns (ghost actions: seq<Action>)
      requires Valid() && forall i :: 0 <= i < |schedule| ==> Foreign(schedule[i])
      modifies Parts(), Buffers(schedule)
      ensures Valid() && |actions| == |schedule|
      ensures forall i :: 0 <= i < |schedule| ==> Follows(schedule[i], actions[i])
      ensures forall i :: 0 <= i < |schedule| && FirstUse(schedule, i, old(client.history.dest)) ==>
        actions[i] == Action.StartTransfer(Some(old(schedule[i].buffer[..])))
      ensures View() == Network.Run(old(View()), actions)
    {
      hide SessionProofs.Inv, Wire.AllSized, DDServer.View, DDClient.View, DDServer.Valid,
        DDClient.Valid, Step, Network.Run, Wired, Own, Buffers, Follows, ActionOf;
      NothingRun(View());
      actions := [];
      ghost var spent: set<object> := {client.history.dest};
      NoBuffers(schedule);
      for n := 0 to |schedule|
        invariant Valid() && |actions| == n
        invariant View() == Network.Run(old(View()), actions)
        invariant forall i :: 0 <= i < n ==> Follows(schedule[i], actions[i])
        invariant forall i :: 0 <= i < n && FirstUse(schedule, i, old(client.history.dest)) ==>
          actions[i] == Action.StartTransfer(Some(old(schedule[i].buffer[..])))
        invariant forall i :: 0 <= i < |schedule| ==> Foreign(schedule[i])
        invariant forall o | o in Own() :: o in old(Own()) || fresh(o)
        invariant client.history.dest in spent
        invariant spent == {old(client.history.dest)} + Buffers(schedule[..n]) <= old(Parts()) + Buffers(schedule)
        invariant forall i :: n <= i < |schedule| && schedule[i].StartTransfer? && schedule[i].buffer != null ==>
          schedule[i].buffer in spent || schedule[i].buffer[..] == old(schedule[i].buffer[..])
      {
        ghost var a := ActionOf(schedule[n]);
        FollowsAction(schedule[n]);
        RunAppend(old(View()), actions, [a]);
        RunOne(View(), a);
        ghost var before := Own();
        label L:
        Perform(schedule[n]);
        forall o | o in Own()
          ensures o in old(Own()) || fresh(o)
        {
          assert old(allocated(o)) ==> old@L(allocated(o));
          assert o in before || o in Own() - before;
        }
        BuffersGrow(schedule, n);
        spent, actions := spent + Handed(schedule[n]), actions + [a];
      }
    }
  }

  /** Any two configurations whose packet length fits a header make a system. */
  method Assemble(serverConfig: Config, clientConfig: Config) returns (s: System)
    requires TX_HEADER_SIZE <= serverConfig.maxLen && TX_HEADER_SIZE <= clientConfig.maxLen
    ensures s.Valid() && Initial(s.View())
    ensures s.server.serverConfig == serverConfig && s.client.clientConfig == clientConfig
  {
    hide ServerFsm.Initial, ClientFsm.Initial, SessionProofs.Inv, Wire.AllSized, System.Wired,
      DDServer.View, DDClient.View, DDServer.Valid, DDClient.Valid, DDClient.Private, Initial;
    var up := new ChannelObject();
    var down := new ChannelObject();
    var serverPort := new DataDump(serverConfig.maxLen, down, up);
    var clientPort := new DataDump(clientConfig.maxLen, up, down);
    var server := new DDServer(serverPort, serverConfig);
    var client := new DDClient(clientPort, clientConfig);
    s := new System(server, client);
  }
}

/** Server, client and the two channels as one transition system. A run is an arbitrary
    schedule of single steps of either party, with the timers and the storage contents chosen
    freely, interleaved with calls of `startServer` and `startNewTransfer`. */
module Protocol {
  import opened Bytes
  import opened Options
  import opened Packets
  import opened Transport
  import opened Fsm
  import ServerFsm
  import ClientFsm

  type Env = ServerFsm.Env

  // History: how far each party has come in the transfer that was started last.
  datatype ClientStage = NotAsked | Asked | Answered | Initiated
  datatype ServerStage = Unserved | Serving | Offered | Streaming

  datatype Protocol = Protocol(
    server: ServerFsm.Server,
    client: ClientFsm.Client,
    up: Channel,               // client to server
    down: Channel,             // server to client
    drained: bool,             // history: the last transfer was started with `Drained`
    clientStage: ClientStage,
    serverStage: ServerStage
  ) {
    predicate Valid() {
      server.Valid() && client.Valid()
    }
  }

  datatype Action =
    | ServerMove(e: Env)
    | ClientMove(expired: bool)
    | StartServer
    | StartTransfer(buffer: Option<seq<byte>>)

  /** No message of an earlier transfer can be taken for one of the next: the server waits for
      a request, no request is queued for it and no response for the client. Empty channels
      and a server in REQUEST are the simplest case. */
  ghost predicate Drained(y: Protocol) {
    y.server.Ready() && Lacks(y.up, RequestMsg) && Lacks(y.down, ResponseMsg)
  }

  predicate Initial(y: Protocol) {
    && ServerFsm.Initial(y.server) && ClientFsm.Initial(y.client)
    && y.up == [] && y.down == []
    && !y.drained && y.clientStage == NotAsked && y.serverStage == Unserved
  }

  function ServerProgress(s: ServerFsm.Server, r: ServerFsm.Server, was: ServerStage): ServerStage {
    if r.phase != ServerFsm.AtLoop then was
    else if s.phase == ServerFsm.AwaitRequest && r.next == Response then Serving
    else if s.phase.SendingResponse? && r.next == Initiate then Offered
    else if s.phase == ServerFsm.AwaitInitiate && r.next == Block then Streaming
    else was
  }

  function ClientProgress(c: ClientFsm.Client, r: ClientFsm.Client, was: ClientStage): ClientStage {
    if r.phase != ClientFsm.AtLoop then was
    else if c.phase == ClientFsm.SendingRequest && r.next == Response then Asked
    else if c.phase == ClientFsm.AwaitResponse && r.next == Initiate then Answered
    else if c.phase == ClientFsm.SendingInitiate && r.next == Block then Initiated
    else was
  }

  function MoveServer(y: Protocol, e: Env): (r: Protocol)
    requires y.Valid()
    ensures r.Valid()
  {
    var m := ServerFsm.Step(y.server, y.up, y.down, e);
    y.(server := m.server, up := m.rx, down := m.tx,
       serverStage := ServerProgress(y.server, m.server, y.serverStage))
  }

  function MoveClient(y: Protocol, expired: bool): (r: Protocol)
    requires y.Valid()
    ensures r.Valid()
  {
    var m := ClientFsm.Step(y.client, y.down, y.up, expired);
    y.(client := m.client, down := m.rx, up := m.tx,
       clientStage := ClientProgress(y.client, m.client, y.clientStage))
  }

  ghost function Begin(y: Protocol, buffer: Option<seq<byte>>): (r: Protocol)
    requires y.Valid()
    ensures r.Valid()
  {
    if ClientFsm.Startable(y.client, buffer) then
      y.(client := ClientFsm.Start(y.client, buffer), drained := Drained(y),
         clientStage := NotAsked, serverStage := Unserved)
    else y
  }

  ghost function Step(y: Protocol, a: Action): (r: Protocol)
    requires y.Valid()
    ensures r.Valid()
  {
    match a
    case ServerMove(e) => MoveServer(y, e)
    case ClientMove(expired) => MoveClient(y, expired)
    case StartServer => y.(server := ServerFsm.Start(y.server))
    case StartTransfer(buffer) => Begin(y, buffer)
  }

  ghost function Run(y: Protocol, schedule: seq<Action>): (r: Protocol)
    requires y.Valid()
    ensures r.Valid()
    decreases |schedule|
  {
    if schedule == [] then y else Run(Step(y, schedule[0]), schedule[1..])
  }

  // ---------- runs ----------

  lemma {:induction false} RunAppend(y: Protocol, a: seq<Action>, b: seq<Action>)
    requires y.Valid()
    ensures Run(y, a + b) == Run(Run(y, a), b)
    decreases |a|
  {
    hide Step;
    if a == [] {
      assert a + b == b;
    } else {
      assert (a + b)[1..] == a[1..] + b;
      RunAppend(Step(y, a[0]), a[1..], b);
    }
  }

  /** One step, then another run: the schedules are joined. */
  lemma RunCons(y: Protocol, a: Action, rest: seq<Action>)
    requires y.Valid()
    ensures Run(y, [a] + rest) == Run(Step(y, a), rest)
  {
    hide Step;
    assert ([a] + rest)[1..] == rest;
  }

  lemma RunOne(y: Protocol, a: Action)
    requires y.Valid()
    ensures Run(y, [a]) == Step(y, a)
  {
    hide Step;
  }

  // ---------- what a run delivers ----------

  /** The snapshot that the server reports as transferred in a step, if it does. */
  ghost function Reported(y: Protocol, a: Action): seq<seq<byte>>
    requires y.Valid()
  {
    if Step(y, a).server.notes == y.server.notes + [true] then [y.server.snapshot] else []
  }

  /** Everything that the server reports as transferred over a run. */
  ghost function Deliveries(y: Protocol, schedule: seq<Action>): seq<seq<byte>>
    requires y.Valid()
    decreases |schedule|
  {
    if schedule == [] then []
    else Reported(y, schedule[0]) + Deliveries(Step(y, schedule[0]), schedule[1..])
  }

  lemma {:induction false} DeliveriesAppend(y: Protocol, a: seq<Action>, b: seq<Action>)
    requires y.Valid()
    ensures Deliveries(y, a + b) == Deliveries(y, a) + Deliveries(Run(y, a), b)
    decreases |a|
  {
    hide Step, Reported;
    if a == [] {
      assert a + b == b;
    } else {
      assert (a + b)[1..] == a[1..] + b;
      DeliveriesAppend(Step(y, a[0]), a[1..], b);
    }
  }

  lemma DeliveriesOfOne(y: Protocol, a: Action)
    requires y.Valid()
    ensures Deliveries(y, [a]) == Reported(y, a)
  {
    hide Step, Reported;
    assert [a][1..] == [];
  }
}

/** Why a transfer has to be started drained: two abandoned transfers can leave a response and a
    frame queued in front of the third one's, and then the client reports success with the
    second transfer's bytes. */
module Undrained {
  import opened Bytes
  import opened Options
  import opened Packets
  import opened Transport
  import opened Fsm
  import opened Segmentation
  import opened Protocol
  import opened SessionProofs
  import opened Cooperation
  import opened AnyRun
  import ServerFsm
  import ClientFsm
  import Delivery

  // Parties whose timer has expired.
  const CLIENT_GIVES_UP := ClientMove(true)
  const SERVER_GIVES_UP := ServerMove(ServerFsm.Env(true, []))

  // ---------- runs of a few steps ----------

  lemma RunThree(y: Protocol, a: Action, b: Action, c: Action)
    requires y.Valid()
    ensures Run(y, [a, b, c]) == Step(Step(Step(y, a), b), c)
  {
    hide Step;
    RunTwice(y, a, b);
    RunAppend(y, [a, b], [c]);
    RunCons(Step(Step(y, a), b), c, []);
    assert [a, b] + [c] == [a, b, c] && [c] + [] == [c];
  }

  lemma RunFour(y: Protocol, a: Action, b: Action, c: Action, d: Action)
    requires y.Valid()
    ensures Run(y, [a, b, c, d]) == Step(Step(Step(Step(y, a), b), c), d)
  {
    hide Step;
    RunThree(Step(y, a), b, c, d);
    assert [a, b, c, d][1..] == [b, c, d];
  }

  // ---------- the client's part ----------

  /** Between activations, with a transfer under way that has stored nothing. */
  predicate Asking(c: ClientFsm.Client, next: State, dest: seq<byte>) {
    && c.phase == ClientFsm.AtLoop && c.next == next && c.attached && c.dest == dest
    && c.offset == 0 && c.remaining == |dest| && !c.success
  }

  predicate Idling(c: ClientFsm.Client) {
    c.phase == ClientFsm.AtLoop && c.next == Idle && !c.busy && !c.success
  }

  lemma Requests(y: Protocol, dest: seq<byte>) returns (z: Protocol)
    requires y.Valid() && Idling(y.client) && dest != [] && |y.up| < CAPACITY
    ensures z == Run(y, [StartTransfer(Some(dest)), CLIENT, CLIENT])
    ensures z.server == y.server && z.up == y.up + [RequestMessage(y.client.cfg)] && z.down == y.down
    ensures Asking(z.client, Response, dest) && z.client.cfg == y.client.cfg
    ensures z.client.notes == y.client.notes
  {
    hide EncodeTx, Drained;
    RunThree(y, StartTransfer(Some(dest)), CLIENT, CLIENT);
    var a := Step(y, StartTransfer(Some(dest)));
    z := Step(Step(a, CLIENT), CLIENT);
  }

  /** Nothing arrives, the timer fires, failure is reported. */
  lemma HearsNoResponse(y: Protocol, dest: seq<byte>) returns (z: Protocol)
    requires y.Valid() && Asking(y.client, Response, dest) && y.down == []
    ensures z == Run(y, [CLIENT, CLIENT_GIVES_UP, CLIENT, CLIENT])
    ensures z.server == y.server && z.up == y.up && z.down == []
    ensures Idling(z.client) && z.client.cfg == y.client.cfg
    ensures z.client.notes == y.client.notes + [false]
  {
    hide EncodeTx, ReadTx;
    RunFour(y, CLIENT, CLIENT_GIVES_UP, CLIENT, CLIENT);
    z := Step(Step(Step(Step(y, CLIENT), CLIENT_GIVES_UP), CLIENT), CLIENT);
  }

  /** Takes the oldest response and agrees to its terms. */
  lemma AgreesToTerms(y: Protocol, dest: seq<byte>, rest: Channel) returns (z: Protocol)
    requires y.Valid() && Asking(y.client, Response, dest) && y.client.cfg.id != 0
    requires y.down == [ResponseMessage(Terms(y))] + rest && |y.up| < CAPACITY
    ensures z == Run(y, [CLIENT, CLIENT, CLIENT, CLIENT])
    ensures z.server == y.server && z.up == y.up + [InitiateMessage(Terms(y))] && z.down == rest
    ensures Asking(z.client, Block, dest) && z.client.peer == Terms(y) && z.client.cfg == y.client.cfg
    ensures z.client.notes == y.client.notes
  {
    hide EncodeTx, PollTx;
    RunFour(y, CLIENT, CLIENT, CLIENT, CLIENT);
    var a := Step(y, CLIENT);
    DeliveredTx(HeaderFor(ResponseMsg, Terms(y)), a.down, ResponseMsg, a.client.cfg.maxLen);
    var b := Step(a, CLIENT);
    assert b.client.peer == Terms(y) && b.down == rest;
    z := Step(Step(b, CLIENT), CLIENT);
  }

  lemma Refuses(y: Protocol, dest: seq<byte>) returns (z: Protocol)
    requires y.Valid() && Asking(y.client, Block, dest) && y.down == [] && |y.up| < CAPACITY
    requires y.client.peer == Terms(y)
    ensures z == Run(y, [CLIENT, CLIENT_GIVES_UP, CLIENT])
    ensures z.server == y.server && z.up == y.up + [AckNotMessage(Terms(y))] && z.down == []
    ensures z.client.phase == ClientFsm.AtLoop && z.client.next == Terminate && !z.client.success
    ensures z.client.cfg == y.client.cfg && z.client.notes == y.client.notes
  {
    hide EncodeTx, ReadBlock;
    RunThree(y, CLIENT, CLIENT_GIVES_UP, CLIENT);
    z := Step(Step(Step(y, CLIENT), CLIENT_GIVES_UP), CLIENT);
  }

  /** No frame arrives, the timer fires, a negative acknowledgement is sent, failure is reported. */
  lemma HearsNoFrame(y: Protocol, dest: seq<byte>) returns (z: Protocol)
    requires y.Valid() && Asking(y.client, Block, dest) && y.down == [] && |y.up| < CAPACITY
    requires y.client.peer == Terms(y)
    ensures z == Run(y, [CLIENT, CLIENT_GIVES_UP, CLIENT] + [CLIENT, CLIENT])
    ensures z.server == y.server && z.up == y.up + [AckNotMessage(Terms(y))] && z.down == []
    ensures Idling(z.client) && z.client.cfg == y.client.cfg
    ensures z.client.notes == y.client.notes + [false]
  {
    hide EncodeTx, Run;
    var a := Refuses(y, dest);
    RunTwice(a, CLIENT, CLIENT);
    RunAppend(y, [CLIENT, CLIENT_GIVES_UP, CLIENT], [CLIENT, CLIENT]);
    z := Step(Step(a, CLIENT), CLIENT);
  }

  /** A one-byte frame that ends the transfer is stored and acknowledged. */
  lemma StoresByte(y: Protocol, b: byte, rest: Channel) returns (z: Protocol)
    requires y.Valid() && Asking(y.client, Block, [0]) && y.client.cfg.maxLen >= 11
    requires y.down == [EncodeBlock(Frame([b], y.server.Room(), 0))] + rest && |y.up| < CAPACITY
    requires 0 < y.server.Room() <= 250 && y.client.peer == Terms(y)
    ensures z == Run(y, [CLIENT, CLIENT, CLIENT])
    ensures z.server == y.server && z.down == rest && z.up == y.up + [AckMessage(Terms(y))]
    ensures z.client.phase == ClientFsm.AtLoop && z.client.next == Terminate && z.client.success
    ensures z.client.notes == y.client.notes && z.client.dest == [b] && z.client.cfg == y.client.cfg
  {
    hide EncodeTx, EncodeBlock, PollBlock, Cut;
    RunThree(y, CLIENT, CLIENT, CLIENT);
    var f := Frame([b], y.server.Room(), 0);
    OneByteFrame(b, y.server.Room());
    var a := Step(y, CLIENT);
    DeliveredBlock(f, FRESH_BLOCK, a.down, a.client.cfg.maxLen);
    z := Step(Step(a, CLIENT), CLIENT);
  }

  lemma ReportsSuccess(y: Protocol)
    requires y.Valid() && y.client.phase == ClientFsm.AtLoop && y.client.next == Terminate
    requires y.client.success
    ensures var z := Step(y, CLIENT);
      z.client.notes == y.client.notes + [true] && z.client.dest == y.client.dest && z.server == y.server
  {}

  lemma OneByteFrame(b: byte, p: nat)
    requires 0 < p <= 250
    ensures var f := Frame([b], p, 0);
      && f.header.msgType == BlockMsg && f.header.crc == 0 && f.header.size == 1
      && f.buffer == [b] && !GetContinue(f.header.meta) && PacketSize(f) == 6
  {
    assert Cut(0, p, 1) == 0 && Cut(1, p, 1) == 1;
    FrameFacts([b], p, 0);
  }

  // ---------- the server's part ----------

  predicate Waiting(s: ServerFsm.Server, cursor: nat, size: nat) {
    s.phase == ServerFsm.AwaitRequest && !s.success && s.cursor == cursor && |s.mem| == size
  }

  /** Between activations, with one byte read and nothing cut. */
  predicate Offering(s: ServerFsm.Server, b: byte, terms: Config, cursor: nat, size: nat) {
    && s.phase == ServerFsm.AtLoop && s.next == Initiate && !s.success && s.peer == terms
    && s.snapshot == [b] && s.remaining == 1 && s.cursor == cursor < |s.mem| == size
    && s.mem[cursor] == b
  }

  lemma FillsByte(s: ServerFsm.Server, b: byte)
    requires s.Valid() && s.peer.blocks > 0 && s.cursor < |s.mem|
    ensures ServerFsm.Fill(s, [b])
         == s.(remaining := 1, snapshot := [b], sent := 0,
               mem := s.mem[..s.cursor] + [b] + s.mem[s.cursor + 1..],
               phase := ServerFsm.SendingResponse(HeaderFor(ResponseMsg, s.peer)))
  {
    hide HeaderFor;
    MulMonotone(1, s.peer.blocks, s.Room());
    assert Min(|[b]|, s.Room() * s.peer.blocks) == 1;
    assert [b][..1] == [b];
  }

  lemma Reads(y: Protocol, b: byte, rest: Channel) returns (z: Protocol)
    requires y.Valid() && Waiting(y.server, y.server.cursor, |y.server.mem|)
    requires y.up == [RequestMessage(y.client.cfg)] + rest && |y.down| < CAPACITY
    requires y.server.cursor < |y.server.mem| && Terms(y).blocks > 0
    ensures z == Run(y, [Serve([b]), Serve([b]), Serve([b])])
    ensures z.client == y.client && z.up == rest && z.down == y.down + [ResponseMessage(Terms(y))]
    ensures Offering(z.server, b, Terms(y), y.server.cursor, |y.server.mem|)
    ensures z.server.cfg == y.server.cfg
  {
    hide EncodeTx, PollTx, ServerFsm.Fill;
    RunThree(y, Serve([b]), Serve([b]), Serve([b]));
    DeliveredTx(HeaderFor(RequestMsg, y.client.cfg), y.up, RequestMsg, y.server.cfg.maxLen);
    var a := Step(y, Serve([b]));
    assert a.server == y.server.(phase := ServerFsm.AtLoop, next := Response, peer := y.client.cfg);
    var agreed := a.server.(current := Response, busy := true, peer := Terms(y));
    FillsByte(agreed, b);
    z := Step(Step(a, Serve([b])), Serve([b]));
  }

  /** Nobody agrees, the timer fires. */
  lemma HearsNoInitiate(y: Protocol, b: byte, cursor: nat, size: nat) returns (z: Protocol)
    requires y.Valid() && Offering(y.server, b, Terms(y), cursor, size) && y.up == []
    ensures z == Run(y, [Serve([]), SERVER_GIVES_UP, Serve([]), Serve([])])
    ensures z.client == y.client && z.up == [] && z.down == y.down
    ensures Waiting(z.server, cursor, size) && z.server.cfg == y.server.cfg
  {
    hide EncodeTx, ReadTx;
    RunFour(y, Serve([]), SERVER_GIVES_UP, Serve([]), Serve([]));
    z := Step(Step(Step(Step(y, Serve([])), SERVER_GIVES_UP), Serve([])), Serve([]));
  }

  lemma BuildsByte(s: ServerFsm.Server, b: byte)
    requires s.Valid() && s.counter == 1 && s.remaining == 1 && s.mem[s.cursor] == b
    ensures var r := ServerFsm.BuildFrame(s);
      && r.phase == ServerFsm.SendingFrame(Frame([b], s.Room(), 0))
      && r.cursor == s.cursor + 1 && r.mem == s.mem && r.success == s.success
      && r.remaining == 0 && r.peer == s.peer && r.snapshot == s.snapshot
  {
    hide SetContinue, SetFrameNumber;
    assert s.mem[s.cursor..s.cursor + 1] == [b];
    assert Cut(0, s.Room(), 1) == 0 && Cut(1, s.Room(), 1) == 1;
    assert [b][0..1] == [b];
  }

  lemma HearsInitiate(y: Protocol, b: byte, cursor: nat, size: nat, rest: Channel) returns (z: Protocol)
    requires y.Valid() && Offering(y.server, b, Terms(y), cursor, size)
    requires y.up == [InitiateMessage(Terms(y))] + rest
    ensures z == Run(y, [Serve([]), Serve([])])
    ensures z.client == y.client && z.up == rest && z.down == y.down
    ensures z.server.phase == ServerFsm.AtLoop && z.server.next == Block && z.server.counter == 1
    ensures z.server.remaining == 1 && z.server.cursor == cursor && !z.server.success
    ensures z.server.mem == y.server.mem && z.server.cfg == y.server.cfg
    ensures z.server.peer == Terms(y) && z.server.snapshot == y.server.snapshot
  {
    hide EncodeTx, PollTx;
    RunTwice(y, Serve([]), Serve([]));
    var a := Step(y, Serve([]));
    DeliveredTx(HeaderFor(InitiateMsg, Terms(y)), a.up, InitiateMsg, a.server.cfg.maxLen);
    z := Step(a, Serve([]));
  }

  lemma SendsByte(y: Protocol, b: byte) returns (z: Protocol)
    requires y.Valid() && y.server.phase == ServerFsm.AtLoop && y.server.next == Block
    requires y.server.counter == 1 && y.server.remaining == 1 && y.server.mem[y.server.cursor] == b
    requires !y.server.success && |y.down| < CAPACITY
    ensures z == Run(y, [Serve([]), Serve([])])
    ensures z.client == y.client && z.up == y.up
    ensures z.down == y.down + [EncodeBlock(Frame([b], y.server.Room(), 0))]
    ensures z.server.phase == ServerFsm.AwaitAck && !z.server.success
    ensures z.server.cursor == y.server.cursor + 1 && z.server.mem == y.server.mem
    ensures z.server.cfg == y.server.cfg && z.server.peer == y.server.peer
    ensures z.server.remaining == 0 && z.server.snapshot == y.server.snapshot
  {
    hide EncodeTx, EncodeBlock, PollTx, Frame, ServerFsm.BuildFrame, GetContinue;
    RunTwice(y, Serve([]), Serve([]));
    BuildsByte(y.server.(current := Block, busy := true), b);
    OneByteFrame(b, y.server.Room());
    z := Step(Step(y, Serve([])), Serve([]));
  }

  /** The terms are agreed to, and the only frame is sent. */
  lemma Streams(y: Protocol, b: byte, cursor: nat, size: nat, rest: Channel) returns (z: Protocol)
    requires y.Valid() && Offering(y.server, b, Terms(y), cursor, size)
    requires y.up == [InitiateMessage(Terms(y))] + rest && |y.down| < CAPACITY
    ensures z == Run(y, [Serve([]), Serve([])] + [Serve([]), Serve([])])
    ensures z.client == y.client && z.up == rest
    ensures z.down == y.down + [EncodeBlock(Frame([b], y.server.Room(), 0))]
    ensures z.server.phase == ServerFsm.AwaitAck && !z.server.success
    ensures z.server.cursor == cursor + 1 && |z.server.mem| == size && z.server.cfg == y.server.cfg
    ensures z.server.peer == Terms(y) && z.server.remaining == 0
    ensures z.server.snapshot == y.server.snapshot
  {
    hide EncodeTx, EncodeBlock, Frame, Run, Step;
    var a := HearsInitiate(y, b, cursor, size, rest);
    z := SendsByte(a, b);
    RunAppend(y, [Serve([]), Serve([])], [Serve([]), Serve([])]);
  }

  /** The negative acknowledgement is no acknowledgement, the timer fires. */
  lemma HearsNoAck(y: Protocol) returns (z: Protocol)
    requires y.Valid() && y.server.phase == ServerFsm.AwaitAck && !y.server.success
    requires y.up == [AckNotMessage(Terms(y))]
    ensures z == Run(y, [SERVER_GIVES_UP, Serve([]), Serve([])])
    ensures z.client == y.client && z.up == [] && z.down == y.down
    ensures Waiting(z.server, y.server.cursor, |y.server.mem|) && z.server.cfg == y.server.cfg
  {
    hide EncodeTx, PollTx, PollBlock;
    RunThree(y, SERVER_GIVES_UP, Serve([]), Serve([]));
    AckNotIsNeverAccepted(ClientFsm.AckHeader(AckNotMsg, Terms(y).id), y.up, AckMsg,
                          y.server.cfg.maxLen);
    z := Step(Step(Step(y, SERVER_GIVES_UP), Serve([])), Serve([]));
  }

  /** The acknowledgement is taken, and success is about to be reported. */
  lemma HearsAck(y: Protocol) returns (z: Protocol)
    requires y.Valid() && y.server.phase == ServerFsm.AwaitAck && y.server.remaining == 0
    requires y.server.peer == Terms(y) && y.up == [AckMessage(Terms(y))]
    ensures z == Run(y, [Serve([])]) && z.client == y.client && z.server.snapshot == y.server.snapshot
    ensures Step(z, Serve([])).server.notes == z.server.notes + [true]
  {
    hide EncodeTx, PollTx;
    RunOne(y, Serve([]));
    DeliveredTx(ClientFsm.AckHeader(AckMsg, Terms(y).id), y.up, AckMsg, y.server.cfg.maxLen);
    z := Step(y, Serve([]));
  }

  // ---------- three transfers ----------

  /** Both parties at rest, with a given channel to the client. */
  predicate AtRest(y: Protocol, down: Channel, cursor: nat) {
    && y.Valid() && Idling(y.client) && Waiting(y.server, cursor, |y.server.mem|)
    && y.up == [] && y.down == down && cursor <= 1 < |y.server.mem|
  }

  /** What the second transfer leaves behind. */
  function Stale(y: Protocol): Channel
    requires y.Valid()
  {
    [ResponseMessage(Terms(y)), EncodeBlock(Frame([1], y.server.Room(), 0))]
  }

  predicate SameParties(y: Protocol, z: Protocol) {
    z.server.cfg == y.server.cfg && z.client.cfg == y.client.cfg && |z.server.mem| == |y.server.mem|
  }

  /** The client gives up before the response arrives, and leaves it behind. */
  lemma FirstTransfer(y: Protocol) returns (schedule: seq<Action>, z: Protocol)
    requires AtRest(y, [], 0) && !Hopeless(y)
    ensures z == Run(y, schedule) && SameParties(y, z)
    ensures AtRest(z, [ResponseMessage(Terms(z))], 0)
    ensures z.client.notes == y.client.notes + [false]
  {
    hide Step, Run, EncodeTx;
    var a := Requests(y, [0]);
    var b := HearsNoResponse(a, [0]);
    var c := Reads(b, 1, []);
    z := HearsNoInitiate(c, 1, 0, |y.server.mem|);
    var s1, s2 := [StartTransfer(Some([0])), CLIENT, CLIENT], [CLIENT, CLIENT_GIVES_UP, CLIENT, CLIENT];
    var s3, s4 := [Serve([1]), Serve([1]), Serve([1])], [Serve([]), SERVER_GIVES_UP, Serve([]), Serve([])];
    RunAppend(y, s1, s2);
    RunAppend(y, s1 + s2, s3);
    RunAppend(y, s1 + s2 + s3, s4);
    schedule := s1 + s2 + s3 + s4;
  }

  /** The client takes the first response, agrees, and gives up before the server streams; the
      second response and a frame stay behind. */
  lemma SecondTransfer(y: Protocol) returns (schedule: seq<Action>, z: Protocol)
    requires AtRest(y, [ResponseMessage(Terms(y))], 0) && !Hopeless(y)
    ensures z == Run(y, schedule) && SameParties(y, z) && z.Valid()
    ensures AtRest(z, Stale(z), 1) && z.client.notes == y.client.notes + [false]
  {
    hide Step, Run, EncodeTx, EncodeBlock, Frame;
    var terms := Terms(y);
    var a := Requests(y, [0]);
    var b := AgreesToTerms(a, [0], []);
    var c := HearsNoFrame(b, [0]);
    assert c.up == [RequestMessage(c.client.cfg)] + [InitiateMessage(terms), AckNotMessage(terms)];
    var d := Reads(c, 1, [InitiateMessage(terms), AckNotMessage(terms)]);
    assert d.up == [InitiateMessage(terms)] + [AckNotMessage(terms)];
    var e := Streams(d, 1, 0, |y.server.mem|, [AckNotMessage(terms)]);
    z := HearsNoAck(e);
    var s1, s2 := [StartTransfer(Some([0])), CLIENT, CLIENT], [CLIENT, CLIENT, CLIENT, CLIENT];
    var s3, s4 := [CLIENT, CLIENT_GIVES_UP, CLIENT] + [CLIENT, CLIENT], [Serve([1]), Serve([1]), Serve([1])];
    var s5, s6 := [Serve([]), Serve([])] + [Serve([]), Serve([])], [SERVER_GIVES_UP, Serve([]), Serve([])];
    RunAppend(y, s1, s2);
    RunAppend(y, s1 + s2, s3);
    RunAppend(y, s1 + s2 + s3, s4);
    RunAppend(y, s1 + s2 + s3 + s4, s5);
    RunAppend(y, s1 + s2 + s3 + s4 + s5, s6);
    schedule := s1 + s2 + s3 + s4 + s5 + s6;
  }

  /** The server reads something else; the client takes what was left behind. */
  lemma ThirdTransfer(y: Protocol) returns (schedule: seq<Action>, z: Protocol)
    requires y.Valid() && AtRest(y, Stale(y), 1) && !Hopeless(y)
    ensures z == Run(y, schedule) && SameParties(y, z) && z.Valid()
    ensures z.client.phase == ClientFsm.AtLoop && z.client.next == Terminate && z.client.success
    ensures z.client.notes == y.client.notes && z.client.dest == [1]
    ensures Offering(z.server, 2, Terms(z), 1, |y.server.mem|)
    ensures z.up == [InitiateMessage(Terms(z)), AckMessage(Terms(z))] && |z.down| < CAPACITY
  {
    hide Run, EncodeTx, EncodeBlock, Frame, ServerFsm.Step, ClientFsm.Step;
    var frame := EncodeBlock(Frame([1], y.server.Room(), 0));
    var a := Requests(y, [0]);
    var b := Reads(a, 2, []);
    assert b.down == [ResponseMessage(Terms(b))] + [frame, ResponseMessage(Terms(b))];
    var c := AgreesToTerms(b, [0], [frame, ResponseMessage(Terms(b))]);
    assert c.down == [frame] + [ResponseMessage(Terms(b))];
    z := StoresByte(c, 1, [ResponseMessage(Terms(b))]);
    var s1, s2 := [StartTransfer(Some([0])), CLIENT, CLIENT], [Serve([2]), Serve([2]), Serve([2])];
    var s3, s4 := [CLIENT, CLIENT, CLIENT, CLIENT], [CLIENT, CLIENT, CLIENT];
    RunAppend(y, s1, s2);
    RunAppend(y, s1 + s2, s3);
    RunAppend(y, s1 + s2 + s3, s4);
    schedule := s1 + s2 + s3 + s4;
  }

  lemma FreshParties(start: Protocol) returns (z: Protocol)
    requires Initial(start) && !Hopeless(start)
    ensures z == Run(start, [StartServer, Serve([])])
    ensures AtRest(z, [], 0) && SameParties(start, z) && z.client.notes == []
  {
    hide EncodeTx;
    RunTwice(start, StartServer, Serve([]));
    MulMonotone(1, start.server.cfg.blocks, start.server.Room());
    z := Step(Step(start, StartServer), Serve([]));
  }

  /** For every two fresh parties with any hope of success, some run ends with both parties on the
      way to report success: the third transfer's byte is the second one's, and the two before it
      were reported as failed. */
  lemma WrongBytes(start: Protocol) returns (schedule: seq<Action>, z: Protocol)
    requires Initial(start) && !Hopeless(start)
    ensures z == Run(start, schedule)
    ensures z.client.phase == ClientFsm.AtLoop && z.client.next == Terminate && z.client.success
    ensures z.client.notes == [false, false] && z.client.dest == [1] && z.server.snapshot == [2]
    ensures Offering(z.server, 2, Terms(z), 1, |z.server.mem|)
    ensures z.up == [InitiateMessage(Terms(z)), AckMessage(Terms(z))] && |z.down| < CAPACITY
  {
    hide Step, Run, EncodeTx, EncodeBlock, Frame;
    var a := FreshParties(start);
    var s1, b := FirstTransfer(a);
    var s2, c := SecondTransfer(b);
    var s3, end := ThirdTransfer(c);
    var s0 := [StartServer, Serve([])];
    RunAppend(start, s0, s1);
    RunAppend(start, s0 + s1, s2);
    RunAppend(start, s0 + s1 + s2, s3);
    schedule, z := s0 + s1 + s2 + s3, end;
  }

  /** The server goes on: it streams its own byte into the void, takes the acknowledgement of the
      other one, and is about to report success, too. */
  lemma ServerMisled(start: Protocol) returns (schedule: seq<Action>, z: Protocol)
    requires Initial(start) && !Hopeless(start)
    ensures z == Run(start, schedule) && z.client.dest == [1] && z.server.snapshot == [2]
    ensures Step(z, Serve([])).server.notes == z.server.notes + [true]
  {
    hide Step, Run, EncodeTx, EncodeBlock, Frame;
    var s1, a := WrongBytes(start);
    assert a.up == [InitiateMessage(Terms(a))] + [AckMessage(Terms(a))];
    var b := Streams(a, 2, 1, |a.server.mem|, [AckMessage(Terms(a))]);
    z := HearsAck(b);
    var s2 := [Serve([]), Serve([])] + [Serve([]), Serve([])];
    RunAppend(start, s1, s2);
    RunAppend(start, s1 + s2, [Serve([])]);
    schedule := s1 + s2 + [Serve([])];
  }

  lemma NoCopy(c: ClientFsm.Client)
    requires c.dest == [1]
    ensures !Delivery.ExactCopy(c, [2])
  {
    assert c.dest[0] == 1;
  }

  // ---------- the condition is needed ----------

  /** In no run, with transfers started at any moment, does the client report success without an
      exact copy. */
  ghost predicate AlwaysExactHoweverStarted(start: Protocol)
    requires start.Valid()
  {
    forall schedule: seq<Action>, a: Action ::
      var y := Run(start, schedule);
      var z := Step(y, a);
      z.client.notes == y.client.notes + [true] ==> Delivery.ExactCopy(z.client, z.server.snapshot)
  }

  /** Nor does the server, without the client having stored everything and acknowledged it. */
  ghost predicate AlwaysAgreedHoweverStarted(start: Protocol)
    requires start.Valid()
  {
    forall schedule: seq<Action>, a: Action ::
      var y := Run(start, schedule);
      Step(y, a).server.notes == y.server.notes + [true] ==>
        && y.client.acked && Delivery.Succeeded(y.client)
        && Delivery.ExactCopy(y.client, y.server.snapshot)
  }

  /** Without the condition that transfers are started drained, success means an exact copy if
      and only if no success is possible at all. */
  lemma DrainingIsNeeded(start: Protocol)
    requires Initial(start)
    ensures AlwaysExactHoweverStarted(start) <==> Hopeless(start)
  {
    hide Step, Run, Delivery.ExactCopy;
    if Hopeless(start) {
      HopelessNeverSucceeds(start);
    } else {
      var schedule, z := WrongBytes(start);
      ReportsSuccess(z);
      NoCopy(Step(Run(start, schedule), CLIENT).client);
    }
  }

  /** The same for the server's reports. */
  lemma DrainingIsNeededForTheServer(start: Protocol)
    requires Initial(start)
    ensures AlwaysAgreedHoweverStarted(start) <==> Hopeless(start)
  {
    hide Step, Run, Delivery.ExactCopy, Delivery.Succeeded;
    if Hopeless(start) {
      HopelessServerNeverSucceeds(start);
    } else {
      var schedule, z := ServerMisled(start);
      NoCopy(Run(start, schedule).client);
    }
  }
}

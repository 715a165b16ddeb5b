/** The server's sessions as an observer of its incoming messages counts them, against any
    environment. What the observer looks at is stated in bytes. */
module Sessions {
  import opened Bytes
  import opened Packets
  import opened Transport
  import opened Fsm
  import opened ServerFsm
  import opened ServerRuns
  import ServerProofs

  // ---------- messages ----------

  /** A transaction message that is not too long, has this type byte, and whose two CRC bytes
      are 0. */
  predicate IsMessage(m: Message, code: byte, maxLen: nat) {
    0 < |m| <= maxLen && m[0] == code && At(m, 8) == 0 && At(m, 9) == 0
  }

  /** The identifier: bytes 1 to 4, lowest first. */
  function IdOf(m: Message): bv32 {
    (At(m, 1) as bv32) | ((At(m, 2) as bv32) << 8) | ((At(m, 3) as bv32) << 16)
    | ((At(m, 4) as bv32) << 24)
  }

  lemma NoCrc(a: byte, b: byte)
    ensures (a as bv16) | ((b as bv16) << 8) == 0 <==> a == 0 && b == 0
  {}

  lemma Heard(q: Channel, want: MsgType, code: byte, maxLen: nat)
    requires match want
             case RequestMsg => code == 1
             case ResponseMsg => code == 2
             case InitiateMsg => code == 3
             case AckMsg => code == 5
             case _ => false
    ensures var got := PollTx(q, want, maxLen);
      && (got.Some? <==> q != [] && IsMessage(q[0], code, maxLen))
      && (got.Some? ==> got.value.id == IdOf(q[0]))
  {
    hide Gather32, Gather16, TypeOf, FromByte;
    if q != [] {
      var m := q[0];
      Read16(m, 8);
      Read32(m, 1);
      NoCrc(At(m, 8), At(m, 9));
    }
  }

  // ---------- the observer ----------

  /** A server, and for every request it has accepted: the identifier, and whether its
      acknowledgement was taken. */
  datatype Log = Log(server: Server, ids: seq<bv32>, acks: seq<bool>, agreed: bool) {
    predicate Valid() {
      server.Valid() && |ids| == |acks|
    }

    /** A message of this type is next, with the identifier of the session. */
    predicate ForSession(q: Channel, code: byte) {
      && q != [] && IsMessage(q[0], code, server.cfg.maxLen)
      && ids != [] && IdOf(q[0]) == ids[|ids| - 1]
    }
  }

  function Opened(s: Server): Log {
    Log(s, [], [], false)
  }

  function LogStep(t: Log, i: Input): (r: Log)
    requires t.Valid()
    ensures r.Valid()
  {
    if i.StartCall? then t.(server := Start(t.server))
    else
      var s, r := t.server, Step(t.server, i.rx, i.tx, i.e).server;
      if s.phase == AwaitRequest && i.rx != [] && IsMessage(i.rx[0], 1, s.cfg.maxLen) then
        Log(r, t.ids + [IdOf(i.rx[0])], t.acks + [false], false)
      else if s.phase == AwaitInitiate && t.ForSession(i.rx, 3) then t.(server := r, agreed := true)
      else if s.phase == AwaitAck && t.ForSession(i.rx, 5) then
        t.(server := r, acks := t.acks[..|t.acks| - 1] + [true])
      else t.(server := r)
  }

  function LogRun(t: Log, inputs: seq<Input>): (r: Log)
    requires t.Valid()
    ensures r.Valid()
    decreases |inputs|
  {
    if inputs == [] then t else LogRun(LogStep(t, inputs[0]), inputs[1..])
  }

  ghost predicate Logged(s: Server, inputs: seq<Input>, t: Log) {
    Initial(s) && t == LogRun(Opened(s), inputs)
  }

  // ---------- the invariant ----------

  /** Between sessions everything is cleared, and every session has been reported. */
  predicate Cleared(t: Log) {
    && t.server.peer == NO_CONFIG && t.server.remaining == 0 && !t.server.success
    && t.server.notes == t.acks
  }

  /** In a session, its terms carry its identifier, and all sessions before it are reported. */
  predicate Running(t: Log) {
    && t.acks != [] && t.ids != []
    && t.server.notes == t.acks[..|t.acks| - 1]
    && t.server.success == t.acks[|t.acks| - 1]
    && t.server.peer.id == t.ids[|t.ids| - 1]
    && (t.server.InBlock() ==> t.agreed)
  }

  ghost predicate LogInv(t: Log) {
    && t.Valid() && ServerProofs.Inv(t.server)
    && if t.server.Ready() then Cleared(t) else Running(t)
  }

  lemma RequestStep(t: Log, rx: Channel, tx: Channel, e: Env)
    requires LogInv(t) && t.server.phase == AwaitRequest
    ensures LogInv(LogStep(t, Move(rx, tx, e)))
  {
    hide PollTx, IsMessage, ServerProofs.Inv, IdOf;
    ServerProofs.StepInv(t.server, rx, tx, e);
    Heard(rx, RequestMsg, 1, t.server.cfg.maxLen);
  }

  lemma InitiateStep(t: Log, rx: Channel, tx: Channel, e: Env)
    requires LogInv(t) && t.server.phase == AwaitInitiate
    ensures LogInv(LogStep(t, Move(rx, tx, e)))
  {
    hide PollTx, IsMessage, ServerProofs.Inv, IdOf;
    ServerProofs.StepInv(t.server, rx, tx, e);
    Heard(rx, InitiateMsg, 3, t.server.cfg.maxLen);
  }

  lemma NothingLeft(s: Server)
    requires ServerProofs.Inv(s) && s.phase == AwaitAck
    ensures s.remaining == 0 && !s.success
  {
    hide ServerProofs.Loaded;
  }

  lemma AckStep(t: Log, rx: Channel, tx: Channel, e: Env)
    requires LogInv(t) && t.server.phase == AwaitAck
    ensures LogInv(LogStep(t, Move(rx, tx, e)))
  {
    hide PollTx, IsMessage, ServerProofs.Inv, IdOf;
    ServerProofs.StepInv(t.server, rx, tx, e);
    NothingLeft(t.server);
    Heard(rx, AckMsg, 5, t.server.cfg.maxLen);
  }

  lemma SendingStep(t: Log, rx: Channel, tx: Channel, e: Env)
    requires LogInv(t) && (t.server.phase.SendingResponse? || t.server.phase.SendingFrame?)
    ensures LogInv(LogStep(t, Move(rx, tx, e)))
  {
    hide CanSendTx, CanSendBlock, EncodeTx, EncodeBlock, Push, GetContinue, ServerProofs.PhaseInv;
    ServerProofs.StepInv(t.server, rx, tx, e);
    CurrentState(t.server);
  }

  lemma CurrentState(s: Server)
    requires ServerProofs.Inv(s)
    ensures s.phase.SendingFrame? ==> s.current == Block
  {
    hide ServerProofs.Loaded;
  }

  lemma ActivatingStep(t: Log, rx: Channel, tx: Channel, e: Env)
    requires LogInv(t) && t.server.phase == AtLoop
    ensures LogInv(LogStep(t, Move(rx, tx, e)))
  {
    hide ServerProofs.Inv, Activate;
    ServerProofs.StepInv(t.server, rx, tx, e);
    Activated(t.server, e.store);
  }

  lemma Activated(s: Server, store: seq<byte>)
    requires s.Valid() && s.phase == AtLoop
    ensures var r := Activate(s, store);
      if s.Ready() then
        && r.Ready() && r.notes == s.notes && r.peer in {s.peer, NO_CONFIG}
        && r.remaining in {s.remaining, 0} && (r.success ==> s.success)
      else if s.next == Terminate then
        && r.Ready() && r.notes == s.notes + [s.success] && r.peer == NO_CONFIG && r.remaining == 0
        && !r.success
      else
        && !r.Ready() && r.notes == s.notes && r.peer.id == s.peer.id && r.success == s.success
        && (r.InBlock() ==> s.InBlock())
  {
    hide SetContinue, SetFrameNumber;
  }

  lemma LogStepInv(t: Log, i: Input)
    requires LogInv(t)
    ensures LogInv(LogStep(t, i))
  {
    hide LogStep, ServerProofs.Inv, Cleared, Running;
    if i.StartCall? {
      StartStep(t);
    } else {
      match t.server.phase
      case AtLoop => ActivatingStep(t, i.rx, i.tx, i.e);
      case AwaitRequest => RequestStep(t, i.rx, i.tx, i.e);
      case AwaitInitiate => InitiateStep(t, i.rx, i.tx, i.e);
      case AwaitAck => AckStep(t, i.rx, i.tx, i.e);
      case Overflowed => OverflowStep(t, i);
      case _ => SendingStep(t, i.rx, i.tx, i.e);
    }
  }

  lemma StartStep(t: Log)
    requires LogInv(t)
    ensures LogInv(LogStep(t, StartCall))
  {
    hide ServerProofs.PhaseInv;
    ServerProofs.StartInv(t.server);
  }

  lemma OverflowStep(t: Log, i: Input)
    requires t.Valid() && t.server.phase == Overflowed && i.Move?
    ensures LogStep(t, i) == t
  {}

  lemma {:induction false} LogRunInv(t: Log, inputs: seq<Input>)
    requires LogInv(t)
    ensures LogInv(LogRun(t, inputs))
    decreases |inputs|
  {
    hide LogStep, ServerProofs.Inv, Cleared, Running;
    if inputs != [] {
      LogStepInv(t, inputs[0]);
      LogRunInv(LogStep(t, inputs[0]), inputs[1..]);
    }
  }

  // ---------- main results ----------

  /** Every session ends with one report. In every run, against any environment: there have been
      as many notifications as requests were accepted, less the session in progress (which a
      session whose storage read overflowed remains); and each was true exactly when, in its
      session, the server took an acknowledgement with CRC 0 and the session's identifier. */
  lemma EverySessionIsReported(s: Server, inputs: seq<Input>, t: Log)
    requires Logged(s, inputs, t)
    ensures |t.server.notes| + (if t.server.Ready() then 0 else 1) == |t.acks|
    ensures forall i :: 0 <= i < |t.server.notes| ==> t.server.notes[i] == t.acks[i]
  {
    hide ServerProofs.Inv, LogRun;
    ServerProofs.InitialInv(s);
    LogRunInv(Opened(s), inputs);
  }

  /** No session begins with what an earlier one left behind; none gets to BLOCK without an
      agreement that carries its identifier; and a success is pending only after its
      acknowledgement. */
  lemma SessionsAreSeparate(s: Server, inputs: seq<Input>, t: Log)
    requires Logged(s, inputs, t)
    ensures t.server.Ready() ==> t.server.peer == Config(0, 0, 0, 0) && t.server.remaining == 0
                                 && !t.server.success
    ensures !t.server.Ready() ==> t.ids != [] && t.server.peer.id == t.ids[|t.ids| - 1]
    ensures !t.server.Ready() ==> t.server.success == t.acks[|t.acks| - 1]
    ensures t.server.InBlock() ==> t.agreed
  {
    hide ServerProofs.Inv, LogRun;
    ServerProofs.InitialInv(s);
    LogRunInv(Opened(s), inputs);
  }
}
